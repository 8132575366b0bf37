/** Where protected values occur in a text: merged, sorted intervals that cover exactly their occurrences. */
module ProtectedValues {
  import opened Text

  const MARKER: Text := [0x5B, 0x52, 0x45, 0x44, 0x41, 0x43, 0x54, 0x45, 0x44, 0x5D]

  datatype Interval = Interval(start: nat, end: nat)

  /** The non-empty `member` stands in `value` at `p`. */
  predicate Occurs(value: Text, member: Text, p: nat) {
    member != [] && p + |member| <= |value| && value[p..p + |member|] == member
  }

  /** Position `i` belongs to an occurrence of `member`. */
  ghost predicate CoveredBy(value: Text, member: Text, i: nat) {
    exists p: nat :: p <= i < p + |member| && Occurs(value, member, p)
  }

  /** Position `i` belongs to an occurrence of some member. */
  ghost predicate Covered(value: Text, members: seq<Text>, i: nat) {
    exists k :: 0 <= k < |members| && CoveredBy(value, members[k], i)
  }

  predicate Holds(v: Interval, i: nat) {
    v.start <= i < v.end
  }

  ghost predicate InAny(intervals: seq<Interval>, i: nat) {
    exists k :: 0 <= k < |intervals| && Holds(intervals[k], i)
  }

  /** Non-empty intervals in order, with a gap between neighbours. */
  ghost predicate Separated(intervals: seq<Interval>) {
    && (forall k :: 0 <= k < |intervals| ==> intervals[k].start < intervals[k].end)
    && (forall j, k :: 0 <= j < k < |intervals| ==> intervals[j].end < intervals[k].start)
  }

  ghost predicate Within(intervals: seq<Interval>, n: nat) {
    forall k :: 0 <= k < |intervals| ==> intervals[k].start < intervals[k].end <= n
  }

  lemma InAnyAppend(a: seq<Interval>, v: Interval, i: nat)
    ensures InAny(a + [v], i) <==> InAny(a, i) || Holds(v, i)
  {
    if InAny(a, i) {
      var k :| 0 <= k < |a| && Holds(a[k], i);
      assert Holds((a + [v])[k], i);
    }
    if Holds(v, i) {
      assert Holds((a + [v])[|a|], i);
    }
  }

  /** The first occurrence at or after `from`. */
  method IndexOf(value: Text, member: Text, from: nat) returns (index: Option<nat>)
    requires member != []
    ensures index.Some? ==> from <= index.value && Occurs(value, member, index.value)
    ensures forall p: nat :: from <= p && Occurs(value, member, p) ==> index.Some? && index.value <= p
  {
    var p := from;
    while p + |member| <= |value|
      invariant from <= p
      invariant forall q: nat :: from <= q < p ==> !Occurs(value, member, q)
    {
      if value[p..p + |member|] == member { return Some(p); }
      p := p + 1;
    }
    return None;
  }

  /** Position `i` belongs to an occurrence of `member` that starts before `before`. */
  ghost predicate CoveredFrom(value: Text, member: Text, before: int, i: nat) {
    exists p: nat :: p <= i < p + |member| && p < before && Occurs(value, member, p)
  }

  lemma OneMore(value: Text, member: Text, p: nat, before: int, i: nat)
    requires Occurs(value, member, p)
    requires forall q: nat :: before <= q < p ==> !Occurs(value, member, q)
    requires before <= p
    ensures CoveredFrom(value, member, p + 1, i) <==> CoveredFrom(value, member, before, i) || p <= i < p + |member|
  {
    if CoveredFrom(value, member, p + 1, i) {
      var q: nat :| q <= i < q + |member| && q < p + 1 && Occurs(value, member, q);
      assert q == p || q < before;
    }
    if CoveredFrom(value, member, before, i) {
      var q: nat :| q <= i < q + |member| && q < before && Occurs(value, member, q);
    }
  }

  /** One member's occurrences as completed runs, added to `completed`. */
  method CollectMemberIntervals(value: Text, member: Text, completed: seq<Interval>) returns (all: seq<Interval>)
    requires member != [] && Within(completed, |value|)
    ensures Within(all, |value|)
    ensures forall i: nat :: InAny(all, i) <==> InAny(completed, i) || CoveredBy(value, member, i)
  {
    all := completed;
    var pending: Option<Interval> := None;
    var index := IndexOf(value, member, 0);
    ghost var seen: nat := 0;
    while index.Some?
      invariant Within(all, |value|)
      invariant pending.Some? ==>
        pending.value.start < pending.value.end <= |value| && pending.value.end < seen + |member|
      invariant pending.Some? ==> pending.value.start < seen
      invariant forall i: nat :: Collected(all, pending, i) <==>
        InAny(completed, i) || CoveredFrom(value, member, seen, i)
      invariant index.Some? ==> seen <= index.value && Occurs(value, member, index.value)
      invariant forall p: nat :: seen <= p && Occurs(value, member, p) ==> index.Some? && index.value <= p
      decreases |value| - seen
    {
      var at := index.value;
      all, pending := Extend(all, pending, at, at + |member|);
      forall i: nat ensures CoveredFrom(value, member, at + 1, i) <==>
        CoveredFrom(value, member, seen, i) || at <= i < at + |member| {
        OneMore(value, member, at, seen, i);
      }
      index := IndexOf(value, member, at + 1);
      seen := at + 1;
    }
    forall i: nat ensures CoveredFrom(value, member, seen, i) <==> CoveredBy(value, member, i) {
    }
    if pending.Some? {
      forall i: nat ensures InAny(all + [pending.value], i) <==> Collected(all, pending, i) {
        InAnyAppend(all, pending.value, i);
      }
      all := all + [pending.value];
    }
  }

  ghost predicate Collected(all: seq<Interval>, pending: Option<Interval>, i: nat) {
    InAny(all, i) || (pending.Some? && Holds(pending.value, i))
  }

  /** An occurrence joins the pending run it touches, or completes it and starts the next. */
  method Extend(all: seq<Interval>, pending: Option<Interval>, at: nat, end: nat)
    returns (all': seq<Interval>, pending': Option<Interval>)
    requires at < end && (pending.Some? ==> pending.value.start < at && pending.value.start < pending.value.end <= end)
    ensures pending'.Some? && pending'.value.end == end && pending'.value.start <= at
    ensures forall i: nat :: Collected(all', pending', i) <==> Collected(all, pending, i) || at <= i < end
    ensures forall n :: Within(all, n) && (pending.Some? ==> pending.value.end <= n) ==> Within(all', n)
  {
    if pending == None {
      return all, Some(Interval(at, end));
    }
    if at <= pending.value.end {
      return all, Some(Interval(pending.value.start, if end > pending.value.end then end else pending.value.end));
    }
    forall i: nat ensures InAny(all + [pending.value], i) <==> Collected(all, pending, i) {
      InAnyAppend(all, pending.value, i);
    }
    return all + [pending.value], Some(Interval(at, end));
  }

  // Sorting and merging.

  predicate Before(a: Interval, b: Interval) {
    a.start < b.start || (a.start == b.start && a.end <= b.end)
  }

  ghost predicate Ordered(s: seq<Interval>) {
    forall j, k :: 0 <= j < k < |s| ==> Before(s[j], s[k])
  }

  /** `v` placed before the first interval it does not follow. */
  function Insert(s: seq<Interval>, v: Interval): (r: seq<Interval>)
    requires Ordered(s)
    ensures Ordered(r) && (forall x :: x in r <==> x in s || x == v)
  {
    if s == [] || Before(v, s[0]) then [v] + s
    else
      var rest := Insert(s[1..], v);
      assert forall x :: x in rest ==> Before(s[0], x);
      [s[0]] + rest
  }

  function Sort(s: seq<Interval>): (r: seq<Interval>)
    ensures Ordered(r) && (forall x :: x in r <==> x in s)
  {
    if s == [] then [] else
      assert forall x :: x in s <==> x == s[0] || x in s[1..];
      Insert(Sort(s[1..]), s[0])
  }

  lemma SameElements(a: seq<Interval>, b: seq<Interval>, i: nat)
    requires forall x :: x in a <==> x in b
    ensures InAny(a, i) <==> InAny(b, i)
  {
    if InAny(a, i) {
      var k :| 0 <= k < |a| && Holds(a[k], i);
      assert a[k] in b;
    }
    if InAny(b, i) {
      var k :| 0 <= k < |b| && Holds(b[k], i);
      assert b[k] in a;
    }
  }

  /** Joins intervals that overlap or touch. */
  method MergeIntervals(sorted: seq<Interval>, n: nat) returns (merged: seq<Interval>)
    requires Ordered(sorted) && Within(sorted, n)
    ensures Separated(merged) && Within(merged, n)
    ensures forall i: nat :: InAny(merged, i) <==> InAny(sorted, i)
  {
    merged := [];
    var k := 0;
    while k < |sorted|
      invariant k <= |sorted|
      invariant Separated(merged) && Within(merged, n)
      invariant k < |sorted| && merged != [] ==> merged[|merged| - 1].start <= sorted[k].start
      invariant forall i: nat :: InAny(merged, i) <==> InAny(sorted[..k], i)
    {
      assert sorted[..k + 1] == sorted[..k] + [sorted[k]];
      forall i: nat ensures InAny(sorted[..k + 1], i) <==> InAny(sorted[..k], i) || Holds(sorted[k], i) {
        InAnyAppend(sorted[..k], sorted[k], i);
      }
      merged := MergeOne(merged, sorted[k], n);
      k := k + 1;
    }
    assert sorted[..k] == sorted;
  }

  method MergeOne(merged: seq<Interval>, v: Interval, n: nat) returns (merged': seq<Interval>)
    requires Separated(merged) && Within(merged, n) && v.start < v.end <= n
    requires merged != [] ==> merged[|merged| - 1].start <= v.start
    ensures Separated(merged') && Within(merged', n) && merged' != [] && merged'[|merged'| - 1].start <= v.start
    ensures forall i: nat :: InAny(merged', i) <==> InAny(merged, i) || Holds(v, i)
  {
    if merged != [] && v.start <= merged[|merged| - 1].end {
      var last, front := merged[|merged| - 1], merged[..|merged| - 1];
      assert merged == front + [last];
      merged' := if v.end > last.end then front + [Interval(last.start, v.end)] else merged;
      forall i: nat ensures InAny(merged', i) <==> InAny(merged, i) || Holds(v, i) {
        InAnyAppend(front, last, i);
        InAnyAppend(front, Interval(last.start, v.end), i);
      }
    } else {
      merged' := merged + [v];
      forall i: nat ensures InAny(merged', i) <==> InAny(merged, i) || Holds(v, i) {
        InAnyAppend(merged, v, i);
      }
    }
  }

  lemma CoveredWithOneMore(value: Text, members: seq<Text>, k: nat, i: nat)
    requires k < |members|
    ensures Covered(value, members[..k + 1], i) <==> Covered(value, members[..k], i) || CoveredBy(value, members[k], i)
  {
    assert members[..k + 1] == members[..k] + [members[k]];
    if Covered(value, members[..k], i) {
      var j :| 0 <= j < k && CoveredBy(value, members[..k][j], i);
      assert CoveredBy(value, members[..k + 1][j], i);
    }
    if CoveredBy(value, members[k], i) {
      assert CoveredBy(value, members[..k + 1][k], i);
    }
  }

  /** Every occurrence of every member, as sorted intervals that neither overlap nor touch. */
  method ProtectedValueIntervals(value: Text, members: seq<Text>) returns (intervals: seq<Interval>)
    ensures Separated(intervals) && Within(intervals, |value|)
    ensures forall i: nat :: InAny(intervals, i) <==> Covered(value, members, i)
  {
    var matches: seq<Interval> := [];
    var k := 0;
    while k < |members|
      invariant k <= |members|
      invariant Within(matches, |value|)
      invariant forall i: nat :: InAny(matches, i) <==> Covered(value, members[..k], i)
    {
      forall i: nat ensures Covered(value, members[..k + 1], i) <==>
        Covered(value, members[..k], i) || CoveredBy(value, members[k], i) {
        CoveredWithOneMore(value, members, k, i);
      }
      if members[k] != [] {
        matches := CollectMemberIntervals(value, members[k], matches);
      }
      k := k + 1;
    }
    assert members[..k] == members;
    forall i: nat ensures InAny(Sort(matches), i) <==> InAny(matches, i) {
      SameElements(Sort(matches), matches, i);
    }
    WithinElements(matches, Sort(matches), |value|);
    intervals := MergeIntervals(Sort(matches), |value|);
  }

  lemma WithinElements(a: seq<Interval>, b: seq<Interval>, n: nat)
    requires Within(a, n) && forall x :: x in b ==> x in a
    ensures Within(b, n)
  {
    forall k | 0 <= k < |b| ensures b[k].start < b[k].end <= n {
      assert b[k] in a;
    }
  }
}
