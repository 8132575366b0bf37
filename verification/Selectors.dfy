/** Line selectors: what they denote, how they are merged and grown, placed against a count, and printed. */
module Selectors {
  import opened Text
  import opened Decimal

  const COMMA: CodeUnit := 0x2C
  const DASH: CodeUnit := 0x2D
  const PLUS: CodeUnit := 0x2B
  const MAX_SELECTOR_RANGES := 64
  const MAX_SAFE_INTEGER := 0x1F_FFFF_FFFF_FFFF

  /** `limit` lines from the zero-based line `offset`. */
  datatype Interval = Interval(offset: nat, limit: nat)

  predicate Holds(v: Interval, line: nat) {
    v.offset <= line < v.offset + v.limit
  }

  ghost predicate Selects(s: seq<Interval>, line: nat) {
    exists k :: 0 <= k < |s| && Holds(s[k], line)
  }

  ghost predicate NonEmpty(s: seq<Interval>) {
    forall k :: 0 <= k < |s| ==> s[k].limit > 0
  }

  /** In order, none empty, with at least one line between neighbours. */
  ghost predicate Canonical(s: seq<Interval>) {
    && NonEmpty(s)
    && (forall j, k :: 0 <= j < k < |s| ==> s[j].offset + s[j].limit < s[k].offset)
  }

  ghost predicate Sorted(s: seq<Interval>) {
    forall j, k :: 0 <= j < k < |s| ==> s[j].offset <= s[k].offset
  }

  lemma SelectsAppend(s: seq<Interval>, v: Interval, line: nat)
    ensures Selects(s + [v], line) <==> Selects(s, line) || Holds(v, line)
  {
    if Selects(s, line) {
      var k :| 0 <= k < |s| && Holds(s[k], line);
      assert Holds((s + [v])[k], line);
    }
    if Holds(v, line) {
      assert Holds((s + [v])[|s|], line);
    }
  }

  // Merging.

  function Insert(s: seq<Interval>, v: Interval): (r: seq<Interval>)
    requires Sorted(s)
    ensures Sorted(r) && |r| == |s| + 1 && (forall x :: x in r <==> x in s || x == v)
  {
    if s == [] || v.offset < s[0].offset then [v] + s
    else
      var rest := Insert(s[1..], v);
      assert forall x :: x in rest ==> s[0].offset <= x.offset;
      [s[0]] + rest
  }

  /** Stable: the last element is inserted after its equals. */
  function SortByOffset(s: seq<Interval>): (r: seq<Interval>)
    ensures Sorted(r) && |r| == |s| && (forall x :: x in r <==> x in s)
  {
    if s == [] then [] else
      assert forall x :: x in s <==> x == s[|s| - 1] || x in s[..|s| - 1];
      Insert(SortByOffset(s[..|s| - 1]), s[|s| - 1])
  }

  lemma SameElements(a: seq<Interval>, b: seq<Interval>, line: nat)
    requires forall x :: x in a <==> x in b
    ensures Selects(a, line) <==> Selects(b, line)
  {
    if Selects(a, line) {
      var k :| 0 <= k < |a| && Holds(a[k], line);
      assert a[k] in b;
    }
    if Selects(b, line) {
      var k :| 0 <= k < |b| && Holds(b[k], line);
      assert b[k] in a;
    }
  }

  method MergeOne(merged: seq<Interval>, current: Interval) returns (merged': seq<Interval>)
    requires Canonical(merged) && current.limit > 0 && (merged != [] ==> merged[|merged| - 1].offset <= current.offset)
    ensures Canonical(merged') && merged' != [] && merged'[|merged'| - 1].offset <= current.offset
      && |merged'| <= |merged| + 1
    ensures forall line: nat :: Selects(merged', line) <==> Selects(merged, line) || Holds(current, line)
  {
    if merged != [] && current.offset <= merged[|merged| - 1].offset + merged[|merged| - 1].limit {
      var last, front := merged[|merged| - 1], merged[..|merged| - 1];
      var end := if last.offset + last.limit > current.offset + current.limit then last.offset + last.limit
        else current.offset + current.limit;
      var longer := Interval(last.offset, end - last.offset);
      assert merged == front + [last];
      merged' := front + [longer];
      forall line: nat ensures Selects(merged', line) <==> Selects(merged, line) || Holds(current, line) {
        SelectsAppend(front, last, line);
        SelectsAppend(front, longer, line);
      }
    } else {
      merged' := merged + [current];
      forall line: nat ensures Selects(merged', line) <==> Selects(merged, line) || Holds(current, line) {
        SelectsAppend(merged, current, line);
      }
    }
  }

  /** The same lines in canonical form. */
  method MergeIntervals(intervals: seq<Interval>) returns (merged: seq<Interval>)
    requires NonEmpty(intervals)
    ensures Canonical(merged) && |merged| <= |intervals| && (intervals != [] ==> merged != [])
    ensures forall line: nat :: Selects(merged, line) <==> Selects(intervals, line)
  {
    var sorted := SortByOffset(intervals);
    assert NonEmpty(sorted) by {
      forall k | 0 <= k < |sorted| ensures sorted[k].limit > 0 { assert sorted[k] in intervals; }
    }
    merged := [];
    var k := 0;
    while k < |sorted|
      invariant k <= |sorted| && Canonical(merged) && |merged| <= k && (k > 0 ==> merged != [])
      invariant k < |sorted| && merged != [] ==> merged[|merged| - 1].offset <= sorted[k].offset
      invariant forall line: nat :: Selects(merged, line) <==> Selects(sorted[..k], line)
    {
      assert sorted[..k + 1] == sorted[..k] + [sorted[k]];
      forall line: nat ensures Selects(sorted[..k + 1], line) <==>
        Selects(sorted[..k], line) || Holds(sorted[k], line) {
        SelectsAppend(sorted[..k], sorted[k], line);
      }
      merged := MergeOne(merged, sorted[k]);
      k := k + 1;
    }
    assert sorted[..k] == sorted;
    forall line: nat ensures Selects(sorted, line) <==> Selects(intervals, line) {
      SameElements(sorted, intervals, line);
    }
  }

  lemma FirstLine(s: seq<Interval>, line: nat)
    requires Canonical(s) && s != []
    ensures Selects(s, line) ==> s[0].offset <= line
    ensures line <= s[0].offset + s[0].limit ==> (Selects(s, line) <==> s[0].offset <= line < s[0].offset + s[0].limit)
    ensures Selects(s[1..], line) <==> Selects(s, line) && s[0].offset + s[0].limit <= line
  {
    if s[0].offset <= line < s[0].offset + s[0].limit {
      assert Holds(s[0], line);
    }
    if Selects(s[1..], line) {
      var k :| 0 <= k < |s| - 1 && Holds(s[1..][k], line);
      assert Holds(s[k + 1], line);
    }
    if Selects(s, line) && s[0].offset + s[0].limit <= line {
      var k :| 0 <= k < |s| && Holds(s[k], line);
      assert k > 0 && Holds(s[1..][k - 1], line);
    }
  }

  /** Canonical form is determined by the lines alone, so merging has exactly one possible result. */
  lemma {:induction false} CanonicalIsUnique(a: seq<Interval>, b: seq<Interval>)
    requires Canonical(a) && Canonical(b) && forall line: nat :: Selects(a, line) <==> Selects(b, line)
    ensures a == b
    decreases |a|
  {
    if a == [] || b == [] {
      if a != [] { FirstLine(a, a[0].offset); }
      if b != [] { FirstLine(b, b[0].offset); }
    } else {
      SameFirst(a, b);
      forall line: nat ensures Selects(a[1..], line) <==> Selects(b[1..], line) {
        FirstLine(a, line);
        FirstLine(b, line);
      }
      CanonicalIsUnique(a[1..], b[1..]);
      assert a == [a[0]] + a[1..] && b == [b[0]] + b[1..];
    }
  }

  lemma SameFirst(a: seq<Interval>, b: seq<Interval>)
    requires Canonical(a) && Canonical(b) && a != [] && b != []
    requires forall line: nat :: Selects(a, line) <==> Selects(b, line)
    ensures a[0] == b[0]
  {
    FirstLine(a, a[0].offset);
    FirstLine(b, b[0].offset);
    FirstLine(a, b[0].offset);
    FirstLine(b, a[0].offset);
    var endA, endB := a[0].offset + a[0].limit, b[0].offset + b[0].limit;
    FirstLine(a, endA);
    FirstLine(b, endA);
    FirstLine(a, endB);
    FirstLine(b, endB);
  }

  // Context.

  function Grown(v: Interval): Interval {
    Interval(if v.offset > 0 then v.offset - 1 else 0, v.limit + (if v.offset > 0 then 1 else 0) + 1)
  }

  /** One line more on either side of what is selected; the first line has none before it. */
  ghost predicate Near(s: seq<Interval>, line: nat) {
    Selects(s, line) || Selects(s, line + 1) || (line > 0 && Selects(s, line - 1))
  }

  method ExpandRanges(ranges: seq<Interval>) returns (expanded: seq<Interval>)
    requires NonEmpty(ranges)
    ensures Canonical(expanded)
    ensures forall line: nat :: Selects(expanded, line) <==> Near(ranges, line)
  {
    var grown := seq(|ranges|, k requires 0 <= k < |ranges| => Grown(ranges[k]));
    expanded := MergeIntervals(grown);
    forall line: nat ensures Selects(grown, line) <==> Near(ranges, line) {
      GrownSelects(ranges, grown, line);
    }
  }

  lemma GrownSelects(ranges: seq<Interval>, grown: seq<Interval>, line: nat)
    requires NonEmpty(ranges) && |grown| == |ranges| && forall k :: 0 <= k < |ranges| ==> grown[k] == Grown(ranges[k])
    ensures Selects(grown, line) <==> Near(ranges, line)
  {
    if Selects(grown, line) {
      var k :| 0 <= k < |grown| && Holds(grown[k], line);
      assert Holds(ranges[k], line) || Holds(ranges[k], line + 1) || (line > 0 && Holds(ranges[k], line - 1));
    }
    if Selects(ranges, line) {
      var k :| 0 <= k < |ranges| && Holds(ranges[k], line);
      assert Holds(grown[k], line);
    }
    if Selects(ranges, line + 1) {
      var k :| 0 <= k < |ranges| && Holds(ranges[k], line + 1);
      assert Holds(grown[k], line);
    }
    if line > 0 && Selects(ranges, line - 1) {
      var k :| 0 <= k < |ranges| && Holds(ranges[k], line - 1);
      assert Holds(grown[k], line);
    }
  }
}
