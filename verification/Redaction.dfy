/**
 What redaction means: of a range of a stream's text, every character outside protected values stays, and
 every run of protected characters becomes one marker, or nothing when it is shorter than the marker.
 */
module Redaction {
  import opened Text
  import opened OutputBound
  import opened ProtectedValues

  /** The length of the run of hidden positions at the front. */
  function Run(hidden: seq<bool>): (n: nat)
    ensures n <= |hidden| && (forall k :: 0 <= k < n ==> hidden[k]) && (n < |hidden| ==> !hidden[n])
  {
    if hidden == [] || !hidden[0] then 0 else 1 + Run(hidden[1..])
  }

  function Mark(length: int): Text {
    if length >= |MARKER| then MARKER else []
  }

  /** The characters that are not hidden, in order, with a marker for each long enough run of those that are. */
  function Redact(v: Text, hidden: seq<bool>): Text
    requires |v| == |hidden|
    decreases |v|
  {
    if v == [] then []
    else if !hidden[0] then [v[0]] + Redact(v[1..], hidden[1..])
    else var n := Run(hidden); Mark(n) + Redact(v[n..], hidden[n..])
  }

  /** Which positions of a stream belong to a protected value. */
  ghost function Mask(stream: Text, members: seq<Text>): (mask: seq<bool>)
    ensures |mask| == |stream| && forall i :: 0 <= i < |stream| ==> mask[i] == Covered(stream, members, i)
  {
    seq(|stream|, i requires 0 <= i < |stream| => Covered(stream, members, i))
  }

  /** The redaction of part of a stream: hidden is what belongs to a protected value anywhere in the stream. */
  ghost function Redacted(stream: Text, members: seq<Text>, from: nat, to: nat): Text
    requires from <= to <= |stream|
  {
    Redact(stream[from..to], Mask(stream, members)[from..to])
  }

  lemma {:induction false} RedactVerbatim(v: Text, hidden: seq<bool>, n: nat)
    requires n <= |v| == |hidden| && forall k :: 0 <= k < n ==> !hidden[k]
    ensures Redact(v, hidden) == v[..n] + Redact(v[n..], hidden[n..])
    decreases n
  {
    if n > 0 {
      RedactVerbatim(v[1..], hidden[1..], n - 1);
      assert v[1..][n - 1..] == v[n..] && hidden[1..][n - 1..] == hidden[n..];
      assert v[..n] == [v[0]] + v[1..][..n - 1];
    } else {
      assert v[0..] == v && hidden[0..] == hidden;
    }
  }

  lemma RedactRun(v: Text, hidden: seq<bool>, n: nat)
    requires 0 < n <= |v| == |hidden| && (forall k :: 0 <= k < n ==> hidden[k]) && (n < |v| ==> !hidden[n])
    ensures Redact(v, hidden) == Mark(n) + Redact(v[n..], hidden[n..])
  {
    assert Run(hidden) == n;
  }

  // Replacing intervals.

  /** Non-empty intervals in order from `cursor` on; neighbours may touch. */
  ghost predicate InOrder(intervals: seq<Interval>, cursor: nat) {
    && (forall k :: 0 <= k < |intervals| ==> cursor <= intervals[k].start < intervals[k].end)
    && (forall j, k :: 0 <= j < k < |intervals| ==> intervals[j].end <= intervals[k].start)
  }

  /** The text from `cursor` to `end` with each interval, clipped to it, replaced. */
  ghost function Replaced(value: Text, intervals: seq<Interval>, cursor: nat, end: nat): Text
    requires InOrder(intervals, cursor) && cursor <= end <= |value|
    decreases |intervals|
  {
    if intervals == [] || intervals[0].start >= end then value[cursor..end]
    else if intervals[0].end >= end then value[cursor..intervals[0].start] + Mark(end - intervals[0].start)
    else
      value[cursor..intervals[0].start] + Mark(intervals[0].end - intervals[0].start)
        + Replaced(value, intervals[1..], intervals[0].end, end)
  }

  /** What is still to come; nothing, once the end is reached. */
  ghost function Rest(value: Text, intervals: seq<Interval>, cursor: nat, end: nat): Text
    requires cursor <= end <= |value| && (cursor < end ==> InOrder(intervals, cursor))
  {
    if cursor == end then [] else Replaced(value, intervals, cursor, end)
  }

  lemma ReplaceStep(value: Text, intervals: seq<Interval>, cursor: nat, end: nat)
    requires cursor < end <= |value| && InOrder(intervals, cursor) && intervals != [] && intervals[0].start < end
    ensures var v, clipped := intervals[0], Min(intervals[0].end, end);
            && (clipped < end ==> InOrder(intervals[1..], clipped))
            && Rest(value, intervals, cursor, end)
               == value[cursor..v.start] + Mark(clipped - v.start) + Rest(value, intervals[1..], clipped, end)
  {
  }

  method ReplaceIntervals(value: Text, intervals: seq<Interval>, end: nat) returns (output: Text)
    requires InOrder(intervals, 0) && end <= |value|
    ensures output == Rest(value, intervals, 0, end)
  {
    hide Rest, Replaced;
    output := [];
    var cursor: nat, k: nat := 0, 0;
    assert intervals[0..] == intervals;
    while k < |intervals| && intervals[k].start < end
      invariant k <= |intervals| && cursor <= end && (cursor < end ==> InOrder(intervals[k..], cursor))
      invariant k < |intervals| ==> cursor <= intervals[k].start
      invariant Rest(value, intervals, 0, end) == output + Rest(value, intervals[k..], cursor, end)
    {
      var v := intervals[k];
      var clipped := Min(v.end, end);
      ReplaceStep(value, intervals[k..], cursor, end);
      assert intervals[k..][1..] == intervals[k + 1..];
      Assoc(output, value[cursor..v.start], Mark(clipped - v.start), Rest(value, intervals[k + 1..], clipped, end));
      output := output + value[cursor..v.start] + Mark(clipped - v.start);
      cursor, k := clipped, k + 1;
    }
    ReplaceNothing(value, intervals[k..], cursor, end);
    output := output + value[cursor..end];
  }

  lemma Assoc(a: Text, b: Text, c: Text, d: Text)
    ensures a + (b + c + d) == (a + b + c) + d && a + (b + (c + d)) == (a + b + c) + d
  {
  }

  /** One interval further in the redaction: what stands before it, then the run it holds. */
  lemma RedactInterval(v: Text, hidden: seq<bool>, start: nat, end: nat)
    requires start < end <= |v| == |hidden|
    requires forall k :: 0 <= k < start ==> !hidden[k]
    requires (forall k :: start <= k < end ==> hidden[k]) && (end < |v| ==> !hidden[end])
    ensures Redact(v, hidden) == v[..start] + Mark(end - start) + Redact(v[end..], hidden[end..])
  {
    hide Redact, Mark, Run;
    RedactVerbatim(v, hidden, start);
    var w, h := v[start..], hidden[start..];
    assert forall k :: 0 <= k < end - start ==> h[k] == hidden[start + k];
    RedactRun(w, h, end - start);
    assert w[end - start..] == v[end..] && h[end - start..] == hidden[end..];
    hide *;
    Assoc([], v[..start], Mark(end - start), Redact(v[end..], hidden[end..]));
  }

  /** Which of the positions are held by the first of separated intervals, and which by the others. */
  lemma FirstHolds(intervals: seq<Interval>, i: nat)
    requires Separated(intervals) && intervals != []
    ensures i < intervals[0].start || i == intervals[0].end ==> !InAny(intervals, i)
    ensures Holds(intervals[0], i) ==> InAny(intervals, i)
    ensures intervals[0].end <= i ==> (InAny(intervals, i) <==> InAny(intervals[1..], i))
  {
    TailHolds(intervals, i);
  }

  /** Replacing separated intervals redacts exactly the positions they hold. */
  lemma {:induction false} ReplacedIsRedaction(value: Text, hidden: seq<bool>, intervals: seq<Interval>, cursor: nat,
      end: nat)
    requires Separated(intervals) && cursor <= end <= |value| == |hidden|
      && (cursor < end ==> InOrder(intervals, cursor))
    requires forall i: nat :: cursor <= i < end ==> (hidden[i] <==> InAny(intervals, i))
    ensures Rest(value, intervals, cursor, end) == Redact(value[cursor..end], hidden[cursor..end])
    decreases |intervals|
  {
    hide Redact, Rest, Replaced, InAny;
    var v, h := value[cursor..end], hidden[cursor..end];
    if cursor == end || intervals == [] || intervals[0].start >= end {
      NothingHeld(hidden, intervals, cursor, end);
      RedactAll(v, h);
      ReplaceNothing(value, intervals, cursor, end);
    } else {
      var first := intervals[0];
      var clipped := Min(first.end, end);
      forall i: nat | cursor <= i < end
        ensures (i < first.start || i == first.end ==> !hidden[i]) && (Holds(first, i) ==> hidden[i])
        ensures first.end <= i ==> (hidden[i] <==> InAny(intervals[1..], i))
      {
        FirstHolds(intervals, i);
      }
      FirstInterval(value, hidden, first, cursor, end);
      ReplaceStep(value, intervals, cursor, end);
      ReplacedIsRedaction(value, hidden, intervals[1..], clipped, end);
    }
  }

  lemma FirstInterval(value: Text, hidden: seq<bool>, first: Interval, cursor: nat, end: nat)
    requires cursor <= first.start < end <= |value| == |hidden| && first.start < first.end
    requires forall i: nat :: cursor <= i < end ==>
      (i < first.start || i == first.end ==> !hidden[i]) && (Holds(first, i) ==> hidden[i])
    ensures var clipped := Min(first.end, end);
            Redact(value[cursor..end], hidden[cursor..end])
            == value[cursor..first.start] + Mark(clipped - first.start)
              + Redact(value[clipped..end], hidden[clipped..end])
  {
    hide Redact;
    var v, h, clipped := value[cursor..end], hidden[cursor..end], Min(first.end, end);
    assert forall k :: 0 <= k < |h| ==> h[k] == hidden[cursor + k];
    RedactInterval(v, h, first.start - cursor, clipped - cursor);
    assert v[clipped - cursor..] == value[clipped..end] && h[clipped - cursor..] == hidden[clipped..end];
    assert v[..first.start - cursor] == value[cursor..first.start];
  }

  lemma NothingHeld(hidden: seq<bool>, intervals: seq<Interval>, cursor: nat, end: nat)
    requires Separated(intervals) && cursor <= end <= |hidden|
      && (cursor == end || intervals == [] || intervals[0].start >= end)
    requires forall i: nat :: cursor <= i < end ==> (hidden[i] <==> InAny(intervals, i))
    ensures forall k :: 0 <= k < end - cursor ==> !hidden[cursor..end][k]
  {
  }

  lemma RedactAll(v: Text, hidden: seq<bool>)
    requires |v| == |hidden| && forall k :: 0 <= k < |v| ==> !hidden[k]
    ensures Redact(v, hidden) == v
  {
    RedactVerbatim(v, hidden, |v|);
    assert v[|v|..] == [] && v[..|v|] == v;
  }

  lemma ReplaceNothing(value: Text, intervals: seq<Interval>, cursor: nat, end: nat)
    requires cursor <= end <= |value| && (cursor < end ==> InOrder(intervals, cursor))
    requires cursor == end || intervals == [] || intervals[0].start >= end
    ensures Rest(value, intervals, cursor, end) == value[cursor..end]
  {
  }

  lemma TailHolds(intervals: seq<Interval>, i: nat)
    requires intervals != []
    ensures InAny(intervals, i) <==> Holds(intervals[0], i) || InAny(intervals[1..], i)
  {
    if InAny(intervals[1..], i) {
      var k :| 0 <= k < |intervals| - 1 && Holds(intervals[1..][k], i);
      assert Holds(intervals[k + 1], i);
    }
    if InAny(intervals, i) {
      var k :| 0 <= k < |intervals| && Holds(intervals[k], i);
      assert k > 0 ==> Holds(intervals[1..][k - 1], i);
    }
  }
}
