/** The redaction routine for a captured stream: trim a cut capture, cut it at the bound, replace what is protected. */
module Sanitize {
  import opened Text
  import opened OutputBound
  import opened ProtectedValues
  import opened Redaction

  /** How a capture came about: whether llame cut it off, and where output is missing from its middle. */
  datatype StreamCapture = StreamCapture(endedByLlame: bool, gapAt: Option<int>)

  datatype KeptCapture = KeptCapture(text: Text, intervals: seq<Interval>, dropped: bool)

  // Members cut by the end of a part.

  ghost predicate ProperPrefix(c: Text, members: seq<Text>) {
    exists k :: 0 <= k < |members| && |members[k]| > |c| && members[k][..|c|] == c
  }

  ghost predicate ProperSuffix(c: Text, members: seq<Text>) {
    exists k :: 0 <= k < |members| && |members[k]| > |c| && members[k][|members[k]| - |c|..] == c
  }

  /** Of the suffixes with which some member could begin and go on, the longest has length `drop`. */
  ghost predicate TrailingDrop(v: Text, members: seq<Text>, drop: nat) {
    && drop <= |v| && (drop > 0 ==> ProperPrefix(v[|v| - drop..], members))
    && (forall p :: 0 <= p < |v| - drop ==> !ProperPrefix(v[p..], members))
  }

  /** Of the prefixes with which some member that began earlier could end, the longest has length `drop`. */
  ghost predicate LeadingDrop(v: Text, members: seq<Text>, drop: nat) {
    && drop <= |v| && (drop > 0 ==> ProperSuffix(v[..drop], members))
    && (forall n :: drop < n <= |v| ==> !ProperSuffix(v[..n], members))
  }

  /** An occurrence inside the first part of a stream is one in the stream. */
  lemma OccursLater(v: Text, rest: Text, member: Text, p: nat)
    ensures p + |member| <= |v| ==> (Occurs(v + rest, member, p) <==> Occurs(v, member, p))
    ensures Occurs(rest, member, p) <==> Occurs(v + rest, member, |v| + p)
  {
    if p + |member| <= |v| {
      assert (v + rest)[p..p + |member|] == v[p..p + |member|];
    }
    if p + |member| <= |rest| {
      assert (v + rest)[|v| + p..|v| + p + |member|] == rest[p..p + |member|];
    }
  }

  /** An occurrence that runs past the end of `v` starts in what is dropped. */
  lemma CrossingIsDropped(v: Text, rest: Text, members: seq<Text>, drop: nat, k: nat, p: nat)
    requires TrailingDrop(v, members, drop) && k < |members| && Occurs(v + rest, members[k], p)
      && p < |v| < p + |members[k]|
    ensures |v| - drop <= p
  {
    var m := members[k];
    assert (v + rest)[p..p + |m|][..|v| - p] == v[p..];
    assert ProperPrefix(v[p..], members);
  }

  /** Before what is dropped, whatever comes later in the stream changes nothing. */
  lemma KeptBefore(v: Text, rest: Text, members: seq<Text>, drop: nat, i: nat)
    requires TrailingDrop(v, members, drop) && i < |v| - drop
    ensures Covered(v + rest, members, i) <==> Covered(v, members, i)
  {
    if Covered(v + rest, members, i) {
      var k :| 0 <= k < |members| && CoveredBy(v + rest, members[k], i);
      var p: nat :| p <= i < p + |members[k]| && Occurs(v + rest, members[k], p);
      if p + |members[k]| > |v| {
        CrossingIsDropped(v, rest, members, drop, k, p);
      }
      OccursLater(v, rest, members[k], p);
      assert CoveredBy(v, members[k], i);
    }
    if Covered(v, members, i) {
      var k :| 0 <= k < |members| && CoveredBy(v, members[k], i);
      var p: nat :| p <= i < p + |members[k]| && Occurs(v, members[k], p);
      OccursLater(v, rest, members[k], p);
      assert CoveredBy(v + rest, members[k], i);
    }
  }

  /** An occurrence that starts before `t` and ends in it ends in what is dropped. */
  lemma EnteringIsDropped(before: Text, t: Text, members: seq<Text>, drop: nat, k: nat, p: nat)
    requires LeadingDrop(t, members, drop) && k < |members| && Occurs(before + t, members[k], p)
      && p < |before| < p + |members[k]|
    ensures p + |members[k]| <= |before| + drop
  {
    var m := members[k];
    var n := p + |m| - |before|;
    assert (before + t)[p..p + |m|][|m| - n..] == t[..n];
    assert ProperSuffix(t[..n], members);
  }

  /** After what is dropped, whatever came earlier in the stream changes nothing. */
  lemma KeptAfter(before: Text, t: Text, members: seq<Text>, drop: nat, i: nat)
    requires LeadingDrop(t, members, drop) && drop <= i < |t|
    ensures Covered(before + t, members, |before| + i) <==> Covered(t, members, i)
  {
    if Covered(before + t, members, |before| + i) {
      var k :| 0 <= k < |members| && CoveredBy(before + t, members[k], |before| + i);
      var p: nat :| p <= |before| + i < p + |members[k]| && Occurs(before + t, members[k], p);
      if p < |before| {
        EnteringIsDropped(before, t, members, drop, k, p);
      }
      OccursLater(before, t, members[k], p - |before|);
      assert CoveredBy(t, members[k], i);
    }
    if Covered(t, members, i) {
      var k :| 0 <= k < |members| && CoveredBy(t, members[k], i);
      var p: nat :| p <= i < p + |members[k]| && Occurs(t, members[k], p);
      OccursLater(before, t, members[k], p);
      assert CoveredBy(before + t, members[k], |before| + i);
    }
  }

  /** Redacting a kept prefix needs no more of the stream than was captured. */
  lemma RedactedBefore(v: Text, rest: Text, members: seq<Text>, drop: nat, to: nat)
    requires TrailingDrop(v, members, drop) && to <= |v| - drop
    ensures Redacted(v + rest, members, 0, to) == Redacted(v, members, 0, to)
  {
    forall i | 0 <= i < to ensures Mask(v + rest, members)[i] == Mask(v, members)[i] {
      KeptBefore(v, rest, members, drop, i);
    }
    assert Mask(v + rest, members)[0..to] == Mask(v, members)[0..to];
    assert (v + rest)[0..to] == v[0..to];
  }

  lemma RedactedAfter(before: Text, t: Text, members: seq<Text>, drop: nat, to: nat)
    requires LeadingDrop(t, members, drop) && drop <= to <= |t|
    ensures Redacted(before + t, members, |before| + drop, |before| + to) == Redacted(t, members, drop, to)
  {
    forall i | 0 <= i < to - drop
      ensures Mask(before + t, members)[|before| + drop..|before| + to][i] == Mask(t, members)[drop..to][i]
    {
      KeptAfter(before, t, members, drop, drop + i);
    }
    assert Mask(before + t, members)[|before| + drop..|before| + to] == Mask(t, members)[drop..to];
    assert (before + t)[|before| + drop..|before| + to] == t[drop..to];
  }

  // The trimming loops.

  method LongestMemberLength(members: seq<Text>) returns (longest: nat)
    ensures forall k :: 0 <= k < |members| ==> |members[k]| <= longest
    ensures longest == 0 || exists k :: 0 <= k < |members| && |members[k]| == longest
  {
    longest := 0;
    for k := 0 to |members|
      invariant forall j :: 0 <= j < k ==> |members[j]| <= longest
      invariant longest == 0 || exists j :: 0 <= j < k && |members[j]| == longest
    {
      if |members[k]| > longest { longest := |members[k]|; }
    }
  }

  method IsProperMemberPrefix(c: Text, members: seq<Text>) returns (found: bool)
    ensures found <==> ProperPrefix(c, members)
  {
    for k := 0 to |members|
      invariant forall j :: 0 <= j < k ==> !(|members[j]| > |c| && members[j][..|c|] == c)
    {
      if |members[k]| > |c| && members[k][..|c|] == c { return true; }
    }
    return false;
  }

  method IsProperMemberSuffix(c: Text, members: seq<Text>) returns (found: bool)
    ensures found <==> ProperSuffix(c, members)
  {
    for k := 0 to |members|
      invariant forall j :: 0 <= j < k ==> !(|members[j]| > |c| && members[j][|members[j]| - |c|..] == c)
    {
      if |members[k]| > |c| && members[k][|members[k]| - |c|..] == c { return true; }
    }
    return false;
  }

  method TrailingMemberPrefixLength(v: Text, members: seq<Text>, longest: nat) returns (drop: nat)
    requires forall k :: 0 <= k < |members| ==> |members[k]| <= longest
    ensures TrailingDrop(v, members, drop)
  {
    var length := if longest - 1 < |v| then longest - 1 else |v|;
    while length > 0
      invariant length <= |v|
      invariant forall p :: 0 <= p < |v| && p < |v| - length ==> !ProperPrefix(v[p..], members)
    {
      var found := IsProperMemberPrefix(v[|v| - length..], members);
      if found { return length; }
      length := length - 1;
    }
    return 0;
  }

  method LeadingMemberSuffixLength(v: Text, members: seq<Text>, longest: nat) returns (drop: nat)
    requires forall k :: 0 <= k < |members| ==> |members[k]| <= longest
    ensures LeadingDrop(v, members, drop)
  {
    var length := if longest - 1 < |v| then longest - 1 else |v|;
    while length > 0
      invariant length <= |v|
      invariant forall n :: 0 < n <= |v| && length < n ==> !ProperSuffix(v[..n], members)
    {
      var found := IsProperMemberSuffix(v[..length], members);
      if found { return length; }
      length := length - 1;
    }
    return 0;
  }

  // Intervals of the kept parts.

  method ClipIntervals(intervals: seq<Interval>, end: nat) returns (clipped: seq<Interval>)
    requires Separated(intervals)
    ensures Separated(clipped) && Within(clipped, end)
    ensures forall i: nat :: InAny(clipped, i) <==> InAny(intervals, i) && i < end
  {
    clipped := [];
    var k := 0;
    while k < |intervals| && intervals[k].start < end
      invariant k <= |intervals| && Separated(clipped) && Within(clipped, end)
      invariant k < |intervals| && clipped != [] ==> clipped[|clipped| - 1].end < intervals[k].start
      invariant forall i: nat :: InAny(clipped, i) <==> InAny(intervals[..k], i) && i < end
    {
      var v := intervals[k];
      var c := Interval(v.start, Min(v.end, end));
      assert intervals[..k + 1] == intervals[..k] + [v];
      forall i: nat ensures InAny(clipped + [c], i) <==> InAny(intervals[..k + 1], i) && i < end {
        InAnyAppend(clipped, c, i);
        InAnyAppend(intervals[..k], v, i);
      }
      clipped, k := clipped + [c], k + 1;
    }
    forall i: nat ensures i < end ==> (InAny(intervals[..k], i) <==> InAny(intervals, i)) {
      NoneLater(intervals, k, end, i);
    }
  }

  lemma NoneLater(intervals: seq<Interval>, k: nat, end: nat, i: nat)
    requires Separated(intervals) && k <= |intervals| && (k < |intervals| ==> end <= intervals[k].start)
    ensures i < end ==> (InAny(intervals[..k], i) <==> InAny(intervals, i))
  {
    if InAny(intervals, i) && i < end {
      var j :| 0 <= j < |intervals| && Holds(intervals[j], i);
      assert Holds(intervals[..k][j], i);
    }
    if InAny(intervals[..k], i) {
      var j :| 0 <= j < k && Holds(intervals[..k][j], i);
      assert Holds(intervals[j], i);
    }
  }

  /** An interval moved from the tail to where it stands in the output. */
  function Moved(v: Interval, tailDrop: nat, headLength: nat): Interval
    requires v.end > tailDrop
  {
    Interval(headLength + if v.start > tailDrop then v.start - tailDrop else 0, headLength + v.end - tailDrop)
  }

  lemma MovedHolds(done: seq<Interval>, mapped: seq<Interval>, v: Interval, tailDrop: nat, headLength: nat, i: nat)
    requires tailDrop <= i && (InAny(done, i) <==> InAny(mapped, headLength + i - tailDrop))
    ensures v.end > tailDrop ==>
      (InAny(done + [v], i) <==> InAny(mapped + [Moved(v, tailDrop, headLength)], headLength + i - tailDrop))
    ensures v.end <= tailDrop ==> (InAny(done + [v], i) <==> InAny(mapped, headLength + i - tailDrop))
  {
    InAnyAppend(done, v, i);
    if v.end > tailDrop {
      InAnyAppend(mapped, Moved(v, tailDrop, headLength), headLength + i - tailDrop);
    }
  }

  /** The tail's intervals in output coordinates, without what was dropped. */
  method TailIntervals(intervals: seq<Interval>, tailDrop: nat, headLength: nat) returns (mapped: seq<Interval>)
    requires Separated(intervals)
    ensures Separated(mapped) && forall k :: 0 <= k < |mapped| ==> headLength <= mapped[k].start
    ensures forall i: nat :: tailDrop <= i ==> (InAny(intervals, i) <==> InAny(mapped, headLength + i - tailDrop))
  {
    hide InAny;
    mapped := [];
    var k := 0;
    assert forall i: nat :: !InAny(intervals[..0], i) && !InAny(mapped, i) by {
      NoIntervals(intervals[..0]);
      NoIntervals(mapped);
    }
    while k < |intervals|
      invariant k <= |intervals| && Separated(mapped)
      invariant forall j :: 0 <= j < |mapped| ==> headLength <= mapped[j].start
      invariant k < |intervals| && mapped != [] ==>
                  tailDrop < intervals[k].start && mapped[|mapped| - 1].end < headLength + intervals[k].start - tailDrop
      invariant forall i: nat :: tailDrop <= i ==>
        (InAny(intervals[..k], i) <==> InAny(mapped, headLength + i - tailDrop))
    {
      var v := intervals[k];
      ghost var done, before := intervals[..k], mapped;
      assert intervals[..k + 1] == done + [v];
      if v.end > tailDrop { mapped := mapped + [Moved(v, tailDrop, headLength)]; }
      ghost var upTo := done + [v];
      forall i: nat | tailDrop <= i ensures InAny(upTo, i) <==> InAny(mapped, headLength + i - tailDrop) {
        MovedHolds(done, before, v, tailDrop, headLength, i);
      }
      k := k + 1;
    }
    assert intervals[..k] == intervals;
  }

  lemma NoIntervals(intervals: seq<Interval>)
    requires intervals == []
    ensures forall i: nat :: !InAny(intervals, i)
  {
  }

  // A gap between two parts.

  ghost predicate TwoParts(value: Text, a: seq<Interval>, b: seq<Interval>, cursor: nat, h: nat, end: nat) {
    && cursor <= h <= |value| && cursor <= end <= |value|
    && InOrder(a, cursor) && Within(a, h) && InOrder(b, h) && InOrder(a + b, cursor)
  }

  /** Intervals of two adjacent parts are replaced part by part. */
  lemma {:induction false} PartByPart(value: Text, a: seq<Interval>, b: seq<Interval>, cursor: nat, h: nat, end: nat)
    requires TwoParts(value, a, b, cursor, h, end)
    ensures Rest(value, a + b, cursor, end) == Rest(value, a, cursor, Min(h, end)) + if end > h
      then Rest(value, b, h, end) else []
    decreases |a|
  {
    hide Rest, Replaced;
    RestAtEnd(value, a, end);
    RestAtEnd(value, a + b, end);
    if cursor == end {
    } else if a == [] {
      SecondPart(value, b, cursor, h, end);
      assert a + b == b;
      ReplaceNothing(value, a, cursor, Min(h, end));
    } else if a[0].start >= end {
      ReplaceNothing(value, a, cursor, end);
      ReplaceNothing(value, a + b, cursor, end);
    } else {
      var clipped := Min(a[0].end, end);
      assert (a + b)[1..] == a[1..] + b;
      ReplaceStep(value, a + b, cursor, end);
      ReplaceStep(value, a, cursor, Min(h, end));
      PartByPart(value, a[1..], b, clipped, h, end);
      hide Mark;
      Assoc(value[cursor..a[0].start], Mark(clipped - a[0].start), Rest(value, a[1..], clipped, Min(h, end)),
            if end > h then Rest(value, b, h, end) else []);
    }
  }

  lemma RestAtEnd(value: Text, intervals: seq<Interval>, end: nat)
    requires end <= |value|
    ensures Rest(value, intervals, end, end) == []
  {
  }

  lemma SecondPart(value: Text, b: seq<Interval>, cursor: nat, h: nat, end: nat)
    requires cursor <= h <= |value| && cursor <= end <= |value| && InOrder(b, h)
    ensures Rest(value, b, cursor, end) == value[cursor..Min(h, end)] + if end > h then Rest(value, b, h, end) else []
  {
    hide Rest, Replaced;
    if end <= h || b == [] || b[0].start >= end {
      ReplaceNothing(value, b, cursor, end);
      if end > h {
        ReplaceNothing(value, b, h, end);
        assert value[cursor..end] == value[cursor..h] + value[h..end];
      }
    } else {
      FirstOfSecond(value, b, cursor, h, end);
    }
  }

  lemma FirstOfSecond(value: Text, b: seq<Interval>, cursor: nat, h: nat, end: nat)
    requires cursor <= h < end <= |value| && InOrder(b, h) && b != [] && b[0].start < end
    ensures Rest(value, b, cursor, end) == value[cursor..h] + Rest(value, b, h, end)
  {
    hide Rest, Replaced, Mark;
    ReplaceStep(value, b, cursor, end);
    ReplaceStep(value, b, h, end);
    hide InOrder;
    var clipped := Min(b[0].end, end);
    assert value[cursor..b[0].start] == value[cursor..h] + value[h..b[0].start];
    Assoc(value[cursor..h], value[h..b[0].start], Mark(clipped - b[0].start), Rest(value, b[1..], clipped, end));
  }

  // The bound.

  lemma {:induction false} SegmentBytes(seg: Text)
    requires seg != []
    ensures ByteLength(seg) >= |seg| + (if Low(seg[0]) then 2 else 0) + (if High(seg[|seg| - 1]) then 2 else 0)
    decreases |seg|
  {
    if |seg| > 1 {
      if Joins(seg[..1], seg[1..]) {
        if |seg| > 2 {
          SegmentBytes(seg[2..]);
        }
      } else {
        SegmentBytes(seg[1..]);
      }
    }
  }

  /** A replaced segment never measures more than what stood there, even when its removal joins surrogates. */
  lemma SegmentShrinks(a: Text, seg: Text, b: Text, kind: Kind)
    requires seg != []
    ensures Measure(a + Mark(|seg|) + b, kind) <= Measure(a + seg + b, kind)
  {
    hide ByteLength;
    BytesJoin(a + seg, b);
    BytesJoin(a, seg);
    SegmentBytes(seg);
    BytesJoin(a, b);
    AsciiBytes(MARKER);
    BytesJoin(a, MARKER);
    BytesJoin(a + MARKER, b);
    assert |seg| < |MARKER| ==> a + Mark(|seg|) + b == a + b;
  }

  lemma {:induction false} AsciiBytes(t: Text)
    requires forall k :: 0 <= k < |t| ==> t[k] <= 0x7F
    ensures ByteLength(t) == |t|
    decreases |t|
  {
    if t != [] {
      AsciiBytes(t[1..]);
    }
  }

  /** Whatever comes before, replacing measures no more than the text it replaces. */
  lemma {:induction false} RestMeasures(prefix: Text, value: Text, intervals: seq<Interval>, cursor: nat, end: nat,
      kind: Kind)
    requires cursor <= end <= |value| && InOrder(intervals, cursor)
    ensures Measure(prefix + Rest(value, intervals, cursor, end), kind) <= Measure(prefix + value[cursor..end], kind)
    decreases |intervals|
  {
    hide Measure, Rest, Replaced;
    if cursor == end || intervals == [] || intervals[0].start >= end {
      ReplaceNothing(value, intervals, cursor, end);
    } else {
      var start, clipped := intervals[0].start, Min(intervals[0].end, end);
      var x, seg, b := value[cursor..start], value[start..clipped], value[clipped..end];
      ReplaceStep(value, intervals, cursor, end);
      hide Mark;
      var rest := Rest(value, intervals[1..], clipped, end);
      Assoc(prefix, x, Mark(|seg|), rest);
      RestMeasures(prefix + x + Mark(|seg|), value, intervals[1..], clipped, end, kind);
      SegmentShrinks(prefix + x, seg, b, kind);
      assert value[cursor..end] == x + seg + b;
      Assoc(prefix, x, seg, b);
    }
  }

  // The routine.

  /** A kept text whose intervals are the protected positions of the capture's kept range. */
  ghost predicate KeepsRange(kept: KeptCapture, value: Text, members: seq<Text>, drop: nat) {
    && drop <= |value| && kept.text == value[..|value| - drop] && kept.dropped == (drop > 0)
    && Separated(kept.intervals) && InOrder(kept.intervals, 0)
    && (forall i: nat :: i < |kept.text| ==> (InAny(kept.intervals, i) <==> Covered(value, members, i)))
  }

  /** Steps 1 and 2 for a capture without a gap: only one llame ended is trimmed. */
  method KeepCapture(value: Text, members: seq<Text>, longest: nat, endedByLlame: bool) returns (kept: KeptCapture,
      drop: nat)
    requires forall k :: 0 <= k < |members| ==> |members[k]| <= longest
    ensures if endedByLlame then TrailingDrop(value, members, drop) else drop == 0
    ensures KeepsRange(kept, value, members, drop)
  {
    drop := 0;
    if endedByLlame { drop := TrailingMemberPrefixLength(value, members, longest); }
    var intervals := ProtectedValueIntervals(value, members);
    var clipped := ClipIntervals(intervals, |value| - drop);
    kept := KeptCapture(value[..|value| - drop], clipped, drop > 0);
  }

  /** Both parts around a gap, in the coordinates of the text they are joined to. */
  ghost predicate KeepsParts(kept: KeptCapture, head: Text, tail: Text, members: seq<Text>, headDrop: nat,
      tailDrop: nat, a: seq<Interval>, b: seq<Interval>) {
    && TrailingDrop(head, members, headDrop) && LeadingDrop(tail, members, tailDrop)
    && kept.text == head[..|head| - headDrop] + tail[tailDrop..] && kept.dropped
    && kept.intervals == a + b && Separated(a) && Separated(b) && Within(a, |head| - headDrop)
      && InOrder(b, |head| - headDrop)
    && (forall i: nat :: i < |head| - headDrop ==> (InAny(a, i) <==> Covered(head, members, i)))
    && (forall i: nat :: tailDrop <= i < |tail| ==>
      (Covered(tail, members, i) <==> InAny(b, |head| - headDrop + i - tailDrop)))
  }

  method KeepGap(head: Text, tail: Text, members: seq<Text>, longest: nat)
    returns (kept: KeptCapture, headDrop: nat, tailDrop: nat, ghost a: seq<Interval>, ghost b: seq<Interval>)
    requires forall k :: 0 <= k < |members| ==> |members[k]| <= longest
    ensures KeepsParts(kept, head, tail, members, headDrop, tailDrop, a, b)
  {
    headDrop := TrailingMemberPrefixLength(head, members, longest);
    tailDrop := LeadingMemberSuffixLength(tail, members, longest);
    var h := |head| - headDrop;
    var headIntervals := ProtectedValueIntervals(head, members);
    var headClipped := ClipIntervals(headIntervals, h);
    var inTail := ProtectedValueIntervals(tail, members);
    var tailMapped := TailIntervals(inTail, tailDrop, h);
    a, b := headClipped, tailMapped;
    kept := KeptCapture(head[..h] + tail[tailDrop..], headClipped + tailMapped, true);
  }

  lemma KeptIsRedacted(kept: KeptCapture, value: Text, members: seq<Text>, drop: nat, cut: nat)
    requires KeepsRange(kept, value, members, drop) && cut <= |kept.text|
    ensures Rest(kept.text, kept.intervals, 0, cut) == Redacted(value, members, 0, cut)
  {
    hide Rest, Redact;
    var hidden := Mask(value, members)[..|kept.text|];
    ReplacedIsRedaction(kept.text, hidden, kept.intervals, 0, cut);
    assert kept.text[0..cut] == value[0..cut] && hidden[0..cut] == Mask(value, members)[0..cut];
  }

  lemma PartsAreRedacted(kept: KeptCapture, head: Text, tail: Text, members: seq<Text>, headDrop: nat, tailDrop: nat,
                         a: seq<Interval>, b: seq<Interval>, cut: nat)
    requires KeepsParts(kept, head, tail, members, headDrop, tailDrop, a, b) && cut <= |kept.text|
    ensures InOrder(kept.intervals, 0)
    ensures var h := |head| - headDrop;
            Rest(kept.text, kept.intervals, 0, cut)
            == Redacted(head, members, 0, Min(h, cut)) + if cut > h
              then Redacted(tail, members, tailDrop, tailDrop + cut - h) else []
  {
    hide Rest, Redact, Redacted;
    var h := |head| - headDrop;
    PartByPart(kept.text, a, b, 0, h, cut);
    HeadIsRedacted(kept.text, head, members, h, a, Min(h, cut));
    if cut > h {
      TailIsRedacted(kept.text, tail, members, h, tailDrop, b, cut);
    }
  }

  lemma HeadIsRedacted(text: Text, head: Text, members: seq<Text>, h: nat, a: seq<Interval>, end: nat)
    requires end <= h <= |head| && h <= |text| && text[..h] == head[..h] && Separated(a) && InOrder(a, 0)
    requires forall i: nat :: i < h ==> (InAny(a, i) <==> Covered(head, members, i))
    ensures Rest(text, a, 0, end) == Redacted(head, members, 0, end)
  {
    hide Rest, Redact;
    var hidden := Mask(head, members)[..h] + seq(|text| - h, i => false);
    ReplacedIsRedaction(text, hidden, a, 0, end);
    assert text[0..end] == text[..h][..end] && head[0..end] == head[..h][..end];
    assert hidden[0..end] == Mask(head, members)[0..end];
  }

  lemma TailIsRedacted(text: Text, tail: Text, members: seq<Text>, h: nat, tailDrop: nat, b: seq<Interval>, end: nat)
    requires h <= end <= |text| && tailDrop <= |tail| && |text| == h + |tail| - tailDrop
      && text[h..] == tail[tailDrop..]
    requires Separated(b) && InOrder(b, h)
    requires forall i: nat :: tailDrop <= i < |tail| ==> (Covered(tail, members, i) <==> InAny(b, h + i - tailDrop))
    ensures Rest(text, b, h, end) == Redacted(tail, members, tailDrop, tailDrop + end - h)
  {
    hide Rest, Redact;
    var mask := Mask(tail, members);
    var hidden := seq(h, i => false) + mask[tailDrop..];
    forall i: nat | h <= i < end ensures hidden[i] <==> InAny(b, i) {
      assert hidden[i] == mask[tailDrop + i - h];
      assert Covered(tail, members, tailDrop + i - h) <==> InAny(b, i);
    }
    ReplacedIsRedaction(text, hidden, b, h, end);
    assert text[h..end] == text[h..][..end - h];
    assert tail[tailDrop..tailDrop + end - h] == tail[tailDrop..][..end - h];
    assert hidden[h..end] == mask[tailDrop..tailDrop + end - h];
  }

  lemma BoundKept(text: Text, intervals: seq<Interval>, cut: nat, bound: StreamBound)
    requires InOrder(intervals, 0) && IsCut(text, bound, cut)
    ensures Measure(Rest(text, intervals, 0, cut), bound.kind) <= bound.limit
  {
    hide Rest, Measure;
    RestMeasures([], text, intervals, 0, cut, bound.kind);
    assert [] + Rest(text, intervals, 0, cut) == Rest(text, intervals, 0, cut);
    assert [] + text[0..cut] == text[..cut];
  }

  /**
   A capture without a gap. The output is the redaction of the capture's first `cut` characters, measures
   at most the bound, and is marked truncated exactly when something was dropped or cut.
   */
  method SanitizeStream(value: Text, bound: StreamBound, members: seq<Text>, longest: nat, endedByLlame: bool)
    returns (text: Text, truncated: bool, drop: nat, cut: nat)
    requires forall k :: 0 <= k < |members| ==> |members[k]| <= longest
    ensures if endedByLlame then TrailingDrop(value, members, drop) else drop == 0
    ensures drop <= |value| && IsCut(value[..|value| - drop], bound, cut)
    ensures text == Redacted(value, members, 0, cut)
    ensures Measure(text, bound.kind) <= bound.limit
    ensures truncated == (cut < |value|)
  {
    hide Rest, Redact, Redacted, Measure;
    var kept;
    kept, drop := KeepCapture(value, members, longest, endedByLlame);
    cut := CutLength(kept.text, bound);
    text := ReplaceIntervals(kept.text, kept.intervals, cut);
    KeptIsRedacted(kept, value, members, drop, cut);
    BoundKept(kept.text, kept.intervals, cut, bound);
    truncated := kept.dropped || cut < |kept.text|;
  }

  /** A capture with a gap: each part is redacted on its own, up to the cut. */
  method SanitizeGap(head: Text, tail: Text, bound: StreamBound, members: seq<Text>, longest: nat)
    returns (text: Text, truncated: bool, headDrop: nat, tailDrop: nat, cut: nat)
    requires forall k :: 0 <= k < |members| ==> |members[k]| <= longest
    ensures TrailingDrop(head, members, headDrop) && LeadingDrop(tail, members, tailDrop)
    ensures headDrop <= |head| && tailDrop <= |tail|
    ensures IsCut(head[..|head| - headDrop] + tail[tailDrop..], bound, cut)
    ensures text == Redacted(head, members, 0, Min(|head| - headDrop, cut))
                    + if cut > |head| - headDrop
                      then Redacted(tail, members, tailDrop, tailDrop + cut - (|head| - headDrop)) else []
    ensures Measure(text, bound.kind) <= bound.limit && truncated
  {
    hide Rest, Redact, Redacted, Measure;
    ghost var a, b;
    var kept;
    kept, headDrop, tailDrop, a, b := KeepGap(head, tail, members, longest);
    cut := CutLength(kept.text, bound);
    PartsAreRedacted(kept, head, tail, members, headDrop, tailDrop, a, b, cut);
    text := ReplaceIntervals(kept.text, kept.intervals, cut);
    BoundKept(kept.text, kept.intervals, cut, bound);
    truncated := kept.dropped || cut < |kept.text|;
  }

  /** What may stay of a stream `head + middle + tail` of which only the head and the tail were kept. */
  ghost function GapRedacted(head: Text, middle: Text, tail: Text, members: seq<Text>, h: nat, tailDrop: nat,
      cut: nat): Text
    requires h <= |head| && tailDrop <= |tail| && cut <= h + |tail| - tailDrop
  {
    var stream, resume := head + middle + tail, |head| + |middle| + tailDrop;
    Redacted(stream, members, 0, Min(h, cut)) + if cut > h then Redacted(stream, members, resume, resume + cut - h)
      else []
  }

  /** Whatever was dropped between the parts, they are redacted as the whole stream demands. */
  lemma GapHidesAll(head: Text, middle: Text, tail: Text, members: seq<Text>, headDrop: nat, tailDrop: nat, cut: nat)
    requires TrailingDrop(head, members, headDrop) && LeadingDrop(tail, members, tailDrop)
    requires cut <= |head| - headDrop + |tail| - tailDrop
    ensures var h := |head| - headDrop;
            GapRedacted(head, middle, tail, members, h, tailDrop, cut)
            == Redacted(head, members, 0, Min(h, cut)) + if cut > h
              then Redacted(tail, members, tailDrop, tailDrop + cut - h) else []
  {
    hide Redacted;
    var h := |head| - headDrop;
    RedactedBefore(head, middle + tail, members, headDrop, Min(h, cut));
    assert head + (middle + tail) == head + middle + tail;
    if cut > h {
      RedactedAfter(head + middle, tail, members, tailDrop, tailDrop + cut - h);
    }
  }

  /** The part of the kept range that is in the output, for a capture with and without a gap. */
  datatype Range = Prefix(drop: nat, cut: nat) | Around(head: Text, tail: Text, h: nat, tailDrop: nat, gapCut: nat)

  /**
   `text` is what the stream's redaction leaves of the range, whatever was dropped between the parts, and
   whatever follows a prefix llame ended; what follows the tail after a gap is not considered.
   */
  ghost predicate HidesAll(text: Text, value: Text, members: seq<Text>, endedByLlame: bool, range: Range) {
    match range
    case Prefix(drop, cut) =>
      && cut <= |value| && text == Redacted(value, members, 0, cut)
      && (endedByLlame ==> forall rest :: text == Redacted(value + rest, members, 0, cut))
    case Around(head, tail, h, tailDrop, cut) =>
      && value == head + tail && h <= |head| && tailDrop <= |tail| && cut <= h + |tail| - tailDrop
      && forall middle :: text == GapRedacted(head, middle, tail, members, h, tailDrop, cut)
  }

  /** Nothing more is dropped or cut than the rules demand. */
  ghost predicate KeepsMost(value: Text, bound: StreamBound, members: seq<Text>, endedByLlame: bool, range: Range) {
    match range
    case Prefix(drop, cut) =>
      && (if endedByLlame then TrailingDrop(value, members, drop) else drop == 0)
      && drop <= |value| && IsCut(value[..|value| - drop], bound, cut)
    case Around(head, tail, h, tailDrop, cut) =>
      && h <= |head| && TrailingDrop(head, members, |head| - h) && LeadingDrop(tail, members, tailDrop)
      && IsCut(head[..h] + tail[tailDrop..], bound, cut)
  }

  lemma PrefixHides(text: Text, value: Text, members: seq<Text>, endedByLlame: bool, drop: nat, cut: nat)
    requires (if endedByLlame then TrailingDrop(value, members, drop) else drop == 0) && cut <= |value| - drop
    requires text == Redacted(value, members, 0, cut)
    ensures HidesAll(text, value, members, endedByLlame, Prefix(drop, cut))
  {
    hide Redacted;
    if endedByLlame {
      forall rest ensures text == Redacted(value + rest, members, 0, cut) {
        RedactedBefore(value, rest, members, drop, cut);
      }
    }
  }

  lemma GapHides(text: Text, head: Text, tail: Text, members: seq<Text>, endedByLlame: bool, headDrop: nat, h: nat,
      tailDrop: nat, cut: nat)
    requires TrailingDrop(head, members, headDrop) && LeadingDrop(tail, members, tailDrop)
    requires h == |head| - headDrop && cut <= h + |tail| - tailDrop
    requires text == Redacted(head, members, 0, Min(h, cut)) + if cut > h
      then Redacted(tail, members, tailDrop, tailDrop + cut - h) else []
    ensures HidesAll(text, head + tail, members, endedByLlame, Around(head, tail, h, tailDrop, cut))
  {
    hide Redacted, GapRedacted;
    forall middle ensures text == GapRedacted(head, middle, tail, members, h, tailDrop, cut) {
      GapHidesAll(head, middle, tail, members, headDrop, tailDrop, cut);
    }
  }

  lemma PrefixKeepsMost(value: Text, bound: StreamBound, members: seq<Text>, endedByLlame: bool, drop: nat, cut: nat)
    requires (if endedByLlame then TrailingDrop(value, members, drop) else drop == 0)
    requires drop <= |value| && IsCut(value[..|value| - drop], bound, cut)
    ensures KeepsMost(value, bound, members, endedByLlame, Prefix(drop, cut)) && cut <= |value| - drop
  {
  }

  lemma GapKeepsMost(head: Text, tail: Text, bound: StreamBound, members: seq<Text>, ended: bool, headDrop: nat,
      tailDrop: nat, cut: nat)
    requires TrailingDrop(head, members, headDrop) && LeadingDrop(tail, members, tailDrop)
    requires headDrop <= |head| && tailDrop <= |tail| && IsCut(head[..|head| - headDrop] + tail[tailDrop..], bound, cut)
    ensures KeepsMost(head + tail, bound, members, ended, Around(head, tail, |head| - headDrop, tailDrop, cut))
    ensures cut <= |head| - headDrop + |tail| - tailDrop
  {
  }

  /** The gap in a text is where the capture says, or the nearest end of the text when that is outside it. */
  predicate IsGap(value: Text, gapAt: Option<int>, gap: nat) {
    && gapAt.Some? && gap <= |value| && (0 <= gapAt.value <= |value| ==> gap == gapAt.value)
    && (gapAt.value < 0 ==> gap == 0) && (gapAt.value > |value| ==> gap == |value|)
  }

  /** One stream, as captured: the whole routine. */
  method SanitizeCaptured(value: Text, bound: StreamBound, members: seq<Text>, capture: Option<StreamCapture>)
    returns (text: Text, truncated: bool, ghost range: Range)
    ensures HidesAll(text, value, members, capture.Some? && capture.value.endedByLlame, range)
    ensures Measure(text, bound.kind) <= bound.limit
    ensures KeepsMost(value, bound, members, capture.Some? && capture.value.endedByLlame, range)
    ensures range.Prefix? <==> capture == None || capture.value.gapAt == None
    ensures range.Around? ==> capture.Some? && IsGap(value, capture.value.gapAt, |range.head|)
    ensures range.Prefix? ==> truncated == (range.cut < |value|)
    ensures range.Around? ==> truncated
  {
    hide Redacted, Measure, HidesAll, KeepsMost, TrailingDrop, LeadingDrop, IsCut;
    var longest := LongestMemberLength(members);
    var ended := capture.Some? && capture.value.endedByLlame;
    if capture.Some? && capture.value.gapAt.Some? {
      var gapAt := capture.value.gapAt.value;
      var gap := if gapAt < 0 then 0 else if gapAt > |value| then |value| else gapAt;
      var head, tail := value[..gap], value[gap..];
      assert value == head + tail;
      var headDrop, tailDrop, cut;
      text, truncated, headDrop, tailDrop, cut := SanitizeGap(head, tail, bound, members, longest);
      GapKeepsMost(head, tail, bound, members, ended, headDrop, tailDrop, cut);
      GapHides(text, head, tail, members, ended, headDrop, |head| - headDrop, tailDrop, cut);
      range := Around(head, tail, |head| - headDrop, tailDrop, cut);
    } else {
      var drop, cut;
      text, truncated, drop, cut := SanitizeStream(value, bound, members, longest, ended);
      PrefixKeepsMost(value, bound, members, ended, drop, cut);
      PrefixHides(text, value, members, ended, drop, cut);
      range := Prefix(drop, cut);
    }
  }
}
