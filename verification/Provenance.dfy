/**
 Where every character of a sanitized output comes from, and so where a protected value can still be read:
 only across a seam, a place where something was marked, removed or left out.
 */
module Provenance {
  import opened Text
  import opened ProtectedValues
  import opened Redaction
  import opened Sanitize
  import OutputBound

  /** For each character of a redaction the stream position it stands at; none for a marker's. */
  function Sources(hidden: seq<bool>, at: nat): seq<Option<nat>>
    decreases |hidden|
  {
    if hidden == [] then []
    else if !hidden[0] then [Some(at)] + Sources(hidden[1..], at + 1)
    else var n := Run(hidden); seq(|Mark(n)|, _ => None) + Sources(hidden[n..], at + n)
  }

  /** Every character with a source is the stream's at that position, and belongs to no protected value there. */
  ghost predicate Traced(text: Text, sources: seq<Option<nat>>, stream: Text, members: seq<Text>) {
    && |sources| == |text|
    && forall p :: 0 <= p < |text| && sources[p].Some? ==>
         sources[p].value < |stream| && text[p] == stream[sources[p].value]
           && !Covered(stream, members, sources[p].value)
  }

  /** The same for the redaction of a text that stands at `at`, by what is hidden of it. */
  ghost predicate Follows(text: Text, sources: seq<Option<nat>>, v: Text, hidden: seq<bool>, at: nat)
    requires |v| == |hidden|
  {
    && |sources| == |text|
    && forall p :: 0 <= p < |text| && sources[p].Some? ==>
         at <= sources[p].value < at + |v| && !hidden[sources[p].value - at] && text[p] == v[sources[p].value - at]
  }

  lemma FollowsLater(more: Text, text: Text, moreSources: seq<Option<nat>>, sources: seq<Option<nat>>, v: Text,
      hidden: seq<bool>, at: nat, n: nat)
    requires n <= |v| == |hidden| && Follows(text, sources, v[n..], hidden[n..], at + n) && |moreSources| == |more|
    requires forall p :: 0 <= p < |more| ==>
      moreSources[p] == None || (n == 1 && !hidden[0] && moreSources[p] == Some(at) && more[p] == v[0])
    ensures Follows(more + text, moreSources + sources, v, hidden, at)
  {
  }

  lemma {:induction false} SourcesAre(v: Text, hidden: seq<bool>, at: nat)
    requires |v| == |hidden|
    ensures Follows(Redact(v, hidden), Sources(hidden, at), v, hidden, at)
    decreases |v|
  {
    hide Follows, Mark;
    if v == [] {
      NothingFollows(v, hidden, at);
    } else if !hidden[0] {
      SourcesAre(v[1..], hidden[1..], at + 1);
      FollowsLater([v[0]], Redact(v[1..], hidden[1..]), [Some(at)], Sources(hidden[1..], at + 1), v, hidden, at, 1);
    } else {
      var n := Run(hidden);
      var none := seq(|Mark(n)|, _ => None);
      SourcesAre(v[n..], hidden[n..], at + n);
      FollowsLater(Mark(n), Redact(v[n..], hidden[n..]), none, Sources(hidden[n..], at + n), v, hidden, at, n);
    }
  }

  lemma NothingFollows(v: Text, hidden: seq<bool>, at: nat)
    requires |v| == |hidden|
    ensures Follows([], [], v, hidden, at)
  {
  }

  lemma RedactedIsTraced(stream: Text, members: seq<Text>, from: nat, to: nat)
    requires from <= to <= |stream|
    ensures Traced(Redacted(stream, members, from, to), Sources(Mask(stream, members)[from..to], from), stream, members)
  {
    hide Redact, Sources;
    SourcesAre(stream[from..to], Mask(stream, members)[from..to], from);
  }

  lemma TracedTogether(a: Text, aSources: seq<Option<nat>>, b: Text, bSources: seq<Option<nat>>, stream: Text,
      members: seq<Text>)
    requires Traced(a, aSources, stream, members) && Traced(b, bSources, stream, members)
    ensures Traced(a + b, aSources + bSources, stream, members)
  {
    hide Covered;
  }

  /** Somewhere in these characters one is a marker's, or its neighbour was not its neighbour in the stream. */
  ghost predicate Seam(sources: seq<Option<nat>>, from: nat, to: nat)
    requires to <= |sources|
  {
    || (exists p :: from <= p < to && sources[p] == None)
    || (exists p :: from <= p < p + 1 < to && sources[p].Some? && sources[p + 1] != Some(sources[p].value + 1))
  }

  lemma {:induction false} Consecutive(sources: seq<Option<nat>>, from: nat, to: nat, p: nat)
    requires from <= p < to <= |sources| && !Seam(sources, from, to)
    ensures sources[from].Some? && sources[p] == Some(sources[from].value + p - from)
    decreases p
  {
    if p > from {
      Consecutive(sources, from, to, p - 1);
    }
  }

  /** Every character with a source is the stream's at that position. */
  ghost predicate Copied(text: Text, sources: seq<Option<nat>>, stream: Text) {
    && |sources| == |text|
    && forall p :: 0 <= p < |text| && sources[p].Some? ==>
      sources[p].value < |stream| && text[p] == stream[sources[p].value]
  }

  /** What is read without a seam stood in the stream. */
  lemma StoodThere(text: Text, sources: seq<Option<nat>>, stream: Text, member: Text, p: nat)
    requires Copied(text, sources, stream) && Occurs(text, member, p) && !Seam(sources, p, p + |member|)
    ensures sources[p].Some? && CoveredBy(stream, member, sources[p].value)
  {
    Consecutive(sources, p, p + |member|, p);
    var q := sources[p].value;
    forall k | 0 <= k < |member| ensures q + k < |stream| && stream[q + k] == member[k] {
      Consecutive(sources, p, p + |member|, p + k);
      assert text[p..p + |member|][k] == text[p + k];
    }
    var last := member[|member| - 1];
    assert q + |member| <= |stream| && stream[q..q + |member|] == member;
    assert Occurs(stream, member, q);
  }

  /** A protected value is never read off characters that stood together in the stream. */
  lemma OnlyAcrossSeams(text: Text, sources: seq<Option<nat>>, stream: Text, members: seq<Text>, m: nat, p: nat)
    requires Traced(text, sources, stream, members) && m < |members| && Occurs(text, members[m], p)
    ensures Seam(sources, p, p + |members[m]|)
  {
    if !Seam(sources, p, p + |members[m]|) {
      StoodThere(text, sources, stream, members[m], p);
    }
  }

  // Sanitized outputs.

  /** The trace of a sanitized output, against its capture or, around a gap, against head, dropped middle and tail. */
  ghost function Trace(value: Text, members: seq<Text>, range: Range, middle: Text): seq<Option<nat>>
    requires match range
             case Prefix(_, cut) => cut <= |value|
             case Around(head, tail, h, tailDrop, cut) =>
               h <= |head| && tailDrop <= |tail| && cut <= h + |tail| - tailDrop
  {
    match range
    case Prefix(_, cut) => Sources(Mask(value, members)[0..cut], 0)
    case Around(head, tail, h, tailDrop, cut) =>
      var stream, resume := head + middle + tail, |head| + |middle| + tailDrop;
      Sources(Mask(stream, members)[0..Min(h, cut)], 0)
      + if cut > h then Sources(Mask(stream, members)[resume..resume + cut - h], resume) else []
  }

  ghost function Stream(value: Text, range: Range, middle: Text): Text {
    match range
    case Prefix(_, _) => value
    case Around(head, tail, _, _, _) => head + middle + tail
  }

  /**
   A protected value can be read in a sanitized output only across a seam: never where the output shows a
   stretch of the stream as it was. Of what follows the tail after a gap nothing is promised.
   */
  lemma ReadOnlyAcrossSeams(
    text: Text, value: Text, members: seq<Text>, endedByLlame: bool, range: Range, middle: Text, m: nat, p: nat)
    requires HidesAll(text, value, members, endedByLlame, range) && m < |members| && Occurs(text, members[m], p)
    ensures Traced(text, Trace(value, members, range, middle), Stream(value, range, middle), members)
    ensures Seam(Trace(value, members, range, middle), p, p + |members[m]|)
  {
    hide Redacted, Sources, Traced, Seam, GapRedacted;
    match range {
      case Prefix(_, cut) => RedactedIsTraced(value, members, 0, cut);
      case Around(head, tail, h, tailDrop, cut) =>
        assert text == GapRedacted(head, middle, tail, members, h, tailDrop, cut);
        GapIsTraced(value, members, range, middle);
    }
    OnlyAcrossSeams(text, Trace(value, members, range, middle), Stream(value, range, middle), members, m, p);
  }

  lemma GapIsTraced(value: Text, members: seq<Text>, range: Range, middle: Text)
    requires range.Around? && range.h <= |range.head| && range.tailDrop <= |range.tail|
    requires range.gapCut <= range.h + |range.tail| - range.tailDrop
    ensures Traced(GapRedacted(range.head, middle, range.tail, members, range.h, range.tailDrop, range.gapCut),
                   Trace(value, members, range, middle), Stream(value, range, middle), members)
  {
    hide Redacted, Sources, Traced;
    var h, cut := range.h, range.gapCut;
    var stream, resume := range.head + middle + range.tail, |range.head| + |middle| + range.tailDrop;
    var first, sources := Redacted(stream, members, 0, Min(h, cut)), Sources(Mask(stream, members)[0..Min(h, cut)], 0);
    RedactedIsTraced(stream, members, 0, Min(h, cut));
    if cut > h {
      RedactedIsTraced(stream, members, resume, resume + cut - h);
      TracedTogether(first, sources, Redacted(stream, members, resume, resume + cut - h),
                     Sources(Mask(stream, members)[resume..resume + cut - h], resume), stream, members);
    } else {
      assert first + [] == first && sources + [] == sources;
    }
  }

  // For which protected values none can be read.

  /** The marker neither stands in the value, nor ends in what it begins with, nor begins with what it ends in. */
  ghost predicate ApartFromMarker(member: Text) {
    && (forall p: nat :: !Occurs(member, MARKER, p))
    && (forall n: nat :: 0 < n <= |MARKER| && n <= |member| ==> member[..n] != MARKER[|MARKER| - n..])
    && (forall n: nat :: 0 < n <= |MARKER| && n <= |member| ==> member[|member| - n..] != MARKER[..n])
  }

  /** As long as the marker, so never removed without one, and not confused with it. */
  ghost predicate Distinct(members: seq<Text>) {
    forall m :: 0 <= m < |members| ==> |members[m]| >= |MARKER| && ApartFromMarker(members[m])
  }

  lemma ItsFirstUnit(member: Text, p: nat)
    requires Occurs(member, MARKER, p)
    ensures p < |member| && member[p] in MARKER
  {
    assert member[p..p + |MARKER|][0] == member[p];
  }

  /** A value without any of the marker's code units is apart from it. */
  lemma ApartWithoutItsUnits(member: Text)
    requires forall k :: 0 <= k < |member| ==> member[k] !in MARKER
    ensures ApartFromMarker(member)
  {
    forall p: nat ensures !Occurs(member, MARKER, p) {
      if Occurs(member, MARKER, p) { ItsFirstUnit(member, p); }
    }
    forall n: nat | 0 < n <= |MARKER| && n <= |member| ensures member[..n] != MARKER[|MARKER| - n..] {
      assert member[..n][0] == member[0] && MARKER[|MARKER| - n..][0] in MARKER;
    }
    forall n: nat | 0 < n <= |MARKER| && n <= |member| ensures member[|member| - n..] != MARKER[..n] {
      assert member[|member| - n..][0] == member[|member| - n] && MARKER[..n][0] in MARKER;
    }
  }

  ghost predicate MarkerAt(text: Text, b: nat) {
    b + |MARKER| <= |text| && text[b..b + |MARKER|] == MARKER
  }

  lemma MarkerLater(more: Text, text: Text, b: nat)
    requires MarkerAt(text, b)
    ensures MarkerAt(more + text, |more| + b)
  {
    assert (more + text)[|more| + b..|more| + b + |MARKER|] == text[b..b + |MARKER|];
  }

  /** A character without a source is one of a whole marker. */
  lemma {:induction false} MarkerAround(v: Text, hidden: seq<bool>, at: nat, p: nat) returns (b: nat)
    requires |v| == |hidden| && p < |Sources(hidden, at)| && Sources(hidden, at)[p] == None
    ensures b <= p < b + |MARKER| && MarkerAt(Redact(v, hidden), b)
    decreases |v|
  {
    hide MarkerAt;
    if !hidden[0] {
      b := MarkerAround(v[1..], hidden[1..], at + 1, p - 1);
      MarkerLater([v[0]], Redact(v[1..], hidden[1..]), b);
      b := 1 + b;
    } else {
      var n := Run(hidden);
      var mark, rest := Mark(n), Redact(v[n..], hidden[n..]);
      if p < |mark| {
        b := 0;
        assert MarkerAt(mark + rest, 0) by { MarkerFirst(rest); }
      } else {
        b := MarkerAround(v[n..], hidden[n..], at + n, p - |mark|);
        MarkerLater(mark, rest, b);
        b := |mark| + b;
      }
    }
  }

  lemma MarkerFirst(rest: Text)
    ensures MarkerAt(MARKER + rest, 0)
  {
    assert (MARKER + rest)[..|MARKER|] == MARKER;
  }

  /** The first source: what stood before it is a run too short for a marker. */
  lemma FirstSource(hidden: seq<bool>, at: nat)
    requires Sources(hidden, at) != [] && Sources(hidden, at)[0].Some?
    ensures var j := Sources(hidden, at)[0].value;
            && at <= j < at + |hidden| && j - at < |MARKER| && !hidden[j - at] && (at < j ==> hidden[0])
  {
    if hidden[0] {
      var n := Run(hidden);
      assert n < |hidden| && Sources(hidden[n..], at + n)[0] == Some(at + n);
    }
  }

  /** `i` and `j` are not hidden, and nothing stands between them but a run too short for a marker. */
  ghost predicate Near(hidden: seq<bool>, at: nat, i: nat, j: nat) {
    && at <= i < j < at + |hidden| && j - i - 1 < |MARKER|
    && !hidden[i - at] && !hidden[j - at] && (i + 1 < j ==> hidden[i + 1 - at])
  }

  lemma NearLater(hidden: seq<bool>, at: nat, n: nat, i: nat, j: nat)
    requires n <= |hidden| && Near(hidden[n..], at + n, i, j)
    ensures Near(hidden, at, i, j)
  {
  }

  /** Neighbours in the output were neighbours in the stream, or a run too short for a marker stood between them. */
  lemma {:induction false} Neighbours(hidden: seq<bool>, at: nat, p: nat)
    requires p + 1 < |Sources(hidden, at)| && Sources(hidden, at)[p].Some? && Sources(hidden, at)[p + 1].Some?
    ensures Near(hidden, at, Sources(hidden, at)[p].value, Sources(hidden, at)[p + 1].value)
    decreases |hidden|
  {
    if hidden[0] {
      var n := Run(hidden);
      hide Near;
      Neighbours(hidden[n..], at + n, p - |Mark(n)|);
      NearLater(hidden, at, n, Sources(hidden, at)[p].value, Sources(hidden, at)[p + 1].value);
    } else if p == 0 {
      FirstSource(hidden[1..], at + 1);
    } else {
      hide Near;
      Neighbours(hidden[1..], at + 1, p - 1);
      NearLater(hidden, at, 1, Sources(hidden, at)[p].value, Sources(hidden, at)[p + 1].value);
    }
  }

  lemma WhoCovers(stream: Text, members: seq<Text>, i: nat) returns (k: nat, p: nat)
    requires Covered(stream, members, i)
    ensures k < |members| && Occurs(stream, members[k], p) && p <= i < p + |members[k]|
  {
    k :| 0 <= k < |members| && CoveredBy(stream, members[k], i);
    p :| p <= i < p + |members[k]| && Occurs(stream, members[k], p);
  }

  lemma Covers(stream: Text, members: seq<Text>, k: nat, p: nat, i: nat)
    requires k < |members| && Occurs(stream, members[k], p) && p <= i < p + |members[k]|
    ensures Covered(stream, members, i)
  {
    assert CoveredBy(stream, members[k], i);
  }

  /** A run of hidden characters between two that are not holds a whole protected value. */
  lemma RunHoldsAValue(stream: Text, members: seq<Text>, i: nat, j: nat) returns (k: nat)
    requires i + 1 < j < |stream| && !Covered(stream, members, i) && !Covered(stream, members, j)
    requires Covered(stream, members, i + 1)
    ensures k < |members| && |members[k]| <= j - i - 1
  {
    hide Covered, Occurs;
    var p;
    k, p := WhoCovers(stream, members, i + 1);
    if p <= i { Covers(stream, members, k, p, i); }
    if j < p + |members[k]| { Covers(stream, members, k, p, j); }
  }

  /** A value read over part of a marker is not apart from it. */
  lemma OverMarker(text: Text, member: Text, p: nat, b: nat)
    requires |member| >= |MARKER| && Occurs(text, member, p)
    requires MarkerAt(text, b) && b < p + |member| && p < b + |MARKER|
    ensures !ApartFromMarker(member)
  {
    forall k | 0 <= k < |member| ensures member[k] == text[p + k] {
      assert text[p..p + |member|][k] == text[p + k];
    }
    forall k | 0 <= k < |MARKER| ensures MARKER[k] == text[b + k] {
      assert text[b..b + |MARKER|][k] == text[b + k];
    }
    if b < p {
      var n := b + |MARKER| - p;
      assert member[..n] == MARKER[|MARKER| - n..];
    } else if p + |member| < b + |MARKER| {
      var n := p + |member| - b;
      assert member[|member| - n..] == MARKER[..n];
    } else {
      assert member[b - p..b - p + |MARKER|] == MARKER;
      assert Occurs(member, MARKER, b - p);
    }
  }

  lemma ShortIsNotDistinct(members: seq<Text>, k: nat)
    requires k < |members| && (|members[k]| < |MARKER| || !ApartFromMarker(members[k]))
    ensures !Distinct(members)
  {
  }

  /** A value read over a character without a source is short, or not apart from the marker. */
  lemma ReadOverMarker(stream: Text, members: seq<Text>, from: nat, to: nat, m: nat, p: nat, q: nat)
    requires from <= to <= |stream| && m < |members| && p <= q < p + |members[m]|
    requires Occurs(Redacted(stream, members, from, to), members[m], p)
    requires var sources := Sources(Mask(stream, members)[from..to], from); q < |sources| && sources[q] == None
    ensures !Distinct(members)
  {
    hide Redact, Sources, ApartFromMarker, Occurs, MarkerAt, Distinct;
    var b := MarkerAround(stream[from..to], Mask(stream, members)[from..to], from, q);
    if |members[m]| >= |MARKER| { OverMarker(Redacted(stream, members, from, to), members[m], p, b); }
    ShortIsNotDistinct(members, m);
  }

  /** Where neighbours in the output were not neighbours in the stream, a value shorter than the marker stood. */
  lemma RemovedBetween(stream: Text, members: seq<Text>, from: nat, to: nat, q: nat)
    requires from <= to <= |stream|
    requires var sources := Sources(Mask(stream, members)[from..to], from);
             q + 1 < |sources| && sources[q].Some? && sources[q + 1].Some?
               && sources[q + 1].value != sources[q].value + 1
    ensures !Distinct(members)
  {
    hide Sources, Covered, Distinct;
    var hidden := Mask(stream, members)[from..to];
    var i, j := Sources(hidden, from)[q].value, Sources(hidden, from)[q + 1].value;
    Neighbours(hidden, from, q);
    var k := RunHoldsAValue(stream, members, i, j);
    ShortIsNotDistinct(members, k);
  }

  /** A value can be read only when some value is short, or not apart from the marker. */
  lemma ReadOnlyIfNotDistinct(stream: Text, members: seq<Text>, from: nat, to: nat, m: nat, p: nat)
    requires from <= to <= |stream| && m < |members| && Occurs(Redacted(stream, members, from, to), members[m], p)
    ensures !Distinct(members)
  {
    hide Redacted, Sources, Covered, Distinct, Occurs, Traced, Seam;
    var sources := Sources(Mask(stream, members)[from..to], from);
    RedactedIsTraced(stream, members, from, to);
    OnlyAcrossSeams(Redacted(stream, members, from, to), sources, stream, members, m, p);
    OccursWithin(Redacted(stream, members, from, to), members[m], p);
    SameLength(Redacted(stream, members, from, to), sources, stream, members);
    var q := SeamAt(sources, p, p + |members[m]|);
    if sources[q] == None {
      ReadOverMarker(stream, members, from, to, m, p, q);
    } else if sources[q + 1] == None {
      ReadOverMarker(stream, members, from, to, m, p, q + 1);
    } else {
      RemovedBetween(stream, members, from, to, q);
    }
  }

  lemma SameLength(text: Text, sources: seq<Option<nat>>, stream: Text, members: seq<Text>)
    requires Traced(text, sources, stream, members)
    ensures |sources| == |text|
  {
  }

  lemma OccursWithin(text: Text, member: Text, p: nat)
    requires Occurs(text, member, p)
    ensures p + |member| <= |text|
  {
  }

  lemma SeamAt(sources: seq<Option<nat>>, from: nat, to: nat) returns (q: nat)
    requires to <= |sources| && Seam(sources, from, to)
    ensures from <= q < to
    ensures sources[q].Some? ==> q + 1 < to && sources[q + 1] != Some(sources[q].value + 1)
  {
    if p :| from <= p < to && sources[p] == None {
      q := p;
    } else {
      q :| from <= q < q + 1 < to && sources[q].Some? && sources[q + 1] != Some(sources[q].value + 1);
    }
  }

  /** No redaction of any part of any stream shows a value that is long and apart from the marker. */
  lemma RedactionShowsNone(stream: Text, members: seq<Text>, from: nat, to: nat, m: nat, p: nat)
    requires from <= to <= |stream| && m < |members| && Distinct(members)
    ensures !Occurs(Redacted(stream, members, from, to), members[m], p)
  {
    hide Redacted, Distinct, Occurs;
    if Occurs(Redacted(stream, members, from, to), members[m], p) {
      ReadOnlyIfNotDistinct(stream, members, from, to, m, p);
    }
  }

  /** The member is read where the two parts meet: `n` characters of it end the first, the others begin the second. */
  ghost predicate MeetsAt(first: Text, second: Text, member: Text, n: nat) {
    && 0 < n < |member| && n <= |first| && |member| - n <= |second|
    && first[|first| - n..] == member[..n] && second[..|member| - n] == member[n..]
  }

  lemma WhereItIs(first: Text, second: Text, member: Text, p: nat)
    requires Occurs(first + second, member, p)
    ensures p + |member| <= |first| ==> Occurs(first, member, p)
    ensures |first| <= p ==> Occurs(second, member, p - |first|)
    ensures p < |first| < p + |member| ==> MeetsAt(first, second, member, |first| - p)
  {
    var text := first + second;
    if p + |member| <= |first| {
      assert first[p..p + |member|] == text[p..p + |member|];
    } else if |first| <= p {
      assert second[p - |first|..p - |first| + |member|] == text[p..p + |member|];
    } else {
      var n := |first| - p;
      assert first[|first| - n..] == text[p..p + |member|][..n];
      assert second[..|member| - n] == text[p..p + |member|][n..];
    }
  }

  lemma ReadWhereTheyMeet(first: Text, second: Text, member: Text)
    requires forall p: nat :: !Occurs(first, member, p) && !Occurs(second, member, p)
    ensures (exists p: nat :: Occurs(first + second, member, p)) <==> exists n: nat :: MeetsAt(first, second, member, n)
  {
    hide Occurs;
    if p: nat :| Occurs(first + second, member, p) {
      WhereItIs(first, second, member, p);
    }
    if n: nat :| MeetsAt(first, second, member, n) {
      MeetingIsOccurrence(first, second, member, n);
    }
  }

  lemma MeetingIsOccurrence(first: Text, second: Text, member: Text, n: nat)
    requires MeetsAt(first, second, member, n)
    ensures Occurs(first + second, member, |first| - n)
  {
    var p := |first| - n;
    assert (first + second)[p..p + |member|] == first[p..] + second[..|member| - n] == member[..n] + member[n..]
      == member;
  }

  /** What a sanitized output shows before a gap, and after it. */
  ghost function BeforeGap(members: seq<Text>, range: Range): Text
    requires range.Around? && range.h <= |range.head|
  {
    Redacted(range.head, members, 0, Min(range.h, range.gapCut))
  }

  ghost function AfterGap(members: seq<Text>, range: Range): Text
    requires range.Around? && range.gapCut <= range.h + |range.tail| - range.tailDrop && range.tailDrop <= |range.tail|
  {
    if range.gapCut > range.h
      then Redacted(range.tail, members, range.tailDrop, range.tailDrop + range.gapCut - range.h) else []
  }

  /**
   Sanitized with values at least as long as the marker and apart from it: without a gap no protected value
   can be read in the output; around a gap one can exactly when what is left of head and tail spells it where
   they meet.
   */
  lemma WhatCanBeRead(
      text: Text, value: Text, bound: OutputBound.StreamBound, members: seq<Text>, ended: bool, range: Range, m: nat)
    requires HidesAll(text, value, members, ended, range) && KeepsMost(value, bound, members, ended, range)
    requires m < |members| && Distinct(members)
    ensures range.Prefix? ==> forall p: nat :: !Occurs(text, members[m], p)
    ensures range.Around? ==>
      && text == BeforeGap(members, range) + AfterGap(members, range)
      && ((exists p: nat :: Occurs(text, members[m], p))
          <==> exists n: nat :: MeetsAt(BeforeGap(members, range), AfterGap(members, range), members[m], n))
  {
    hide Redacted, GapRedacted, Distinct, Occurs, MeetsAt, OutputBound.IsCut;
    match range {
      case Prefix(_, cut) =>
        forall p: nat ensures !Occurs(text, members[m], p) { RedactionShowsNone(value, members, 0, cut, m, p); }
      case Around(head, tail, h, tailDrop, cut) =>
        assert text == GapRedacted(head, [], tail, members, h, tailDrop, cut);
        GapHidesAll(head, [], tail, members, |head| - h, tailDrop, cut);
        var first, second := BeforeGap(members, range), AfterGap(members, range);
        forall p: nat ensures !Occurs(first, members[m], p) && !Occurs(second, members[m], p) {
          RedactionShowsNone(head, members, 0, Min(h, cut), m, p);
          if cut > h { RedactionShowsNone(tail, members, tailDrop, tailDrop + cut - h, m, p); }
          else { NothingIn(members[m], p); }
        }
        ReadWhereTheyMeet(first, second, members[m]);
    }
  }

  lemma NothingIn(member: Text, p: nat)
    ensures !Occurs([], member, p)
  {
  }

  // Each condition is needed.

  /** A stretch no protected value touches is shown as it is. */
  lemma Untouched(stream: Text, members: seq<Text>, from: nat, to: nat)
    requires from <= to <= |stream| && forall m: nat, p: nat :: m < |members| ==> !Occurs(stream, members[m], p)
    ensures Redacted(stream, members, from, to) == stream[from..to]
  {
    hide Redact, Occurs;
    var v, hidden := stream[from..to], Mask(stream, members)[from..to];
    RedactVerbatim(v, hidden, |v|);
    assert v[|v|..] == [] && v[..|v|] == v;
    assert Redact([], hidden[|v|..]) == [] by { NothingRedacted(hidden[|v|..]); }
  }

  lemma NothingRedacted(hidden: seq<bool>)
    requires hidden == []
    ensures Redact([], hidden) == []
  {
  }

  /** The redaction of a protected value between texts that belong to none. */
  lemma RedactsTheMiddle(stream: Text, members: seq<Text>, start: nat, end: nat)
    requires start < end <= |stream|
    requires forall i :: 0 <= i < |stream| ==> (Covered(stream, members, i) <==> start <= i < end)
    ensures Redacted(stream, members, 0, |stream|) == stream[..start] + Mark(end - start) + stream[end..]
  {
    hide Redact, Covered;
    var hidden := Mask(stream, members);
    assert stream[0..|stream|] == stream && hidden[0..|stream|] == hidden;
    RedactInterval(stream, hidden, start, end);
    var v, rest := stream[end..], hidden[end..];
    RedactVerbatim(v, rest, |v|);
    assert v[|v|..] == [] && v[..|v|] == v;
    NothingRedacted(rest[|v|..]);
  }

  /** A value whose first character it has only once, in a stream that repeats the rest of it. */
  lemma OccursOnce(stream: Text, member: Text, at: nat, i: nat)
    requires |member| >= 2 && (forall k :: 1 <= k < |member| ==> member[k] != member[0])
    requires at <= 1 && stream == member[..at] + member + member[1..] && i < |stream|
    ensures Covered(stream, [member], i) <==> at <= i < at + |member|
  {
    var members := [member];
    forall p: nat | Occurs(stream, member, p) ensures p == at {
      assert stream[p..p + |member|][0] == stream[p] && stream[p..p + |member|][1] == stream[p + 1];
    }
    assert stream[at..at + |member|] == member;
    assert Occurs(stream, member, at);
    if at <= i < at + |member| {
      assert CoveredBy(stream, members[0], i);
    }
  }

  /** A value shorter than the marker is removed without one, and what stood around it can spell it. */
  lemma ShortValueCanBeRead(member: Text)
    requires 2 <= |member| < |MARKER| && forall k :: 1 <= k < |member| ==> member[k] != member[0]
    ensures var stream := member[..1] + member + member[1..];
            Redacted(stream, [member], 0, |stream|) == member && Occurs(member, member, 0)
  {
    hide Redacted, Covered;
    var stream := member[..1] + member + member[1..];
    forall i | 0 <= i < |stream| ensures Covered(stream, [member], i) <==> 1 <= i < 1 + |member| {
      OccursOnce(stream, member, 1, i);
    }
    RedactsTheMiddle(stream, [member], 1, 1 + |member|);
    assert stream[..1] + [] + stream[1 + |member|..] == member;
  }

  /** A value that begins with the marker's last character is read off the marker and what follows it. */
  lemma ValueCanBeReadOffTheMarker(member: Text)
    requires |member| >= |MARKER| && member[0] == MARKER[|MARKER| - 1] && forall k :: 1 <= k < |member| ==>
      member[k] != member[0]
    ensures var stream := member + member[1..];
            Occurs(Redacted(stream, [member], 0, |stream|), member, |MARKER| - 1)
  {
    hide Redacted, Covered;
    var stream := member + member[1..];
    assert stream == member[..0] + member + member[1..];
    forall i | 0 <= i < |stream| ensures Covered(stream, [member], i) <==> 0 <= i < |member| {
      OccursOnce(stream, member, 0, i);
    }
    RedactsTheMiddle(stream, [member], 0, |member|);
    var text := Redacted(stream, [member], 0, |stream|);
    assert text == MARKER + member[1..];
    assert text[|MARKER| - 1..|MARKER| - 1 + |member|] == member;
  }

  /** Sixteen different characters. */
  const SECRET: Text := [0x61, 0x62, 0x63, 0x64, 0x65, 0x66, 0x67, 0x68, 0x69, 0x6A, 0x6B, 0x6C, 0x6D, 0x6E, 0x6F, 0x70]

  /** Text before a gap, and after it, that shows more of the value than the trimming looks for. */
  const HEAD: Text := [0x78] + SECRET[..8] + SECRET[..1]
  const TAIL: Text := SECRET[15..] + SECRET[8..]

  lemma SecretIsDistinct()
    ensures Distinct([SECRET])
  {
    ApartWithoutItsUnits(SECRET);
  }

  lemma SecretIsTrimmed()
    ensures TrailingDrop(HEAD, [SECRET], 1) && LeadingDrop(TAIL, [SECRET], 1)
  {
    var members := [SECRET];
    assert HEAD[9..] == SECRET[..1] == members[0][..1];
    assert TAIL[..1] == SECRET[15..] == members[0][15..];
    forall p | 0 <= p < 9 ensures !ProperPrefix(HEAD[p..], members) {
      var c := HEAD[p..];
      assert c[0] == HEAD[p] && c[9 - p] == HEAD[9] == SECRET[0];
    }
    forall n | 1 < n <= |TAIL| ensures !ProperSuffix(TAIL[..n], members) {
      var c := TAIL[..n];
      assert c[0] == TAIL[0] == SECRET[15];
    }
  }

  lemma SecretIsAbsent(m: nat, p: nat)
    requires m < |[SECRET]|
    ensures !Occurs(HEAD, [SECRET][m], p) && !Occurs(TAIL, [SECRET][m], p)
  {
  }

  /**
   Across a gap even a value no other condition excludes can appear: the head shows eight characters of it and
   ends in one more that is dropped, so does the tail, and what is left of them meets.
   */
  lemma GapCanShowAValue(middle: Text)
    ensures |SECRET| == 16 && Distinct([SECRET]) && (forall j, k :: 0 <= j < k < 16 ==> SECRET[j] != SECRET[k])
    ensures TrailingDrop(HEAD, [SECRET], 1) && LeadingDrop(TAIL, [SECRET], 1)
    ensures GapRedacted(HEAD, middle, TAIL, [SECRET], 9, 1, 17) == [0x78] + SECRET
    ensures Occurs([0x78] + SECRET, SECRET, 1)
  {
    hide GapRedacted, Redacted, TrailingDrop, LeadingDrop, Distinct, Occurs;
    SecretIsDistinct();
    SecretIsTrimmed();
    GapHidesAll(HEAD, middle, TAIL, [SECRET], 1, 1, 17);
    forall m: nat, p: nat | m < |[SECRET]| ensures !Occurs(HEAD, [SECRET][m], p) && !Occurs(TAIL, [SECRET][m], p) {
      SecretIsAbsent(m, p);
    }
    Untouched(HEAD, [SECRET], 0, 9);
    Untouched(TAIL, [SECRET], 1, 9);
    assert HEAD[0..9] == [0x78] + SECRET[..8] && TAIL[1..9] == SECRET[8..];
    assert Occurs([0x78] + SECRET, SECRET, 1) by { StandsAfter([0x78], SECRET); }
  }

  lemma StandsAfter(before: Text, member: Text)
    requires member != []
    ensures Occurs(before + member, member, |before|)
  {
  }
}
