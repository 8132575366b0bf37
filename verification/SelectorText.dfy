/** Selectors as text: the members a reader writes, where they are placed, and the continuation a result prints. */
module SelectorText {
  import opened Text
  import opened Decimal
  import opened Selectors

  /** The five member forms: one line, a span, a count of lines, all from a line on, and the last lines. */
  datatype Member = One(n: nat) | Span(n: nat, m: nat) | Count(n: nat, k: nat) | Through(n: nat) | Final(k: nat)

  /** The zero-based lines a member means in a source of `count` lines. */
  predicate Denotes(member: Member, count: nat, line: nat) {
    match member
    case One(n) => line + 1 == n
    case Span(n, m) => n <= line + 1 <= m
    case Count(n, k) => n <= line + 1 < n + k
    case Through(n) => n <= line + 1 && line < count
    case Final(k) => count <= line + k && line < count
  }

  predicate Valid(member: Member) {
    match member
    case One(n) => 1 <= n <= MAX_SAFE_INTEGER
    case Span(n, m) => 1 <= n <= m <= MAX_SAFE_INTEGER
    case Count(n, k) => 1 <= n && 1 <= k && n + k - 1 <= MAX_SAFE_INTEGER
    case Through(n) => 1 <= n <= MAX_SAFE_INTEGER
    case Final(k) => 1 <= k <= MAX_SAFE_INTEGER
  }

  /** The interval a member stands for, without lines when it starts after the source ends. */
  function Place(member: Member, count: nat): Interval
    requires Valid(member)
  {
    match member
    case One(n) => Interval(n - 1, 1)
    case Span(n, m) => Interval(n - 1, m - n + 1)
    case Count(n, k) => Interval(n - 1, k)
    case Through(n) => Interval(n - 1, if count >= n then count - n + 1 else 0)
    case Final(k) =>
      var start := if count - k + 1 > 1 then count - k + 1 else 1;
      Interval(start - 1, count - start + 1)
  }

  lemma PlacedDenotes(member: Member, count: nat, line: nat)
    requires Valid(member)
    ensures Holds(Place(member, count), line) <==> Denotes(member, count, line)
  {
  }

  ghost predicate DenotesAny(members: seq<Member>, count: nat, line: nat) {
    exists k :: 0 <= k < |members| && Denotes(members[k], count, line)
  }

  ghost predicate AllValid(members: seq<Member>) {
    forall k :: 0 <= k < |members| ==> Valid(members[k])
  }

  // Placement.

  datatype Window =
    /** The first requested start is past the last line; the reader refuses it. */
    | PastEnd(offset: nat)
    | Single(range: Interval)
    | Ranges(ranges: seq<Interval>, expanded: seq<Interval>)

  ghost predicate WindowSelects(w: Window, line: nat) {
    match w
    case PastEnd(_) => false
    case Single(range) => Holds(range, line)
    case Ranges(ranges, _) => Selects(ranges, line)
  }

  method NonEmptyPlaces(members: seq<Member>, count: nat) returns (first: nat, places: seq<Interval>, pastEnd: bool)
    requires AllValid(members) && members != []
    ensures forall k :: 0 <= k < |members| ==> first <= Place(members[k], count).offset
    ensures exists k :: 0 <= k < |members| && Place(members[k], count).offset == first
    ensures pastEnd <==> exists k :: 0 <= k < |members| && Place(members[k], count) == Interval(first, 0)
    ensures NonEmpty(places) && |places| <= |members| && (!pastEnd ==> places != [])
    ensures !pastEnd && |members| == 1 ==> places == [Place(members[0], count)]
    ensures forall line: nat :: Selects(places, line) <==> DenotesAny(members, count, line)
  {
    first := Place(members[0], count).offset;
    places := [];
    var k := 0;
    while k < |members|
      invariant k <= |members| && NonEmpty(places) && |places| <= k
      invariant forall j :: 0 <= j < k ==> first <= Place(members[j], count).offset
      invariant exists j :: 0 <= j < |members| && Place(members[j], count).offset == first
      invariant k <= 1 ==> first == Place(members[0], count).offset
      invariant k == 1 ==> places == if Place(members[0], count).limit > 0 then [Place(members[0], count)] else []
      invariant k > 0 && places == [] ==> forall j :: 0 <= j < k ==> Place(members[j], count).limit == 0
      invariant forall line: nat :: Selects(places, line) <==> DenotesAny(members[..k], count, line)
    {
      var p := Place(members[k], count);
      if p.offset < first { first := p.offset; }
      ghost var before := places;
      if p.limit > 0 { places := places + [p]; }
      forall line: nat ensures Selects(places, line) <==> DenotesAny(members[..k + 1], count, line) {
        SelectsAppend(before, p, line);
        PlacedDenotes(members[k], count, line);
        DenotesOneMore(members, k, count, line);
      }
      k := k + 1;
    }
    assert members[..k] == members;
    pastEnd := exists j :: 0 <= j < |members| && Place(members[j], count) == Interval(first, 0);
  }

  lemma DenotesOneMore(members: seq<Member>, k: nat, count: nat, line: nat)
    requires k < |members|
    ensures DenotesAny(members[..k + 1], count, line) <==>
      DenotesAny(members[..k], count, line) || Denotes(members[k], count, line)
  {
    if DenotesAny(members[..k], count, line) {
      var j :| 0 <= j < k && Denotes(members[..k][j], count, line);
      assert Denotes(members[..k + 1][j], count, line);
    }
    if Denotes(members[k], count, line) {
      assert Denotes(members[..k + 1][k], count, line);
    }
    if DenotesAny(members[..k + 1], count, line) {
      var j :| 0 <= j < k + 1 && Denotes(members[..k + 1][j], count, line);
      assert j < k ==> Denotes(members[..k][j], count, line);
    }
  }

  /** When the least start is past the end, nothing that was asked for exists. */
  lemma PastEndIsEmpty(members: seq<Member>, count: nat, first: nat, line: nat)
    requires AllValid(members) && line < count
    requires forall k :: 0 <= k < |members| ==> first <= Place(members[k], count).offset
    requires exists k :: 0 <= k < |members| && Place(members[k], count) == Interval(first, 0)
    ensures !DenotesAny(members, count, line)
  {
    var k :| 0 <= k < |members| && Place(members[k], count) == Interval(first, 0);
    assert first >= count;
    if DenotesAny(members, count, line) {
      var j :| 0 <= j < |members| && Denotes(members[j], count, line);
      PlacedDenotes(members[j], count, line);
      assert false;
    }
  }

  /** A member with the least start holds no line. */
  ghost predicate LeastIsEmpty(members: seq<Member>, count: nat)
    requires AllValid(members)
  {
    exists k :: 0 <= k < |members| && Place(members[k], count).limit == 0
      && forall j :: 0 <= j < |members| ==> Place(members[k], count).offset <= Place(members[j], count).offset
  }

  /**
   Members against a source of `count` lines: the window holds exactly the union of what the members
   mean, or is refused when the least start is an empty member's, and then no line of the source was meant.
   */
  method ResolveSelector(members: seq<Member>, count: nat, raw: bool) returns (w: Window)
    requires AllValid(members) && members != []
    ensures forall line: nat :: line < count ==> (WindowSelects(w, line) <==> DenotesAny(members, count, line))
    ensures !w.PastEnd? ==> forall line: nat :: WindowSelects(w, line) <==> DenotesAny(members, count, line)
    ensures w.PastEnd? <==> LeastIsEmpty(members, count)
    ensures w.PastEnd? ==> forall k :: 0 <= k < |members| ==> w.offset <= Place(members[k], count).offset
    ensures w.Single? <==> !w.PastEnd? && |members| == 1
    ensures w.Ranges? ==> Canonical(w.ranges) && Canonical(w.expanded) && |w.ranges| <= |members|
    ensures w.Ranges? && raw ==> w.expanded == w.ranges
    ensures w.Ranges? && !raw ==> forall line: nat :: Selects(w.expanded, line) <==> Near(w.ranges, line)
  {
    var first, places, pastEnd := NonEmptyPlaces(members, count);
    if pastEnd {
      forall line: nat | line < count ensures !DenotesAny(members, count, line) {
        PastEndIsEmpty(members, count, first, line);
      }
      return PastEnd(first);
    }
    var ranges := MergeIntervals(places);
    if |members| == 1 {
      SingleStays(places, ranges);
      return Single(ranges[0]);
    }
    if raw { return Ranges(ranges, ranges); }
    var expanded := ExpandRanges(ranges);
    return Ranges(ranges, expanded);
  }

  lemma SingleStays(places: seq<Interval>, ranges: seq<Interval>)
    requires |places| == 1 && NonEmpty(places) && Canonical(ranges) && ranges != []
    requires forall line: nat :: Selects(ranges, line) <==> Selects(places, line)
    ensures ranges == places && forall line: nat :: Selects(ranges, line) <==> Holds(ranges[0], line)
  {
    CanonicalIsUnique(ranges, places);
    forall line: nat ensures Selects(ranges, line) <==> Holds(ranges[0], line) {
      if Holds(ranges[0], line) {
        assert Selects(ranges, line);
      }
    }
  }

  // Text.

  /** How many digits the text starts with. */
  function DigitRun(s: Text): (n: nat)
    ensures n <= |s| && AllDigits(s[..n]) && (n < |s| ==> !IsDigit(s[n]))
  {
    if s == [] || !IsDigit(s[0]) then 0 else
      var n := DigitRun(s[1..]);
      assert s[..n + 1] == [s[0]] + s[1..][..n];
      n + 1
  }

  function Checked(member: Member): Option<Member> {
    if Valid(member) then Some(member) else None
  }

  function ParseMember(s: Text): (r: Option<Member>)
    ensures r.Some? ==> Valid(r.value)
  {
    var d := DigitRun(s);
    if d == |s| then (if d == 0 then None else Checked(One(Value(s))))
    else
      var rest := s[d + 1..];
      if d == 0 then (if s[0] == DASH && rest != [] && AllDigits(rest) then Checked(Final(Value(rest))) else None)
      else if s[d] == DASH && rest == [] then Checked(Through(Value(s[..d])))
      else if s[d] == DASH && AllDigits(rest) then Checked(Span(Value(s[..d]), Value(rest)))
      else if s[d] == PLUS && rest != [] && AllDigits(rest) then Checked(Count(Value(s[..d]), Value(rest)))
      else None
  }

  function ParseAll(pieces: seq<Text>): (members: Option<seq<Member>>)
    ensures members.Some? ==> |members.value| == |pieces| && AllValid(members.value)
  {
    if pieces == [] then Some([])
    else if ParseMember(pieces[0]) == None || ParseAll(pieces[1..]) == None then None
    else Some([ParseMember(pieces[0]).value] + ParseAll(pieces[1..]).value)
  }

  function ParseSelector(s: Text): (members: Option<seq<Member>>)
    ensures members.Some? ==> AllValid(members.value) && 0 < |members.value| <= MAX_SELECTOR_RANGES
  {
    if |Split(s, COMMA)| > MAX_SELECTOR_RANGES then None else ParseAll(Split(s, COMMA))
  }

  function FormatRange(start: nat, end: nat): Text {
    Digits(start) + [DASH] + Digits(end)
  }

  function FormatOpen(start: nat): Text {
    Digits(start) + [DASH]
  }

  lemma DigitsThen(n: nat, rest: Text)
    ensures COMMA !in Digits(n) && DASH !in Digits(n)
    ensures rest == [] || !IsDigit(rest[0]) ==> DigitRun(Digits(n) + rest) == |Digits(n)|
  {
    var d := Digits(n);
    hide DigitRun, Digits;
    var t := d + rest;
    assert forall k :: 0 <= k < |d| ==> t[k] == d[k] && IsDigit(t[k]);
    assert rest != [] ==> t[|d|] == rest[0];
    RunIs(t, |d|);
  }

  lemma RunIs(t: Text, n: nat)
    requires n <= |t| && (forall k :: 0 <= k < n ==> IsDigit(t[k]))
    ensures n == |t| || !IsDigit(t[n]) ==> DigitRun(t) == n
  {
    hide DigitRun;
    var run := DigitRun(t);
    assert forall k :: 0 <= k < run ==> t[..run][k] == t[k];
  }

  lemma SpanReads(a: Text, b: Text)
    requires a != [] && AllDigits(a) && b != [] && AllDigits(b) && DigitRun(a + [DASH] + b) == |a|
    ensures ParseMember(a + [DASH] + b) == Checked(Span(Value(a), Value(b)))
  {
    hide DigitRun, Value;
    var s := a + [DASH] + b;
    assert s[|a|] == DASH && s[..|a|] == a && s[|a| + 1..] == b;
  }

  /** A printed range reads back as its bounds, which must be in order to be accepted. */
  lemma RangeReads(start: nat, end: nat)
    ensures ParseMember(FormatRange(start, end)) == Checked(Span(start, end)) && COMMA !in FormatRange(start, end)
  {
    hide ParseMember, Value, Digits, DigitRun;
    DigitsThen(start, [DASH] + Digits(end));
    DigitsThen(end, []);
    assert Digits(start) + [DASH] + Digits(end) == Digits(start) + ([DASH] + Digits(end));
    ValueOfDigits(start);
    ValueOfDigits(end);
    SpanReads(Digits(start), Digits(end));
  }

  lemma RangeParses(start: nat, end: nat)
    requires 1 <= start <= end <= MAX_SAFE_INTEGER
    ensures ParseMember(FormatRange(start, end)) == Some(Span(start, end)) && COMMA !in FormatRange(start, end)
  {
    hide ParseMember, FormatRange;
    RangeReads(start, end);
  }

  lemma OnePiece(piece: Text, member: Member)
    requires COMMA !in piece && ParseMember(piece) == Some(member)
    ensures ParseSelector(piece) == Some([member])
  {
    hide ParseMember;
    SplitPiece(piece, [], COMMA);
    var pieces := [piece];
    assert pieces[1..] == [] && ParseAll([]) == Some([]);
    assert [member] + [] == [member];
  }

  lemma OpenParses(start: nat)
    requires 1 <= start <= MAX_SAFE_INTEGER
    ensures ParseMember(FormatOpen(start)) == Some(Through(start)) && COMMA !in FormatOpen(start)
  {
    var s := FormatOpen(start);
    DigitsThen(start, [DASH]);
    ValueOfDigits(start);
    assert s[..|Digits(start)|] == Digits(start) && s[|Digits(start)| + 1..] == [];
  }
}
