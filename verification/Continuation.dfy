/** The selector a cut result prints, and that a reader who uses it gets exactly the lines still owed. */
module Continuation {
  import opened Text
  import opened Decimal
  import opened Selectors
  import opened SelectorText

  /** One-based, inclusive. */
  datatype LineRange = LineRange(startLine: nat, endLine: nat)

  /** What follows line `nextOffset`: up to the requested end, or without an end when nothing of the request is left. */
  function RangeSelector(nextOffset: nat, endLine: Option<nat>): Text {
    if endLine == None || nextOffset >= endLine.value then FormatOpen(nextOffset + 1)
    else FormatRange(nextOffset + 1, endLine.value)
  }

  /** The first range that reaches `line`. */
  function FindReaching(ranges: seq<LineRange>, line: nat): (at: nat)
    ensures at <= |ranges| && (forall k :: 0 <= k < at ==> ranges[k].endLine < line)
    ensures at < |ranges| ==> line <= ranges[at].endLine
  {
    if ranges == [] || line <= ranges[0].endLine then 0 else 1 + FindReaching(ranges[1..], line)
  }

  /** The ranges still owed: the one the read stopped in from the resume line on, and those after it. */
  function Owed(ranges: seq<LineRange>, nextOffset: nat): seq<LineRange> {
    var at := FindReaching(ranges, nextOffset + 1);
    if at == |ranges| then []
    else [LineRange(if nextOffset + 1 >= ranges[at].startLine then nextOffset + 1 else ranges[at].startLine,
      ranges[at].endLine)] + ranges[at + 1..]
  }

  function Formats(ranges: seq<LineRange>): (pieces: seq<Text>)
    ensures |pieces| == |ranges| && forall k :: 0 <= k < |ranges| ==>
      pieces[k] == FormatRange(ranges[k].startLine, ranges[k].endLine)
  {
    seq(|ranges|, k requires 0 <= k < |ranges| => FormatRange(ranges[k].startLine, ranges[k].endLine))
  }

  function MultiSelector(ranges: seq<LineRange>, nextOffset: nat): Text {
    var at := FindReaching(ranges, nextOffset + 1);
    if at == |ranges| then FormatOpen(nextOffset + 1)
    else
      var member := ranges[at];
      var head := if nextOffset + 1 >= member.startLine then RangeSelector(nextOffset, Some(member.endLine))
                  else FormatRange(member.startLine, member.endLine);
      Join([head] + Formats(ranges[at + 1..]), COMMA)
  }

  function Clipped(ranges: seq<LineRange>, lineCount: nat): (r: seq<LineRange>)
    ensures |r| == |ranges|
    ensures forall k :: 0 <= k < |r| ==>
      r[k] == LineRange(ranges[k].startLine, if ranges[k].endLine < lineCount then ranges[k].endLine else lineCount)
  {
    seq(|ranges|, k requires 0 <= k < |ranges| =>
      LineRange(ranges[k].startLine, if ranges[k].endLine < lineCount then ranges[k].endLine else lineCount))
  }

  /** The selector that resumes a file read, by the form of its request. */
  function ResumeSelector(lineCount: Option<nat>, requestedEnd: Option<nat>, requestedRanges: seq<LineRange>,
      nextOffset: nat): Text {
    var end := if lineCount.Some? && requestedEnd.Some? && requestedEnd.value >= lineCount.value then None
      else requestedEnd;
    var ranges := if lineCount.Some? then Clipped(requestedRanges, lineCount.value) else requestedRanges;
    if ranges != [] then MultiSelector(ranges, nextOffset) else RangeSelector(nextOffset, end)
  }

  ghost predicate Asked(ranges: seq<LineRange>, line: nat) {
    exists k :: 0 <= k < |ranges| && ranges[k].startLine <= line + 1 <= ranges[k].endLine
  }

  /** Ranges as a merged request stores them. */
  ghost predicate Separate(ranges: seq<LineRange>) {
    && (forall k :: 0 <= k < |ranges| ==> 1 <= ranges[k].startLine)
    && (forall j, k :: 0 <= j < k < |ranges| ==> ranges[j].endLine < ranges[k].startLine)
  }

  ghost predicate Upright(ranges: seq<LineRange>) {
    forall k :: 0 <= k < |ranges| ==> ranges[k].startLine <= ranges[k].endLine <= MAX_SAFE_INTEGER
  }

  lemma FormatsCons(first: LineRange, rest: seq<LineRange>)
    ensures Formats([first] + rest) == [FormatRange(first.startLine, first.endLine)] + Formats(rest)
  {
    hide FormatRange;
  }

  lemma MultiIsOwed(ranges: seq<LineRange>, nextOffset: nat)
    requires FindReaching(ranges, nextOffset + 1) < |ranges|
    ensures Owed(ranges, nextOffset) != []
      && MultiSelector(ranges, nextOffset) == Join(Formats(Owed(ranges, nextOffset)), COMMA)
  {
    hide FormatRange, FormatOpen, Join, FindReaching, Formats;
    var at := FindReaching(ranges, nextOffset + 1);
    var first := Owed(ranges, nextOffset)[0];
    FormatsCons(first, ranges[at + 1..]);
  }

  lemma OwedRange(ranges: seq<LineRange>, nextOffset: nat, k: nat, line: nat)
    requires Separate(ranges) && k < |ranges| && ranges[k].startLine <= line + 1 <= ranges[k].endLine
      && nextOffset <= line
    ensures Asked(Owed(ranges, nextOffset), line)
  {
    var at, owed := FindReaching(ranges, nextOffset + 1), Owed(ranges, nextOffset);
    hide FindReaching;
    assert k >= at;
    assert k > at ==> owed[k - at] == ranges[k];
    assert owed[k - at].startLine <= line + 1 <= owed[k - at].endLine;
  }

  lemma AskedRange(ranges: seq<LineRange>, nextOffset: nat, k: nat, line: nat)
    requires Separate(ranges) && k < |Owed(ranges, nextOffset)|
    requires Owed(ranges, nextOffset)[k].startLine <= line + 1 <= Owed(ranges, nextOffset)[k].endLine
    ensures Asked(ranges, line) && nextOffset <= line
  {
    var at, owed := FindReaching(ranges, nextOffset + 1), Owed(ranges, nextOffset);
    hide FindReaching;
    assert k > 0 ==> owed[k] == ranges[at + k];
    assert ranges[at + k].startLine <= line + 1 <= ranges[at + k].endLine;
  }

  /** The lines still owed are those asked for from the resume line on. */
  lemma OwedLines(ranges: seq<LineRange>, nextOffset: nat, line: nat)
    requires Separate(ranges)
    ensures Asked(Owed(ranges, nextOffset), line) <==> Asked(ranges, line) && nextOffset <= line
  {
    hide Owed;
    if Asked(ranges, line) && nextOffset <= line {
      var k :| 0 <= k < |ranges| && ranges[k].startLine <= line + 1 <= ranges[k].endLine;
      OwedRange(ranges, nextOffset, k, line);
    }
    if Asked(Owed(ranges, nextOffset), line) {
      var owed := Owed(ranges, nextOffset);
      var k :| 0 <= k < |owed| && owed[k].startLine <= line + 1 <= owed[k].endLine;
      AskedRange(ranges, nextOffset, k, line);
    }
  }

  lemma OwedUpright(ranges: seq<LineRange>, nextOffset: nat)
    requires Separate(ranges) && Upright(ranges)
    ensures var owed := Owed(ranges, nextOffset);
            |owed| <= |ranges| && Upright(owed) && forall k :: 0 <= k < |owed| ==> owed[k].startLine >= 1
  {
    var at, owed := FindReaching(ranges, nextOffset + 1), Owed(ranges, nextOffset);
    hide FindReaching;
    forall k | 0 <= k < |owed| ensures 1 <= owed[k].startLine <= owed[k].endLine <= MAX_SAFE_INTEGER {
      assert k > 0 ==> owed[k] == ranges[at + k];
      assert k == 0 ==> owed[k].endLine == ranges[at].endLine;
    }
  }

  function Spans(ranges: seq<LineRange>): (members: seq<Member>)
    ensures |members| == |ranges| && forall k :: 0 <= k < |ranges| ==>
      members[k] == Span(ranges[k].startLine, ranges[k].endLine)
  {
    seq(|ranges|, k requires 0 <= k < |ranges| => Span(ranges[k].startLine, ranges[k].endLine))
  }

  lemma SpansDenote(ranges: seq<LineRange>, count: nat, line: nat)
    ensures DenotesAny(Spans(ranges), count, line) <==> Asked(ranges, line)
  {
    if Asked(ranges, line) {
      var k :| 0 <= k < |ranges| && ranges[k].startLine <= line + 1 <= ranges[k].endLine;
      assert Denotes(Spans(ranges)[k], count, line);
    }
  }

  lemma {:induction false} FormatsParse(ranges: seq<LineRange>)
    requires Upright(ranges) && forall k :: 0 <= k < |ranges| ==> ranges[k].startLine >= 1
    ensures ParseAll(Formats(ranges)) == Some(Spans(ranges)) && forall k :: 0 <= k < |ranges| ==>
      COMMA !in Formats(ranges)[k]
    decreases |ranges|
  {
    hide ParseMember, FormatRange;
    if ranges == [] {
    } else {
      var rest := ranges[1..];
      RangeParses(ranges[0].startLine, ranges[0].endLine);
      FormatsParse(rest);
      assert Formats(ranges)[1..] == Formats(rest);
      assert Spans(ranges) == [Span(ranges[0].startLine, ranges[0].endLine)] + Spans(rest);
      forall k | 0 <= k < |ranges| ensures COMMA !in Formats(ranges)[k] {
        assert k > 0 ==> Formats(ranges)[k] == Formats(rest)[k - 1];
      }
    }
  }

  /** The printed list reads back as exactly the ranges still owed. */
  lemma OwedParses(ranges: seq<LineRange>, nextOffset: nat)
    requires Separate(ranges) && Upright(ranges) && |ranges| <= MAX_SELECTOR_RANGES
      && FindReaching(ranges, nextOffset + 1) < |ranges|
    ensures ParseSelector(MultiSelector(ranges, nextOffset)) == Some(Spans(Owed(ranges, nextOffset)))
  {
    hide MultiSelector, ParseAll, Split, Join;
    var owed := Owed(ranges, nextOffset);
    MultiIsOwed(ranges, nextOffset);
    OwedUpright(ranges, nextOffset);
    FormatsParse(owed);
    SplitJoin(Formats(owed), COMMA);
  }

  lemma ClippedLines(ranges: seq<LineRange>, lineCount: nat, line: nat)
    requires line < lineCount
    ensures Asked(Clipped(ranges, lineCount), line) <==> Asked(ranges, line)
  {
    if Asked(ranges, line) {
      var k :| 0 <= k < |ranges| && ranges[k].startLine <= line + 1 <= ranges[k].endLine;
      assert Clipped(ranges, lineCount)[k].startLine <= line + 1 <= Clipped(ranges, lineCount)[k].endLine;
    }
    if Asked(Clipped(ranges, lineCount), line) {
      var k :| 0 <= k < |ranges|
        && Clipped(ranges, lineCount)[k].startLine <= line + 1 <= Clipped(ranges, lineCount)[k].endLine;
      assert ranges[k].startLine <= line + 1 <= ranges[k].endLine;
    }
  }

  /**
   A cut comma read over a source of known length, whose ranges all start inside it and of which some line
   is still owed: the printed selector parses, and means exactly the requested lines from the resume line on.
   */
  lemma MultiContinues(ranges: seq<LineRange>, lineCount: nat, requestedEnd: Option<nat>, nextOffset: nat, owed: nat)
    requires Separate(ranges) && 0 < |ranges| <= MAX_SELECTOR_RANGES && lineCount <= MAX_SAFE_INTEGER
    requires forall k :: 0 <= k < |ranges| ==>
      ranges[k].startLine <= ranges[k].endLine && ranges[k].startLine <= lineCount
    requires nextOffset <= owed < lineCount && Asked(ranges, owed)
    ensures var parsed := ParseSelector(ResumeSelector(Some(lineCount), requestedEnd, ranges, nextOffset));
            && parsed.Some?
            && forall line: nat :: line < lineCount ==>
                 (DenotesAny(parsed.value, lineCount, line) <==> Asked(ranges, line) && nextOffset <= line)
  {
    hide ParseSelector, MultiSelector, Owed, Spans;
    var clipped := Clipped(ranges, lineCount);
    assert Separate(clipped) && Upright(clipped);
    ClippedLines(ranges, lineCount, owed);
    assert FindReaching(clipped, nextOffset + 1) < |clipped|;
    OwedParses(clipped, nextOffset);
    forall line: nat | line < lineCount
      ensures DenotesAny(Spans(Owed(clipped, nextOffset)), lineCount, line) <==>
        Asked(ranges, line) && nextOffset <= line
    {
      SpansDenote(Owed(clipped, nextOffset), lineCount, line);
      OwedLines(clipped, nextOffset, line);
      ClippedLines(ranges, lineCount, line);
    }
  }

  /** The same for one range: open-ended when the request reaches the last line. */
  lemma SingleContinues(lineCount: nat, requestedEnd: nat, nextOffset: nat)
    requires nextOffset < requestedEnd && nextOffset < lineCount <= MAX_SAFE_INTEGER
    ensures var parsed := ParseSelector(ResumeSelector(Some(lineCount), Some(requestedEnd), [], nextOffset));
            && parsed.Some?
            && forall line: nat :: line < lineCount ==>
                 (DenotesAny(parsed.value, lineCount, line) <==> nextOffset <= line && line < requestedEnd)
  {
    hide ParseMember, FormatRange, FormatOpen;
    var text := ResumeSelector(Some(lineCount), Some(requestedEnd), [], nextOffset);
    var member := if requestedEnd >= lineCount then Through(nextOffset + 1) else Span(nextOffset + 1, requestedEnd);
    if requestedEnd >= lineCount { OpenParses(nextOffset + 1); } else { RangeParses(nextOffset + 1, requestedEnd); }
    OnePiece(text, member);
    hide ParseSelector;
    forall line: nat | line < lineCount
      ensures DenotesAny([member], lineCount, line) <==> nextOffset <= line && line < requestedEnd
    {
      assert Denotes([member][0], lineCount, line) <==> nextOffset <= line && line < requestedEnd;
    }
  }

  /**
   Any cut single range over a source of known length: the selector means the requested lines from the resume
   line on, or everything from there when the request is spent or had no end.
   */
  lemma SingleResumes(lineCount: nat, requestedEnd: Option<nat>, nextOffset: nat)
    requires nextOffset < lineCount <= MAX_SAFE_INTEGER
    ensures var parsed := ParseSelector(ResumeSelector(Some(lineCount), requestedEnd, [], nextOffset));
            && parsed.Some?
            && forall line: nat :: line < lineCount ==>
                 (DenotesAny(parsed.value, lineCount, line) <==>
                    nextOffset <= line
                      && (requestedEnd == None || requestedEnd.value <= nextOffset || line < requestedEnd.value))
  {
    hide ParseSelector, FormatOpen;
    if requestedEnd.Some? && nextOffset < requestedEnd.value {
      SingleContinues(lineCount, requestedEnd.value, nextOffset);
    } else {
      var text := ResumeSelector(Some(lineCount), requestedEnd, [], nextOffset);
      assert text == FormatOpen(nextOffset + 1);
      OpenMeans(lineCount, nextOffset);
    }
  }

  lemma OpenMeans(lineCount: nat, nextOffset: nat)
    requires nextOffset < lineCount <= MAX_SAFE_INTEGER
    ensures var parsed := ParseSelector(FormatOpen(nextOffset + 1));
            parsed.Some? && forall line: nat :: line < lineCount ==>
              (DenotesAny(parsed.value, lineCount, line) <==> nextOffset <= line)
  {
    hide ParseMember, FormatOpen;
    OpenParses(nextOffset + 1);
    OnePiece(FormatOpen(nextOffset + 1), Through(nextOffset + 1));
    hide ParseSelector;
    assert ParseSelector(FormatOpen(nextOffset + 1)) == Some(Rest(nextOffset));
    forall line: nat | line < lineCount ensures DenotesAny(Rest(nextOffset), lineCount, line) <==> nextOffset <= line {
      assert Denotes(Rest(nextOffset)[0], lineCount, line) <==> nextOffset <= line;
    }
  }

  /** A range whose start is past its clipped end is printed backwards, and no reader accepts it. */
  lemma InvertedRangeIsRefused(start: nat, end: nat)
    requires start > end
    ensures ParseMember(FormatRange(start, end)) == None && COMMA !in FormatRange(start, end)
  {
    hide ParseMember, FormatRange;
    RangeReads(start, end);
  }

  lemma {:induction false} OneRefused(pieces: seq<Text>, k: nat)
    requires k < |pieces| && ParseMember(pieces[k]) == None
    ensures ParseAll(pieces) == None
    decreases k
  {
    hide ParseMember;
    if k > 0 {
      OneRefused(pieces[1..], k - 1);
    }
  }

  /** Every range starts inside the source. */
  ghost predicate AllStartInside(ranges: seq<LineRange>, lineCount: nat) {
    forall k :: 0 <= k < |ranges| ==> ranges[k].startLine <= lineCount
  }

  /** Ranges as a request names them: in order, and none backwards. */
  ghost predicate Requested(ranges: seq<LineRange>) {
    && Separate(ranges) && 0 < |ranges| <= MAX_SELECTOR_RANGES
    && forall k :: 0 <= k < |ranges| ==> ranges[k].startLine <= ranges[k].endLine
  }

  /** A range that starts past the last line makes the whole continuation unreadable, wherever it stands. */
  lemma PastEndRangeBreaksContinuation(
      ranges: seq<LineRange>, lineCount: nat, requestedEnd: Option<nat>, nextOffset: nat, k: nat)
    requires Separate(ranges) && k < |ranges| && nextOffset < lineCount < ranges[k].startLine <= ranges[k].endLine
    ensures ParseSelector(ResumeSelector(Some(lineCount), requestedEnd, ranges, nextOffset)) == None
  {
    hide ParseMember, FormatRange, ParseAll, MultiSelector;
    var clipped := Clipped(ranges, lineCount);
    var at, owed := FindReaching(clipped, nextOffset + 1), Owed(clipped, nextOffset);
    MultiIsOwed(clipped, nextOffset);
    assert owed[k - at] == clipped[k];
    InvertedRangeIsRefused(clipped[k].startLine, clipped[k].endLine);
    OneRefused(Formats(owed), k - at);
    forall j | 0 <= j < |owed| ensures COMMA !in Formats(owed)[j] {
      FormatHasNoComma(owed[j].startLine, owed[j].endLine);
    }
    SplitJoin(Formats(owed), COMMA);
  }

  /** Everything after line `nextOffset`. */
  function Rest(nextOffset: nat): seq<Member> { [Through(nextOffset + 1)] }

  /**
   When no range reaches past the resume line, what is printed is everything from there on, though nobody asked
   for it.
   */
  lemma NothingOwedReadsOn(ranges: seq<LineRange>, lineCount: nat, requestedEnd: Option<nat>, nextOffset: nat)
    requires ranges != [] && nextOffset < lineCount <= MAX_SAFE_INTEGER
    requires forall k :: 0 <= k < |ranges| ==> ranges[k].endLine <= nextOffset
    ensures ParseSelector(ResumeSelector(Some(lineCount), requestedEnd, ranges, nextOffset)) == Some(Rest(nextOffset))
    ensures forall line: nat :: line < lineCount ==>
      (DenotesAny(Rest(nextOffset), lineCount, line) <==> nextOffset <= line)
    ensures forall line: nat :: nextOffset <= line ==> !Asked(ranges, line)
  {
    hide ParseMember, FormatOpen, ParseSelector;
    assert FindReaching(Clipped(ranges, lineCount), nextOffset + 1) == |ranges|;
    OpenParses(nextOffset + 1);
    OnePiece(FormatOpen(nextOffset + 1), Through(nextOffset + 1));
    forall line: nat | line < lineCount ensures DenotesAny(Rest(nextOffset), lineCount, line) <==> nextOffset <= line {
      assert Denotes(Rest(nextOffset)[0], lineCount, line) <==> nextOffset <= line;
    }
  }

  /** A continuation reads back exactly when every range starts inside the source. */
  lemma ContinuationReads(ranges: seq<LineRange>, lineCount: nat, requestedEnd: Option<nat>, nextOffset: nat)
    requires Requested(ranges) && nextOffset < lineCount <= MAX_SAFE_INTEGER
    ensures ParseSelector(ResumeSelector(Some(lineCount), requestedEnd, ranges, nextOffset)).Some? <==>
      AllStartInside(ranges, lineCount)
  {
    hide ParseSelector, ResumeSelector;
    if !AllStartInside(ranges, lineCount) {
      var k :| 0 <= k < |ranges| && ranges[k].startLine > lineCount;
      PastEndRangeBreaksContinuation(ranges, lineCount, requestedEnd, nextOffset, k);
    } else if ranges[|ranges| - 1].endLine <= nextOffset {
      NothingOwedReadsOn(ranges, lineCount, requestedEnd, nextOffset);
    } else {
      LastIsOwed(ranges, lineCount, nextOffset);
      MultiContinues(ranges, lineCount, requestedEnd, nextOffset, OwedLine(ranges, nextOffset));
    }
  }

  /** A line still owed while the last range reaches past the resume line. */
  function OwedLine(ranges: seq<LineRange>, nextOffset: nat): nat
    requires ranges != [] && ranges[|ranges| - 1].startLine >= 1
  {
    var last := ranges[|ranges| - 1];
    if nextOffset + 1 >= last.startLine then nextOffset else last.startLine - 1
  }

  lemma LastIsOwed(ranges: seq<LineRange>, lineCount: nat, nextOffset: nat)
    requires Requested(ranges) && AllStartInside(ranges, lineCount) && nextOffset < lineCount
    requires nextOffset < ranges[|ranges| - 1].endLine
    ensures nextOffset <= OwedLine(ranges, nextOffset) < lineCount && Asked(ranges, OwedLine(ranges, nextOffset))
  {
    var last := ranges[|ranges| - 1];
    assert last.startLine <= OwedLine(ranges, nextOffset) + 1 <= last.endLine;
  }

  /** The printed selector is read, and means exactly the requested lines from the resume line on. */
  ghost predicate Continues(ranges: seq<LineRange>, lineCount: nat, requestedEnd: Option<nat>, nextOffset: nat) {
    var parsed := ParseSelector(ResumeSelector(Some(lineCount), requestedEnd, ranges, nextOffset));
    && parsed.Some?
    && forall line: nat :: line < lineCount ==>
         (DenotesAny(parsed.value, lineCount, line) <==> Asked(ranges, line) && nextOffset <= line)
  }

  /**
   A cut comma read continues as it should exactly when every range starts inside the source and the last one
   reaches past the resume line.
   */
  lemma ContinuesExactly(ranges: seq<LineRange>, lineCount: nat, requestedEnd: Option<nat>, nextOffset: nat)
    requires Requested(ranges) && nextOffset < lineCount <= MAX_SAFE_INTEGER
    ensures Continues(ranges, lineCount, requestedEnd, nextOffset)
       <==> AllStartInside(ranges, lineCount) && nextOffset < ranges[|ranges| - 1].endLine
  {
    hide ParseSelector, ResumeSelector;
    ContinuationReads(ranges, lineCount, requestedEnd, nextOffset);
    if ranges[|ranges| - 1].endLine <= nextOffset {
      NothingOwedReadsOn(ranges, lineCount, requestedEnd, nextOffset);
      assert Continues(ranges, lineCount, requestedEnd, nextOffset) ==> Asked(ranges, nextOffset);
    } else if AllStartInside(ranges, lineCount) {
      LastIsOwed(ranges, lineCount, nextOffset);
      MultiContinues(ranges, lineCount, requestedEnd, nextOffset, OwedLine(ranges, nextOffset));
    }
  }

  /** Over a source of unknown length no range is cut short, so the continuation always reads. */
  lemma UnknownLengthContinues(ranges: seq<LineRange>, requestedEnd: Option<nat>, nextOffset: nat, count: nat,
      line: nat)
    requires Requested(ranges) && Upright(ranges) && nextOffset < ranges[|ranges| - 1].endLine
    ensures var parsed := ParseSelector(ResumeSelector(None, requestedEnd, ranges, nextOffset));
            parsed.Some? && (DenotesAny(parsed.value, count, line) <==> Asked(ranges, line) && nextOffset <= line)
  {
    hide ParseSelector, MultiSelector, Owed, Spans;
    OwedParses(ranges, nextOffset);
    SpansDenote(Owed(ranges, nextOffset), count, line);
    OwedLines(ranges, nextOffset, line);
  }

  /**
   Two cuts on a line of context after the first range, in a source of ten lines: lines 1-2 and 50-60 were
   asked for, and the continuation is refused; lines 1-2 alone, and it reads lines nobody asked for.
   */
  lemma CutOnContext()
    ensures var two, one := [LineRange(1, 2), LineRange(50, 60)], [LineRange(1, 2)];
            && ParseSelector(ResumeSelector(Some(10), None, two, 2)) == None
            && ParseSelector(ResumeSelector(Some(10), None, one, 2)) == Some(Rest(2))
            && DenotesAny(Rest(2), 10, 5) && !Asked(one, 5)
  {
    hide ParseSelector, ResumeSelector;
    PastEndRangeBreaksContinuation([LineRange(1, 2), LineRange(50, 60)], 10, None, 2, 1);
    NothingOwedReadsOn([LineRange(1, 2)], 10, None, 2);
  }

  lemma FormatHasNoComma(start: nat, end: nat)
    ensures COMMA !in FormatRange(start, end)
  {
    DigitsThen(start, []);
    DigitsThen(end, []);
  }
}
