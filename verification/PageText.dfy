/** What a page of a file says: its header, its lines, and how to read on. */
module PageText {
  import opened Text
  import opened Decimal
  import opened Selectors
  import opened SelectorText
  import opened Continuation
  import opened ModelText
  import opened SourceLines

  // The parts of a rendering.

  /** The lines of a rendering, one below the other. */
  function Parts(src: Source, page: Page): (parts: seq<Text>)
    ensures parts != []
  {
    [FileHeader(src, page)] + src.attribution + (if Body(page.content) == [] then [] else [Body(page.content)])
    + (if ContinuationLine(src, page) == None then [] else [ContinuationLine(src, page).value])
  }

  lemma {:induction false} JoinBelow(first: Text, rest: seq<Text>)
    ensures Join([first] + rest, LF) == first + Below(rest)
    decreases |rest|
  {
    if rest != [] {
      assert ([first] + rest)[1..] == [rest[0]] + rest[1..] == rest;
      JoinBelow(rest[0], rest[1..]);
    }
  }

  lemma {:induction false} BelowTwo(a: seq<Text>, b: seq<Text>)
    ensures Below(a + b) == Below(a) + Below(b)
    decreases |a|
  {
    if a == [] {
      assert a + b == b;
    } else {
      assert (a + b)[1..] == a[1..] + b;
      BelowTwo(a[1..], b);
    }
  }

  lemma BelowOne(line: Text)
    ensures Below([line]) == [LF] + line
  {
  }

  /** A rendering is its header, the attribution, the page's lines and the continuation, each on lines of its own. */
  lemma RenderedParts(src: Source, page: Page)
    ensures RenderReadText(src, page) == Join(Parts(src, page), LF)
  {
    hide FileHeader, ContinuationLine, Join, Below;
    var header, body := FileHeader(src, page), if Body(page.content) == [] then [] else [Body(page.content)];
    var notice := if ContinuationLine(src, page) == None then [] else [ContinuationLine(src, page).value];
    assert Parts(src, page) == [header] + (src.attribution + body + notice);
    JoinBelow(header, src.attribution + body + notice);
    BelowTwo(src.attribution + body, notice);
    BelowTwo(src.attribution, body);
    assert Below([]) == [] by { NothingBelow(); }
    if Body(page.content) != [] { BelowOne(Body(page.content)); }
    if ContinuationLine(src, page).Some? { BelowOne(ContinuationLine(src, page).value); }
  }

  lemma NothingBelow()
    ensures Below([]) == []
  {
  }

  /** The body is the content without the newline it ends in. */
  lemma BodyOf(content: Text)
    ensures content == Body(content) + [LF]
      || (content == Body(content) && (content == [] || content[|content| - 1] != LF))
  {
  }

  // How to read on.

  function Noun(count: int): Text { if count == 1 then Lit("line") else Lit("lines") }

  function RawPrefix(src: Source): Text { if src.raw then Lit("raw:") else [] }

  /**
   The continuation of a page cut before line `n` of a source that takes selectors: it counts the lines left,
   and names the path with a selector that reads back as the requested lines from there on, or as everything
   from there when the request is spent.
   */
  lemma ContinuationSays(src: Source, page: Page, n: nat) returns (left: Text, selector: Text)
    requires page.truncated && page.nextOffset == Some(n) && !src.takesNoSelector
    requires src.lineCount.Some? && n < src.lineCount.value <= MAX_SAFE_INTEGER
    ensures ContinuationLine(src, page)
         == Some(Lit("[") + left + Lit(" more ") + Noun(src.lineCount.value - n) + Lit(". ") + Lit("Use ") + src.path
           + Lit(":")
                 + RawPrefix(src) + selector + Lit(" to continue]"))
    ensures AllDigits(left) && Value(left) == src.lineCount.value - n
    ensures var parsed := ParseSelector(selector);
            && parsed.Some?
            && forall line: nat :: line < src.lineCount.value ==>
                 (DenotesAny(parsed.value, src.lineCount.value, line) <==>
                    n <= line
                      && (page.requested == None || page.requested.value.endLine <= n
                      || line < page.requested.value.endLine))
  {
    hide ParseSelector, ResumeSelector, Digits, Lit;
    left, selector := Digits(src.lineCount.value - n), ResumeSelector(src.lineCount, RequestedEnd(page), [], n);
    ValueOfDigits(src.lineCount.value - n);
    SingleResumes(src.lineCount.value, RequestedEnd(page), n);
    assert Lit("[") + (left + Lit(" more ") + Noun(src.lineCount.value - n) + Lit(". ")) + Lit("Use ")
        == Lit("[") + left + Lit(" more ") + Noun(src.lineCount.value - n) + Lit(". ") + Lit("Use ");
  }

  /** Over a source of unknown length it names the same, without a count. */
  lemma ContinuationOfUnknown(src: Source, page: Page, n: nat) returns (selector: Text)
    requires page.truncated && page.nextOffset == Some(n) && !src.takesNoSelector && src.lineCount == None
    requires n < MAX_SAFE_INTEGER && (page.requested.Some? ==> page.requested.value.endLine <= MAX_SAFE_INTEGER)
    ensures ContinuationLine(src, page)
         == Some(Lit("[") + Lit("Use ") + src.path + Lit(":") + RawPrefix(src) + selector + Lit(" to continue]"))
    ensures var parsed := ParseSelector(selector);
            && parsed.Some?
            && forall count: nat, line: nat :: line < count ==>
                 (DenotesAny(parsed.value, count, line) <==>
                    n <= line
                      && (page.requested == None || page.requested.value.endLine <= n
                      || line < page.requested.value.endLine))
  {
    hide ParseSelector, ParseMember, FormatOpen, FormatRange, Lit;
    selector := ResumeSelector(None, RequestedEnd(page), [], n);
    assert Lit("[") + [] == Lit("[");
    var end := RequestedEnd(page);
    var member := if end == None || n >= end.value then Through(n + 1) else Span(n + 1, end.value);
    if member.Through? { OpenParses(n + 1); } else { RangeParses(n + 1, end.value); }
    OneMember(selector, member);
    forall count: nat, line: nat | line < count
      ensures DenotesAny([member], count, line) <==> n <= line && (end == None || end.value <= n || line < end.value)
    {
      assert Denotes([member][0], count, line) <==> n <= line && (end == None || end.value <= n || line < end.value);
    }
  }

  lemma OneMember(text: Text, member: Member)
    requires ParseMember(text) == Some(member) && COMMA !in text
    ensures ParseSelector(text) == Some([member])
  {
    OnePiece(text, member);
  }

  /** A locator with no room for a selector: the lines left are counted, and nothing is offered. */
  lemma ContinuationWithoutSelector(src: Source, page: Page, n: nat) returns (left: Text)
    requires page.truncated && page.nextOffset == Some(n) && src.takesNoSelector
    requires src.lineCount.Some? && n < src.lineCount.value
    ensures ContinuationLine(src, page)
         == Some(Lit("[") + left + Lit(" more ") + Noun(src.lineCount.value - n) + Lit(" not shown")
                 + Lit("; this locator takes no line selector]"))
    ensures AllDigits(left) && Value(left) == src.lineCount.value - n
  {
    hide Digits, Lit;
    left := Digits(src.lineCount.value - n);
    ValueOfDigits(src.lineCount.value - n);
    assert Lit("[") + (left + Lit(" more ") + Noun(src.lineCount.value - n) + Lit(" not shown"))
        == Lit("[") + left + Lit(" more ") + Noun(src.lineCount.value - n) + Lit(" not shown");
  }

  /** A page says how to read on exactly when it is cut and, as far as is known, something follows. */
  lemma WhetherToReadOn(src: Source, page: Page)
    ensures ContinuationLine(src, page).Some? <==>
      page.truncated && page.nextOffset.Some? && (src.lineCount.Some? ==> page.nextOffset.value < src.lineCount.value)
  {
    hide ResumeSelector, Digits, Lit;
  }

  // What the header says.

  /** The header of a page that shows lines names them: its selector reads back as exactly those. */
  lemma HeaderNames(src: Source, page: Page) returns (selector: Text)
    requires page.shown.Some? && 1 <= page.shown.value.startLine <= page.shown.value.endLine <= MAX_SAFE_INTEGER
    ensures FileHeader(src, page) == src.path + Lit(":") + RawPrefix(src) + selector + Total(src)
    ensures var parsed := ParseSelector(selector);
            && parsed.Some?
            && forall count: nat, line: nat ::
                 DenotesAny(parsed.value, count, line) <==>
                   page.shown.value.startLine <= line + 1 <= page.shown.value.endLine
  {
    hide ParseSelector, ParseMember, FormatRange, Total, Lit;
    var r := page.shown.value;
    selector := FormatRange(r.startLine, r.endLine);
    RangeParses(r.startLine, r.endLine);
    OneMember(selector, Span(r.startLine, r.endLine));
    forall count: nat, line: nat ensures DenotesAny([Span(r.startLine, r.endLine)], count, line) <==>
      r.startLine <= line + 1 <= r.endLine {
      assert Denotes([Span(r.startLine, r.endLine)][0], count, line) <==> r.startLine <= line + 1 <= r.endLine;
    }
  }

  /** The count a header ends with. */
  lemma TotalSays(src: Source) returns (count: Text)
    requires src.lineCount.Some?
    ensures Total(src) == Lit(" of ") + count + Lit(" ") + Noun(src.lineCount.value)
    ensures AllDigits(count) && Value(count) == src.lineCount.value
  {
    hide Digits;
    count := Digits(src.lineCount.value);
    ValueOfDigits(src.lineCount.value);
    assert Lit(" ") == [SPACE];
  }

  // Which lines a page shows.

  /** A line as a page shows it: as it is, or behind its number. */
  function Piece(raw: bool, lines: seq<Text>, i: nat): Text
    requires i < |lines|
  {
    if raw then lines[i] else Digits(i + 1) + Lit(": ") + lines[i]
  }

  function Content(raw: bool, lines: seq<Text>, from: nat, stop: nat): Text
    requires from <= stop <= |lines|
  {
    if from == stop then [] else Content(raw, lines, from, stop - 1) + Piece(raw, lines, stop - 1)
  }

  /** The page that shows lines `from` up to `stop`, and what is asked of it. */
  function Shows(raw: bool, requested: Option<LineRange>, lines: seq<Text>, from: nat, stop: nat): Page
    requires from <= stop <= |lines|
  {
    Page(Content(raw, lines, from, stop), requested, if from < stop then Some(LineRange(from + 1, stop)) else None,
      false, None)
  }

  /** A page that is cut, and continues, where another is. */
  function CutAs(page: Page, other: Page): Page {
    page.(truncated := other.truncated, nextOffset := other.nextOffset)
  }

  /** The lines a read may show at most. */
  function Limit(limit: Option<nat>): nat { if limit.Some? && limit.value < 2000 then limit.value else 2000 }

  /** Where a read goes on when it stops before line `at`: never before what was asked for, nor after its window. */
  function Resume(t: Target, at: nat): nat {
    if at < t.offset then t.offset else if at > t.offset + Limit(t.limit) then t.offset + Limit(t.limit) else at
  }

  /** The page, cut with its continuation, is wider than the budget. */
  predicate TooWide(t: Target, page: Page, next: nat) {
    |t.neutralize(RenderReadText(t.source, page.(truncated := true, nextOffset := Some(next))))| > t.budget
  }

  predicate WideUpTo(t: Target, requested: Option<LineRange>, lines: seq<Text>, from: nat, stop: nat)
    requires from < stop <= |lines|
  {
    TooWide(t, Shows(t.source.raw, requested, lines, from, stop), Resume(t, stop))
  }

  /**
   The page shows the lines from `from` on, up to `stop` or the window's end, as many as fit: the next line
   would make it too wide. It stops with the offset to go on from.
   */
  ghost predicate IsPage(t: Target, requested: Option<LineRange>, lines: seq<Text>, begun: Page, page: Page,
      from: nat, stop: nat, end: nat)
    requires from <= stop <= end <= |lines|
  {
    && page == CutAs(Shows(t.source.raw, requested, lines, from, stop), page)
    && (forall s :: from < s <= stop ==> !WideUpTo(t, requested, lines, from, s))
    && (if stop == end then page.truncated == begun.truncated && page.nextOffset == begun.nextOffset
        else
          && WideUpTo(t, requested, lines, from, stop + 1) && page.truncated
          && page.nextOffset == Some(if from == stop then stop + 1 else Resume(t, stop)))
  }

  lemma PieceIs(t: Target, lines: seq<Text>, i: nat)
    requires i < |lines|
    ensures RenderSourceLine(t, lines[i], i) == Piece(t.source.raw, lines, i)
  {
  }

  lemma ResumeIs(t: Target, at: nat)
    ensures RetryOffset(t, at) == Resume(t, at)
  {
  }

  lemma OverflowIs(t: Target, requested: Option<LineRange>, lines: seq<Text>, page: Page, from: nat, index: nat)
    requires from <= index < |lines|
    requires page == CutAs(Shows(t.source.raw, requested, lines, from, index), page)
    ensures Overflows(t, page, Some(lines[index]), index) <==> WideUpTo(t, requested, lines, from, index + 1)
    ensures Candidate(t, page, lines[index], index)
         == CutAs(Shows(t.source.raw, requested, lines, from, index + 1), page)
  {
    hide RenderReadText, RetryOffset, Resume, RenderSourceLine, Piece;
    PieceIs(t, lines, index);
    ResumeIs(t, index + 1);
    var candidate := Candidate(t, page, lines[index], index);
    var shows := Shows(t.source.raw, requested, lines, from, index + 1);
    assert candidate == shows.(truncated := page.truncated, nextOffset := page.nextOffset);
    assert candidate.(truncated := true, nextOffset := Some(Resume(t, index + 1)))
        == shows.(truncated := true, nextOffset := Some(Resume(t, index + 1)));
  }

  lemma {:induction false} ContentIsEmpty(raw: bool, lines: seq<Text>, from: nat, stop: nat)
    requires from <= stop <= |lines| && forall k :: 0 <= k < |lines| ==> lines[k] != []
    ensures Content(raw, lines, from, stop) == [] <==> from == stop
  {
  }

  lemma {:induction false} AppendedIs(
      t: Target, requested: Option<LineRange>, lines: seq<Text>, begun: Page, page: Page, from: nat, index: nat,
      end: nat) returns (stop: nat)
    requires from <= index <= end <= |lines| && t.offset <= index && (forall k :: 0 <= k < |lines| ==> lines[k] != [])
    requires page == CutAs(Shows(t.source.raw, requested, lines, from, index), begun)
    requires forall s :: from < s <= index ==> !WideUpTo(t, requested, lines, from, s)
    ensures index <= stop <= end
      && IsPage(t, requested, lines, begun, AppendFrom(t, lines, page, index, end), from, stop, end)
    decreases end - index
  {
    hide Overflows, Candidate, WideUpTo, Content, RetryOffset, Resume;
    stop := index;
    if index < end {
      OverflowIs(t, requested, lines, page, from, index);
      ContentIsEmpty(t.source.raw, lines, from, index);
      ResumeIs(t, index);
      if !Overflows(t, page, Some(lines[index]), index) {
        stop := AppendedIs(t, requested, lines, begun, Candidate(t, page, lines[index], index), from, index + 1, end);
      }
    }
  }

  /** The range a read asks for: to the last line when it names no end. */
  function Requested(target: Target, lines: seq<Text>): Option<LineRange> {
    if lines == [] then None
    else if target.limit == None then Some(LineRange(target.offset + 1, |lines|))
    else if target.offset + target.limit.value == 0 then None
    else Some(LineRange(target.offset + 1, target.offset + target.limit.value))
  }

  /** The window's end: the lines it may show, and after them one line of context, unless it is raw. */
  function End(target: Target, lines: seq<Text>): nat {
    var last := Min(|lines|, target.offset + Limit(target.limit));
    if target.source.raw then last else Min(|lines|, last + 1)
  }

  /** The read, told the source's length. */
  function Counted(target: Target, lines: seq<Text>): Target {
    target.(source := target.source.(lineCount := Some(|lines|)))
  }

  /** The page with nothing on it, cut to its end, which every result has to fit. */
  predicate HasRoom(target: Target, lines: seq<Text>) {
    var page := Page([], Requested(target, lines), None, false, Some(target.offset));
    |target.neutralize(RenderReadText(Counted(target, lines).source, page.(truncated := true)))| <= target.budget
  }

  /** A page not cut by its width: cut when the source goes on and more of it was asked for. */
  function Whole(target: Target, lines: seq<Text>): Page {
    var last := Min(|lines|, target.offset + Limit(target.limit));
    Page([], Requested(target, lines), None,
         last < |lines| && (target.limit == None || last < target.offset + target.limit.value),
         if last < |lines| then Some(last) else None)
  }

  /**
   Exactly what a read with all lines before it returns. It is refused when it starts past the last line, or
   when not even a page without lines fits. Else its page starts at the line before its window, unless it is
   raw, starts the source, or that line fits no page of its own, and otherwise at the window; and from there it
   shows as many lines as fit.
   */
  lemma PageIs(target: Target, lines: seq<Text>) returns (from: nat, stop: nat)
    requires forall k :: 0 <= k < |lines| ==> lines[k] != []
    ensures var t, outcome := Counted(target, lines), SelectSourceLines(target, lines);
            if Misplaced(target, lines) then outcome.InvalidSelector?
            else if !HasRoom(target, lines) then outcome.InvalidPath?
            else
              && outcome.Shown? && from <= stop
              && (lines == [] ==> outcome.page == Whole(target, lines))
              && (lines != [] ==>
                    && from == First(target, lines) && stop <= End(target, lines)
                    && IsPage(t, Requested(target, lines), lines, Whole(target, lines), outcome.page, from, stop,
                      End(target, lines)))
  {
    hide AppendFrom, RenderReadText, WideUpTo, HasRoom;
    var t := Counted(target, lines);
    from, stop := 0, 0;
    if !Misplaced(target, lines) {
      RoomIs(target, lines);
      if HasRoom(target, lines) {
        BegunIs(target, lines);
        if lines != [] {
          from := First(target, lines);
          stop := FromFirst(t, Requested(target, lines), lines, Whole(target, lines));
        } else {
          NothingToAppend(t, lines, Whole(target, lines));
        }
      }
    }
  }

  /** The read starts past the last line. */
  predicate Misplaced(target: Target, lines: seq<Text>) {
    if lines == [] then target.offset > 0 else target.offset >= |lines|
  }

  /** The first line shown: the one before the window, if the page takes context and that line fits it. */
  function First(target: Target, lines: seq<Text>): nat
    requires target.offset <= |lines|
  {
    if target.source.raw || target.offset == 0
       || WideUpTo(Counted(target, lines), Requested(target, lines), lines, target.offset - 1, target.offset)
    then target.offset else target.offset - 1
  }

  lemma NothingToAppend(t: Target, lines: seq<Text>, page: Page)
    requires lines == []
    ensures AppendFrom(t, lines, page, 0, 0) == page
  {
  }

  lemma RoomIs(target: Target, lines: seq<Text>)
    requires !Misplaced(target, lines)
    ensures var t := Placed(target, lines);
            var empty := EmptyPage(t, if lines == [] then 0 else RequestedLast(t));
            && t == Counted(target, lines) && (empty.Some? <==> HasRoom(target, lines))
            && (empty.Some? ==> empty.value == Page([], Requested(target, lines), None, false, None))
  {
    hide RenderReadText;
  }

  lemma BegunIs(target: Target, lines: seq<Text>)
    requires !Misplaced(target, lines)
    ensures var t := Placed(target, lines);
            && Opened(t, Page([], Requested(target, lines), None, false, None), lines) == Whole(target, lines)
            && WindowEnd(t, lines) == End(target, lines)
  {
  }

  /** From the window's start, or the line before it. */
  lemma FromFirst(t: Target, requested: Option<LineRange>, lines: seq<Text>, begun: Page) returns (stop: nat)
    requires (forall k :: 0 <= k < |lines| ==> lines[k] != []) && t.offset < |lines| && t == Counted(t, lines)
    requires begun == CutAs(Shows(t.source.raw, requested, lines, 0, 0), begun)
    requires requested == Requested(t, lines)
    ensures var from, end := First(t, lines), End(t, lines);
            from <= stop <= end
              && IsPage(t, requested, lines, begun, AppendFrom(t, lines, begun, Start(t), end), from, stop, end)
  {
    hide Overflows, Candidate, WideUpTo, IsPage, RetryOffset, Resume;
    var end := End(t, lines);
    assert end >= t.offset;
    if t.source.raw || t.offset == 0 {
      assert begun == CutAs(Shows(t.source.raw, requested, lines, t.offset, t.offset), begun);
      stop := AppendedIs(t, requested, lines, begun, begun, t.offset, t.offset, end);
    } else {
      var index := t.offset - 1;
      assert begun == CutAs(Shows(t.source.raw, requested, lines, index, index), begun);
      OverflowIs(t, requested, lines, begun, index, index);
      ContextTaken(t, lines, begun, end);
      if WideUpTo(t, requested, lines, index, index + 1) {
        assert begun == CutAs(Shows(t.source.raw, requested, lines, t.offset, t.offset), begun);
        stop := AppendedIs(t, requested, lines, begun, begun, t.offset, t.offset, end);
      } else {
        stop := AppendedIs(t, requested, lines, begun, Candidate(t, begun, lines[index], index), index, t.offset, end);
      }
    }
  }

  lemma ContextTaken(t: Target, lines: seq<Text>, page: Page, end: nat)
    requires 0 < t.offset <= end <= |lines| && page.content == []
    ensures var index := t.offset - 1;
            AppendFrom(t, lines, page, index, end)
            == if Overflows(t, page, Some(lines[index]), index) then AppendFrom(t, lines, page, t.offset, end)
               else AppendFrom(t, lines, Candidate(t, page, lines[index], index), t.offset, end)
  {
    hide Overflows, Candidate;
  }

  /**
   The page of a read that is cut before line `n` of a source that takes selectors says how to read on: with a
   selector for the lines from there that were asked for, or for everything from there when none of them is
   left, and the number of lines the source has left.
   */
  lemma CutPageSays(target: Target, lines: seq<Text>, n: nat) returns (left: Text, selector: Text)
    requires (forall k :: 0 <= k < |lines| ==> lines[k] != []) && !target.source.takesNoSelector
      && n < |lines| <= MAX_SAFE_INTEGER
    requires SelectSourceLines(target, lines).Shown?
    requires var page := SelectSourceLines(target, lines).page; page.truncated && page.nextOffset == Some(n)
    ensures var src, page := Counted(target, lines).source, SelectSourceLines(target, lines).page;
            var notice := Lit("[") + left + Lit(" more ") + Noun(|lines| - n) + Lit(". ") + Lit("Use ") + src.path
              + Lit(":")
                          + RawPrefix(src) + selector + Lit(" to continue]");
            && Parts(src, page)[|Parts(src, page)| - 1] == notice
              && RenderReadText(src, page) == Join(Parts(src, page), LF)
            && AllDigits(left) && Value(left) == |lines| - n
    ensures var parsed, asked := ParseSelector(selector), Requested(target, lines);
            && parsed.Some?
            && forall line: nat :: line < |lines| ==>
                 (DenotesAny(parsed.value, |lines|, line) <==>
                    n <= line && (asked == None || asked.value.endLine <= n || line < asked.value.endLine))
  {
    hide RenderReadText, FileHeader, AppendFrom, ParseSelector, Lit;
    var src, page := Counted(target, lines).source, SelectSourceLines(target, lines).page;
    var from, stop := PageIs(target, lines);
    PageAsks(target, lines, from, stop);
    left, selector := ContinuationSays(src, page, n);
    RenderedParts(src, page);
    hide ContinuationLine, Noun, RawPrefix, Join;
  }

  lemma PageAsks(target: Target, lines: seq<Text>, from: nat, stop: nat)
    requires lines != [] && !Misplaced(target, lines) && SelectSourceLines(target, lines).Shown?
      && from <= stop <= End(target, lines)
    requires IsPage(Counted(target, lines), Requested(target, lines), lines, Whole(target, lines),
      SelectSourceLines(target, lines).page,
                    from, stop, End(target, lines))
    ensures SelectSourceLines(target, lines).page.requested == Requested(target, lines)
  {
    hide SelectSourceLines, WideUpTo;
  }
}
