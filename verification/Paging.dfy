/** Reading on from page to page. */
module Paging {
  import opened Text
  import opened Decimal
  import opened SelectorText
  import opened Continuation
  import opened ModelText
  import opened SourceLines

  /** The width of a page is the sum of its parts. */
  function BodyWidth(content: Text): nat {
    if Body(content) == [] then 0 else 1 + |Body(content)|
  }

  function NoticeWidth(src: Source, requestedEnd: Option<nat>, next: nat): nat {
    var notice := ContinuationLine(src,
      Page([], if requestedEnd.Some? then Some(LineRange(0, requestedEnd.value)) else None, None, true, Some(next)));
    if notice == None then 0 else 1 + |notice.value|
  }

  function HeaderWidth(src: Source, start: nat, end: nat): nat {
    |src.path| + 1 + (if src.raw then 4 else 0) + |Digits(start)| + 1 + |Digits(end)| + |Total(src)|
  }

  lemma RenderedWidth(src: Source, page: Page, next: nat)
    requires page.shown.Some? && page.truncated && page.nextOffset == Some(next)
    ensures |RenderReadText(src, page)|
            == HeaderWidth(src, page.shown.value.startLine, page.shown.value.endLine) + |Below(src.attribution)|
               + BodyWidth(page.content) + NoticeWidth(src, RequestedEnd(page), next)
  {
    hide Total, Lit, Digits, Body, ResumeSelector, Below, Lines;
    var alone := Page([], if RequestedEnd(page).Some? then Some(LineRange(0, RequestedEnd(page).value)) else None,
      None, true, Some(next));
    assert RequestedEnd(alone) == RequestedEnd(page);
    assert ContinuationLine(src, alone) == ContinuationLine(src, page);
  }

  /** The page that shows line `i` and nothing else. */
  function Alone(lines: seq<Text>, i: nat): Page
    requires i < |lines|
  {
    Page(lines[i], Some(LineRange(i + 1, |lines|)), Some(LineRange(i + 1, i + 1)), true, Some(i + 1))
  }

  /** Line `i` is too wide for a page of its own. */
  predicate Wide(t: Target, lines: seq<Text>, i: nat)
    requires i < |lines|
  {
    |RenderReadText(Placed(t, lines).source, Alone(lines, i))| > t.budget
  }

  lemma {:induction false} LongerThanLines(lines: seq<Text>)
    requires forall k :: 0 <= k < |lines| ==> lines[k] != []
    ensures |Concat(lines)| >= |lines|
    decreases |lines|
  {
    if lines != [] {
      LongerThanLines(lines[..|lines| - 1]);
    }
  }

  /** Lines before a line never make the page narrower, though the range they start from may take fewer digits. */
  lemma LinesBeforeWiden(src: Source, before: Text, line: Text, start: nat, i: nat, requested: LineRange,
      requested': LineRange)
    requires line != [] && start <= i && |before| >= i - start && requested.endLine == requested'.endLine
    ensures |RenderReadText(src, Page(line, Some(requested'), Some(LineRange(i + 1, i + 1)), true, Some(i + 1)))|
         <= |RenderReadText(src,
           Page(before + line, Some(requested), Some(LineRange(start + 1, i + 1)), true, Some(i + 1)))|
  {
    hide RenderReadText, Digits, ContinuationLine, Total, Below;
    RenderedWidth(src, Page(line, Some(requested'), Some(LineRange(i + 1, i + 1)), true, Some(i + 1)), i + 1);
    RenderedWidth(src, Page(before + line, Some(requested), Some(LineRange(start + 1, i + 1)), true, Some(i + 1)),
      i + 1);
    DigitsGrowSlowly(start + 1, i - start);
    BodyWidens(before, line, i - start);
  }

  lemma BodyWidens(before: Text, line: Text, n: nat)
    requires line != [] && |before| >= n
    ensures BodyWidth(before + line) >= BodyWidth(line) + n
  {
    if before == [] {
      assert before + line == line;
    } else {
      assert (before + line)[|before + line| - 1] == line[|line| - 1];
    }
  }

  // Raw pages.

  ghost predicate RawRead(t: Target, lines: seq<Text>) {
    && t.source.raw && t.limit == None && (forall x :: t.neutralize(x) == x)
    && (forall k :: 0 <= k < |lines| ==> lines[k] != [])
  }

  /** What a raw page that starts at `offset` has taken when line `index` is next. */
  ghost predicate Taken(t: Target, lines: seq<Text>, page: Page, offset: nat, index: nat) {
    && offset <= index <= |lines| && page.content == Concat(lines[offset..index])
    && page.requested.Some? && page.requested.value.endLine == |lines|
    && (if index == offset then page.shown == None else page.shown == Some(LineRange(offset + 1, index)))
    && (forall i :: offset <= i < index ==> !Wide(t, lines, i))
  }

  /**
   A raw page that ends before `stop`: it shows exactly the lines up to there, and goes on after at most one
   wide line.
   */
  ghost predicate RawPage(t: Target, lines: seq<Text>, page: Page, offset: nat, stop: nat) {
    && offset <= stop <= |lines| && page.content == Concat(lines[offset..stop])
    && (forall i :: offset <= i < stop ==> !Wide(t, lines, i))
    && match page.nextOffset
       case None => stop == |lines|
       case Some(n) =>
         n <= |lines| && ((n == stop && stop > offset) || (n == stop + 1 && stop == offset && Wide(t, lines, stop)))
  }

  /** A line is refused exactly when the page it would make is over the budget; alone, when it is wide. */
  lemma RawOverflow(t: Target, lines: seq<Text>, page: Page, offset: nat, index: nat)
    requires RawRead(t, lines) && Taken(t, lines, page, offset, index) && index < |lines|
      && index < offset + MAX_READ_LINES
    ensures var p := Placed(t, lines).(offset := offset);
            && (index == offset ==> (Overflows(p, page, Some(lines[index]), index) <==> Wide(t, lines, index)))
            && (!Overflows(p, page, Some(lines[index]), index) ==> !Wide(t, lines, index))
  {
    hide RenderReadText, Concat;
    var p := Placed(t, lines).(offset := offset);
    var before := lines[offset..index];
    LongerThanLines(before);
    var c := Candidate(p, page, lines[index], index).(truncated := true, nextOffset := Some(index + 1));
    assert RetryOffset(p, index + 1) == index + 1;
    assert c == Page(Concat(before) + lines[index], page.requested, Some(LineRange(offset + 1, index + 1)), true,
      Some(index + 1));
    LinesBeforeWiden(p.source, Concat(before), lines[index], offset, index, page.requested.value,
      LineRange(index + 1, |lines|));
    if index == offset {
      assert Concat(before) == [] by { NoLines(before); }
      assert [] + lines[index] == lines[index];
      SameRequest(p.source, c, Alone(lines, index));
    }
  }

  lemma NoLines(lines: seq<Text>)
    requires lines == []
    ensures Concat(lines) == []
  {
  }

  /** Of the requested range only its end is rendered. */
  lemma SameRequest(src: Source, a: Page, b: Page)
    requires RequestedEnd(a) == RequestedEnd(b) && a.(requested := None) == b.(requested := None)
    ensures RenderReadText(src, a) == RenderReadText(src, b)
  {
    hide Framed, FileHeader, ContinuationLine;
    SameHeader(src, a, b);
    SameContinuation(src, a, b);
  }

  lemma SameHeader(src: Source, a: Page, b: Page)
    requires a.(requested := None) == b.(requested := None)
    ensures FileHeader(src, a) == FileHeader(src, b)
  {
    hide FormatRange, Lit, Total, Digits;
  }

  lemma SameContinuation(src: Source, a: Page, b: Page)
    requires RequestedEnd(a) == RequestedEnd(b) && a.(requested := None) == b.(requested := None)
    ensures ContinuationLine(src, a) == ContinuationLine(src, b)
  {
    hide ResumeSelector, Lit, Lines, Digits;
  }

  lemma TakenOneMore(t: Target, lines: seq<Text>, page: Page, offset: nat, index: nat)
    requires RawRead(t, lines) && Taken(t, lines, page, offset, index) && index < |lines| && !Wide(t, lines, index)
    ensures Taken(t, lines, Candidate(Placed(t, lines).(offset := offset), page, lines[index], index), offset,
      index + 1)
  {
    hide Wide;
    var upTo := lines[offset..index + 1];
    assert upTo[..|upTo| - 1] == lines[offset..index] && upTo[|upTo| - 1] == lines[index];
  }

  lemma {:induction false} RawAppends(t: Target, lines: seq<Text>, page: Page, offset: nat, index: nat,
      end: nat) returns (stop: nat)
    requires RawRead(t, lines) && Taken(t, lines, page, offset, index) && index <= end <= |lines|
      && end <= offset + MAX_READ_LINES
    requires offset < end && page.nextOffset == (if end < |lines| then Some(end) else None)
    ensures RawPage(t, lines, AppendFrom(Placed(t, lines).(offset := offset), lines, page, index, end), offset, stop)
    decreases end - index
  {
    hide Wide, Concat, Overflows;
    var p := Placed(t, lines).(offset := offset);
    if index == end {
      stop := end;
    } else {
      RawOverflow(t, lines, page, offset, index);
      if !Overflows(p, page, Some(lines[index]), index) {
        TakenOneMore(t, lines, page, offset, index);
        stop := RawAppends(t, lines, Candidate(p, page, lines[index], index), offset, index + 1, end);
      } else {
        stop := index;
        ContentIsEmpty(lines, offset, index);
      }
    }
  }

  lemma ContentIsEmpty(lines: seq<Text>, offset: nat, index: nat)
    requires offset <= index <= |lines| && (forall k :: 0 <= k < |lines| ==> lines[k] != [])
    ensures Concat(lines[offset..index]) == [] <==> index == offset
  {
    LongerThanLines(lines[offset..index]);
  }

  /** Every raw page shows consecutive lines that fit, and the next offset is past them. */
  lemma RawPageIs(t: Target, lines: seq<Text>, offset: nat) returns (stop: nat)
    requires RawRead(t, lines) && SelectSourceLines(t.(offset := offset), lines).Shown? && lines != []
    ensures RawPage(t, lines, SelectSourceLines(t.(offset := offset), lines).page, offset, stop)
  {
    hide Wide, AppendFrom, Width, Concat;
    var p := Placed(t.(offset := offset), lines);
    assert p == Placed(t, lines).(offset := offset);
    var empty := EmptyPage(p, RequestedLast(p)).value;
    NoLines(lines[offset..offset]);
    stop := RawAppends(t, lines, Opened(p, empty, lines), offset, offset, WindowEnd(p, lines));
  }

  // Following the pages.

  /** The pages a reader gets by following each page's next offset while it is inside the source. */
  function Follow(t: Target, lines: seq<Text>, offset: nat): (pages: seq<Page>)
    decreases |lines| - offset
  {
    var outcome := SelectSourceLines(t.(offset := offset), lines);
    if offset >= |lines| || !outcome.Shown? then []
    else if outcome.page.nextOffset == None || outcome.page.nextOffset.value <= offset then [outcome.page]
    else [outcome.page] + Follow(t, lines, outcome.page.nextOffset.value)
  }

  function Contents(pages: seq<Page>): Text {
    if pages == [] then [] else pages[0].content + Contents(pages[1..])
  }

  /** The lines from `from` on that fit a page of their own. */
  function Readable(t: Target, lines: seq<Text>, from: nat): Text
    requires from <= |lines|
    decreases |lines| - from
  {
    if from == |lines| then []
    else (if Wide(t, lines, from) then [] else lines[from]) + Readable(t, lines, from + 1)
  }

  lemma {:induction false} ReadableSplits(t: Target, lines: seq<Text>, from: nat, past: nat)
    requires from <= past <= |lines| && forall i :: from <= i < past ==> !Wide(t, lines, i)
    ensures Readable(t, lines, from) == Concat(lines[from..past]) + Readable(t, lines, past)
    decreases past
  {
    hide Wide;
    if from == past {
      NoLines(lines[from..past]);
    } else {
      var upTo := lines[from..past];
      ReadableSplits(t, lines, from, past - 1);
      assert upTo[..|upTo| - 1] == lines[from..past - 1] && upTo[|upTo| - 1] == lines[past - 1];
      assert Readable(t, lines, past - 1) == lines[past - 1] + Readable(t, lines, past);
    }
  }

  /**
   Following an unlimited raw read from any line: every page advances, and together the pages hold exactly
   the lines from there on that are not too wide for a page of their own.
   */
  lemma {:induction false} PagesHoldTheSource(t: Target, lines: seq<Text>, offset: nat)
    requires RawRead(t, lines) && offset <= |lines|
    requires forall o :: offset <= o < |lines| ==> SelectSourceLines(t.(offset := o), lines).Shown?
    ensures Contents(Follow(t, lines, offset)) == Readable(t, lines, offset)
    decreases |lines| - offset
  {
    hide Wide, SelectSourceLines;
    if offset < |lines| {
      var page := SelectSourceLines(t.(offset := offset), lines).page;
      var stop := RawPageIs(t, lines, offset);
      ReadableSplits(t, lines, offset, stop);
      if page.nextOffset.Some? {
        var n := page.nextOffset.value;
        PagesHoldTheSource(t, lines, n);
        var pages := Follow(t, lines, offset);
        assert pages[1..] == Follow(t, lines, n);
        if n > stop {
          assert Readable(t, lines, stop) == [] + Readable(t, lines, n);
        }
      } else {
        var pages := Follow(t, lines, offset);
        assert pages[1..] == [] && Readable(t, lines, |lines|) == [];
      }
    }
  }

  // Numbered pages.

  /** The page before its first line, with what is known of its end. */
  function FirstPage(target: Target, lines: seq<Text>): Option<Page> {
    var t := Placed(target, lines);
    var empty := EmptyPage(t, if lines == [] then 0 else RequestedLast(t));
    if empty == None then None else Some(Opened(t, empty.value, lines))
  }

  /** The line before the window fits the page, and then leaves no room for the window's first line. */
  predicate Stalls(target: Target, lines: seq<Text>)
    requires target.offset < |lines| && FirstPage(target, lines).Some?
  {
    var t, page := Placed(target, lines), FirstPage(target, lines).value;
    && t.offset > 0
    && !Overflows(t, page, Some(lines[t.offset - 1]), t.offset - 1)
    && Overflows(t, Candidate(t, page, lines[t.offset - 1], t.offset - 1), Some(lines[t.offset]), t.offset)
  }

  /** Past the window's first line every way to end a page goes on after it. */
  lemma {:induction false} LaterEndsAdvance(t: Target, lines: seq<Text>, page: Page, index: nat, end: nat)
    requires t.offset < index <= end <= |lines| && BoundedCount(t.limit) > 0
      && (forall k :: 0 <= k < |lines| ==> lines[k] != [])
    requires page.content != [] && page.shown.Some? && page.shown.value.endLine > t.offset
    requires page.nextOffset.Some? ==> page.nextOffset.value > t.offset
    ensures var last := AppendFrom(t, lines, page, index, end);
            && (last.nextOffset.Some? ==> last.nextOffset.value > t.offset)
            && last.shown.Some? && last.shown.value.endLine > t.offset
    decreases end - index
  {
    hide Width;
    if index < end {
      var r := Append(t, page, Some(lines[index]), index);
      if r.1 {
        LaterEndsAdvance(t, lines, r.0, index + 1, end);
      }
    }
  }

  /** From the window's first line on: the page ends there again only when something already stands on it. */
  lemma FirstRequestedLine(t: Target, lines: seq<Text>, page: Page, end: nat)
    requires t.offset < end <= |lines| && BoundedCount(t.limit) > 0 && (forall k :: 0 <= k < |lines| ==> lines[k] != [])
    requires page.content == [] <==> page.shown == None
    requires page.shown.Some? ==> page.shown.value.endLine == t.offset
    requires page.nextOffset.Some? ==> page.nextOffset.value > t.offset
    ensures var last := AppendFrom(t, lines, page, t.offset, end);
            var stuck := page.content != [] && Overflows(t, page, Some(lines[t.offset]), t.offset);
            && (last.nextOffset.Some? ==> last.nextOffset.value >= t.offset)
            && (last.nextOffset == Some(t.offset) <==> stuck)
            && (last.shown.Some? && last.shown.value.endLine == t.offset <==> stuck)
  {
    hide Width, RenderSourceLine;
    var r := Append(t, page, Some(lines[t.offset]), t.offset);
    RenderedIsNonEmpty(t, lines[t.offset], t.offset);
    if r.1 {
      LaterEndsAdvance(t, lines, r.0, t.offset + 1, end);
    }
  }

  /**
   A numbered read never goes back. It fails to advance exactly when the page shows nothing but the line
   before its window, because that line leaves no room for the first line asked for.
   */
  lemma NumberedAdvances(target: Target, lines: seq<Text>)
    requires !target.source.raw && BoundedCount(target.limit) > 0 && target.offset < |lines|
    requires (forall k :: 0 <= k < |lines| ==> lines[k] != []) && SelectSourceLines(target, lines).Shown?
    ensures var page := SelectSourceLines(target, lines).page;
            && (page.nextOffset.Some? ==> page.nextOffset.value >= target.offset)
            && (page.nextOffset == Some(target.offset) <==> Stalls(target, lines))
            && (page.shown.Some? && page.shown.value.endLine == target.offset <==> Stalls(target, lines))
  {
    hide Width, Overflows, AppendFrom, RenderSourceLine;
    var t, page, end := Placed(target, lines), FirstPage(target, lines).value, WindowEnd(Placed(target, lines), lines);
    if t.offset == 0 {
      FirstRequestedLine(t, lines, page, end);
    } else {
      var context := lines[t.offset - 1];
      ContextStep(t, lines, page, end);
      RenderedIsNonEmpty(t, context, t.offset - 1);
      var r := Append(t, page, Some(context), t.offset - 1);
      FirstRequestedLine(t, lines, r.0, end);
    }
  }

  lemma ContextStep(t: Target, lines: seq<Text>, page: Page, end: nat)
    requires 0 < t.offset < end <= |lines| && page.content == []
    ensures AppendFrom(t, lines, page, t.offset - 1, end)
         == AppendFrom(t, lines, Append(t, page, Some(lines[t.offset - 1]), t.offset - 1).0, t.offset, end)
  {
    hide Overflows;
  }

  // A read that stalls.

  function Letters(n: nat): (t: Text)
    ensures |t| == n + 1
  {
    seq(n, k => 0x61) + [LF]
  }

  /** A short line, then one of a hundred characters, read from the second line under a budget of a hundred. */
  function StallingRead(): Target {
    Target(Source(Lit("f"), [], false, false, None), 1, None, 100, (x: Text) => x)
  }

  lemma OneDigit(n: nat)
    requires n < 10
    ensures |Digits(n)| == 1
  {
  }

  lemma SmallNotice(src: Source)
    requires |src.path| == 1 && src.lineCount == Some(2) && !src.raw && !src.takesNoSelector
    ensures NoticeWidth(src, Some(2), 1) == 36 && NoticeWidth(src, Some(2), 2) == 0
  {
    OneDigit(1);
    OneDigit(2);
  }

  /** The first line fits beside nothing else, so the page ends where it began. */
  lemma ReadCanStall()
    ensures var t, lines := StallingRead(), [Letters(1), Letters(100)];
            && SelectSourceLines(t, lines).Shown?
            && SelectSourceLines(t, lines).page.nextOffset == Some(t.offset)
  {
    var target, lines := StallingRead(), [Letters(1), Letters(100)];
    var t := Placed(target, lines);
    StallWidths(t, lines);
    assert SelectSourceLines(target, lines).Shown?;
    NumberedAdvances(target, lines);
  }

  lemma StallWidths(t: Target, lines: seq<Text>)
    requires lines == [Letters(1), Letters(100)] && t == Placed(StallingRead(), lines)
    ensures FirstPage(StallingRead(), lines).Some? && Stalls(StallingRead(), lines)
  {
    hide RenderReadText, Digits, ContinuationLine, Letters, NoticeWidth;
    SmallNotice(t.source);
    OneDigit(1);
    OneDigit(2);
    var empty := Page([], Some(LineRange(2, 2)), None, false, None);
    EmptyWidth(t.source, empty.(truncated := true, nextOffset := Some(1)));
    var page := Opened(t, empty, lines);
    assert FirstPage(StallingRead(), lines) == Some(page);
    var first := Candidate(t, page, lines[0], 0);
    assert |first.content| == 5;
    RenderedWidth(t.source, first.(truncated := true, nextOffset := Some(1)), 1);
    assert Below([]) == [];
    assert BodyWidth(first.content) <= 6;
    var second := Candidate(t, first, lines[1], 1);
    assert |second.content| == 109;
    RenderedWidth(t.source, second.(truncated := true, nextOffset := Some(2)), 2);
    assert BodyWidth(second.content) >= 109;
  }

  lemma EmptyWidth(src: Source, page: Page)
    requires page.shown == None && page.truncated && page.nextOffset == Some(1) && page.content == []
      && src.attribution == []
    requires RequestedEnd(page) == Some(2) && NoticeWidth(src, Some(2), 1) == 36 && |src.path| == 1
    ensures |RenderReadText(src, page)| <= 100
  {
    OneDigit(1);
    hide Digits, ResumeSelector, Total;
    var alone := Page([], Some(LineRange(0, 2)), None, true, Some(1));
    assert ContinuationLine(src, alone) == ContinuationLine(src, page);
  }
}
