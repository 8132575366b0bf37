/** One page of a file's lines: which lines fit the result bound, and where the next page starts. */
module SourceLines {
  import opened Text
  import opened Decimal
  import opened SelectorText
  import opened Continuation
  import opened ModelText

  const MAX_READ_LINES: nat := 2000
  const MAX_RESULT_CODE_UNITS: nat := 16000

  /** A resolved single-range request; `budget` is the shared cap less what the caller withheld. */
  datatype Target = Target(source: Source, offset: nat, limit: Option<nat>, budget: int, neutralize: Text -> Text)

  datatype Outcome = Shown(page: Page) | InvalidSelector | InvalidPath

  /** LF ends a line and belongs to it. */
  function SplitSourceLines(s: Text): (lines: seq<Text>)
    ensures forall k :: 0 <= k < |lines| ==> lines[k] != []
    decreases |s|
  {
    if s == [] then []
    else
      var at := IndexFrom(s, LF, 0);
      if at < |s| then [s[..at + 1]] + SplitSourceLines(s[at + 1..]) else [s]
  }

  function BoundedCount(limit: Option<nat>): nat {
    if limit.Some? && limit.value < MAX_READ_LINES then limit.value else MAX_READ_LINES
  }

  /** The offset a read cut before line `index` resumes from. */
  function RetryOffset(t: Target, index: nat): nat {
    var within := Min(index, t.offset + BoundedCount(t.limit));
    if within > t.offset then within else t.offset
  }

  /** What the model receives for a page, or for it cut with `next` as its continuation. */
  function Width(t: Target, page: Page, next: Option<nat>): nat {
    |t.neutralize(RenderReadText(t.source, if next.Some? then page.(truncated := true, nextOffset := next) else page))|
  }

  function RenderSourceLine(t: Target, text: Text, index: nat): Text {
    if t.source.raw then text else Digits(index + 1) + Lit(": ") + text
  }

  function Candidate(t: Target, page: Page, text: Text, index: nat): Page {
    page.(content := page.content + RenderSourceLine(t, text, index),
          shown := Some(LineRange(if page.shown.Some? then page.shown.value.startLine else index + 1, index + 1)))
  }

  predicate Overflows(t: Target, page: Page, text: Option<Text>, index: nat) {
    text == None || Width(t, Candidate(t, page, text.value, index), Some(RetryOffset(t, index + 1))) > t.budget
  }

  /** One line more, or why the page ends here. A context line that cannot be shown is passed over. */
  function Append(t: Target, page: Page, text: Option<Text>, index: nat): (Page, bool) {
    if !Overflows(t, page, text, index) then (Candidate(t, page, text.value, index), true)
    else if page.content == [] && index < t.offset then (page, true)
    else (page.(truncated := true,
                nextOffset := Some(if text == None || page.content == [] then index + 1 else RetryOffset(t, index))),
                  false)
  }

  function EmptyPage(t: Target, endLine: nat): Option<Page> {
    var end := if endLine != 0 && t.limit == None && t.source.lineCount.Some? then t.source.lineCount.value
      else endLine;
    var page := Page([], if end == 0 then None else Some(LineRange(t.offset + 1, end)), None, false, None);
    if Width(t, page, Some(t.offset)) > t.budget then None else Some(page)
  }

  function AppendFrom(t: Target, lines: seq<Text>, page: Page, index: nat, end: nat): Page
    requires end <= |lines|
    decreases end - index
  {
    if index >= end then page
    else
      var r := Append(t, page, Some(lines[index]), index);
      if r.1 then AppendFrom(t, lines, r.0, index + 1, end) else r.0
  }

  function Placed(t: Target, lines: seq<Text>): Target {
    t.(source := t.source.(lineCount := Some(|lines|)))
  }

  /** The first line of the window: a numbered read shows the line before it as context. */
  function Start(t: Target): nat {
    if t.source.raw || t.offset == 0 then t.offset else t.offset - 1
  }

  function RequestedLast(t: Target): nat {
    t.offset + if t.limit.Some? then t.limit.value else MAX_READ_LINES
  }

  function BoundedLast(t: Target): nat {
    t.offset + BoundedCount(t.limit)
  }

  /** The empty page with what is already known about its end. */
  function Opened(t: Target, page: Page, lines: seq<Text>): Page {
    var last := Min(|lines|, BoundedLast(t));
    page.(truncated := last < Min(RequestedLast(t), |lines|) || (t.limit == None && last < |lines|),
          nextOffset := if last < |lines| then Some(last) else None)
  }

  function WindowEnd(t: Target, lines: seq<Text>): (end: nat)
    ensures end <= |lines|
  {
    var last := Min(|lines|, BoundedLast(t));
    if t.source.raw then last else Min(|lines|, last + 1)
  }

  /** The page of a read that has all lines before it. */
  function SelectSourceLines(target: Target, lines: seq<Text>): Outcome {
    var t := Placed(target, lines);
    if t.offset >= |lines| && (|lines| > 0 || t.offset != 0) then InvalidSelector
    else
      var page := EmptyPage(t, if lines == [] then 0 else RequestedLast(t));
      if page == None then InvalidPath
      else Shown(AppendFrom(t, lines, Opened(t, page.value, lines), Start(t), WindowEnd(t, lines)))
  }

  /** The result a read builds in place, line by line. */
  class ReadResult {
    var page: Page

    constructor (page: Page)
      ensures this.page == page
    {
      this.page := page;
    }

    method AppendReadLine(t: Target, text: Option<Text>, index: nat) returns (more: bool)
      modifies this
      ensures (page, more) == Append(t, old(page), text, index)
    {
      hide Width, RetryOffset;
      var first, overflows := page.content == [], true;
      if text.Some? {
        var candidate := Candidate(t, page, text.value, index);
        overflows := Width(t, candidate, Some(RetryOffset(t, index + 1))) > t.budget;
        if !overflows {
          page := candidate;
          return true;
        }
      }
      if first && index < t.offset { return true; }
      page := page.(truncated := true,
        nextOffset := Some(if text == None || first then index + 1 else RetryOffset(t, index)));
      return false;
    }
  }

  method Select(target: Target, lines: seq<Text>) returns (outcome: Outcome)
    ensures outcome == SelectSourceLines(target, lines)
  {
    hide Append, EmptyPage, Width;
    var t := Placed(target, lines);
    if t.offset >= |lines| && (|lines| > 0 || t.offset != 0) { return InvalidSelector; }
    var empty := EmptyPage(t, if lines == [] then 0 else RequestedLast(t));
    if empty == None { return InvalidPath; }
    var result := new ReadResult(Opened(t, empty.value, lines));
    var index, end := Start(t), WindowEnd(t, lines);
    while index < end
      invariant AppendFrom(t, lines, result.page, index, end)
        == AppendFrom(t, lines, Opened(t, empty.value, lines), Start(t), end)
    {
      var more := result.AppendReadLine(t, Some(lines[index]), index);
      if !more { break; }
      index := index + 1;
    }
    return Shown(result.page);
  }

  // Every page fits.

  /** The rule applied to a rendering never makes it shorter when lines are added below it. */
  ghost predicate Neutral(n: Text -> Text) {
    forall a, b :: |n(a)| <= |n(a + [LF] + b)|
  }

  lemma NotWiderUncut(t: Target, page: Page, next: nat)
    requires Neutral(t.neutralize) && page.shown.Some? && !page.truncated
    ensures Width(t, page, None) <= Width(t, page, Some(next))
  {
    hide RenderReadText;
    ContinuationAdds(t.source, page, next);
    assert page.(truncated := false) == page;
    var cut := page.(truncated := true, nextOffset := Some(next));
    if RenderReadText(t.source, cut) != RenderReadText(t.source, page) {
      var more :| RenderReadText(t.source, cut) == RenderReadText(t.source, page) + [LF] + more;
    }
  }

  /** A page whose next line is `index` is within the budget, cut there. */
  ghost predicate Fits(t: Target, page: Page, index: nat) {
    page.shown.Some? ==> page.content != [] && Width(t, page, Some(RetryOffset(t, index))) <= t.budget
  }

  lemma RenderedIsNonEmpty(t: Target, text: Text, index: nat)
    requires text != []
    ensures RenderSourceLine(t, text, index) != []
  {
  }

  /** Overwriting what a measurement overwrites anyway changes no width. */
  lemma WidthIgnores(t: Target, page: Page, truncated: bool, nextOffset: Option<nat>, next: nat)
    ensures Width(t, page.(truncated := truncated, nextOffset := nextOffset), Some(next)) == Width(t, page, Some(next))
  {
    assert page.(truncated := truncated, nextOffset := nextOffset).(truncated := true, nextOffset := Some(next))
        == page.(truncated := true, nextOffset := Some(next));
  }

  /**
   Where a page stopped: cut before `stop`, with what its last line was measured with, or at the end of its
   window.
   */
  lemma {:induction false} AppendedEnds(t: Target, lines: seq<Text>, page: Page, begun: Page, index: nat,
      end: nat) returns (stop: nat)
    requires index <= end <= |lines| && (forall k :: 0 <= k < |lines| ==> lines[k] != [])
    requires Fits(t, page, index) && page.truncated == begun.truncated && page.nextOffset == begun.nextOffset
    requires page.shown == None <==> page.content == []
    ensures var last := AppendFrom(t, lines, page, index, end);
            && index <= stop <= end && Fits(t, last, stop)
            && (stop == end ==> last.truncated == begun.truncated && last.nextOffset == begun.nextOffset)
            && (stop < end ==> last.truncated && (last.shown.Some? ==> last.nextOffset == Some(RetryOffset(t, stop))))
    decreases end - index
  {
    hide Width, RenderSourceLine;
    if index == end {
      stop := end;
    } else {
      var text := lines[index];
      var r := Append(t, page, Some(text), index);
      RenderedIsNonEmpty(t, text, index);
      if r.1 {
        stop := AppendedEnds(t, lines, r.0, begun, index + 1, end);
      } else {
        stop := index;
        WidthIgnores(t, page, true, r.0.nextOffset, RetryOffset(t, index));
      }
    }
  }

  /**
   What a page that was read to the end of its window has as its continuation is what its last line was
   measured with.
   */
  lemma WindowEndRetry(t: Target, lines: seq<Text>)
    requires t.offset < |lines| && BoundedLast(t) < |lines|
    ensures RetryOffset(t, WindowEnd(t, lines)) == BoundedLast(t)
  {
  }

  /** Every page that shows a line renders within the budget. */
  lemma PageFits(target: Target, lines: seq<Text>)
    requires Neutral(target.neutralize) && (forall k :: 0 <= k < |lines| ==> lines[k] != [])
    requires SelectSourceLines(target, lines).Shown? && SelectSourceLines(target, lines).page.shown.Some?
    ensures Width(Placed(target, lines), SelectSourceLines(target, lines).page, None) <= target.budget
  {
    hide Width, AppendFrom;
    var t := Placed(target, lines);
    var empty := EmptyPage(t, if lines == [] then 0 else RequestedLast(t)).value;
    var begun := Opened(t, empty, lines);
    var end := WindowEnd(t, lines);
    var page := SelectSourceLines(target, lines).page;
    var stop := AppendedEnds(t, lines, begun, begun, Start(t), end);
    if !page.truncated {
      NotWiderUncut(t, page, RetryOffset(t, stop));
    } else {
      if stop == end && lines != [] {
        WindowEndRetry(t, lines);
      }
      assert page.nextOffset == Some(RetryOffset(t, stop));
      CutIsStored(t, page, RetryOffset(t, stop));
    }
  }

  lemma CutIsStored(t: Target, page: Page, next: nat)
    requires page.truncated && page.nextOffset == Some(next)
    ensures Width(t, page, None) == Width(t, page, Some(next))
  {
  }

  /**
   A line wider than any result ends a page that holds others: the stream steps past it, a read in memory
   retries it.
   */
  lemma WideLineParts(t: Target, page: Page, line: Text, index: nat)
    requires page.content != [] && Overflows(t, page, Some(line), index) && t.offset <= index < BoundedLast(t)
    ensures Append(t, page, None, index).0.nextOffset == Some(index + 1)
    ensures Append(t, page, Some(line), index).0.nextOffset == Some(index)
  {
    hide Width;
  }
}
