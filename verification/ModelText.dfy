/** The text a model receives for a page of a file: header, attribution, the page's lines, and how to continue. */
module ModelText {
  import opened Text
  import opened Decimal
  import opened SelectorText
  import opened Continuation

  /** A literal as code units. */
  function Lit(s: string): (t: Text)
    ensures |t| == |s|
  {
    seq(|s|, k requires 0 <= k < |s| => if s[k] as int < 0x1_0000 then s[k] as int else 0xFFFD)
  }

  /**
   What does not change from page to page: locator and attribution as printed, one line each, and the line
   count when known.
   */
  datatype Source = Source(path: Text, attribution: seq<Text>, raw: bool, takesNoSelector: bool, lineCount: Option<nat>)

  datatype Page = Page(
    content: Text,
    requested: Option<LineRange>,
    shown: Option<LineRange>,
    truncated: bool,
    nextOffset: Option<nat>)

  function Lines(count: int): Text {
    if count == 1 then Lit("line") else Lit("lines")
  }

  function Total(src: Source): Text {
    if src.lineCount == None then []
    else Lit(" of ") + Digits(src.lineCount.value) + [SPACE] + Lines(src.lineCount.value)
  }

  function FileHeader(src: Source, page: Page): Text {
    match page.shown
    case Some(r) => src.path + Lit(":") + (if src.raw then Lit("raw:") else []) + FormatRange(r.startLine, r.endLine)
      + Total(src)
    case None =>
      if page.truncated && page.nextOffset.Some? then
        src.path + Lit(": line ") + Digits(page.nextOffset.value) + Lit(" exceeds the result bound and was skipped")
      else if !page.truncated then src.path + Lit(": empty")
      else src.path + Total(src)
  }

  function RequestedEnd(page: Page): Option<nat> {
    if page.requested.Some? then Some(page.requested.value.endLine) else None
  }

  /** How to read on from a cut page; a page cut at the source's end says nothing. */
  function ContinuationLine(src: Source, page: Page): Option<Text> {
    if !page.truncated || page.nextOffset == None then None
    else
      var next := page.nextOffset.value;
      if src.lineCount.Some? && next >= src.lineCount.value then None
      else
        var left := if src.lineCount.Some?
          then Digits(src.lineCount.value - next) + Lit(" more ") + Lines(src.lineCount.value - next) else [];
        if src.takesNoSelector then
          Some(Lit("[") + (if src.lineCount.Some? then left + Lit(" not shown") else Lit("more lines not shown"))
               + Lit("; this locator takes no line selector]"))
        else
          Some(Lit("[") + (if src.lineCount.Some? then left + Lit(". ") else []) + Lit("Use ") + src.path + Lit(":")
               + (if src.raw then Lit("raw:") else []) + ResumeSelector(src.lineCount, RequestedEnd(page), [], next)
                 + Lit(" to continue]"))
  }

  function Body(content: Text): Text {
    if content != [] && content[|content| - 1] == LF then content[..|content| - 1] else content
  }

  /** Each text on a line of its own after what precedes it. */
  function Below(lines: seq<Text>): Text {
    if lines == [] then [] else [LF] + lines[0] + Below(lines[1..])
  }

  function Framed(src: Source, header: Text, content: Text): Text {
    header + Below(src.attribution) + if Body(content) == [] then [] else [LF] + Body(content)
  }

  function RenderReadText(src: Source, page: Page): Text {
    var continuation := ContinuationLine(src, page);
    Framed(src, FileHeader(src, page), page.content) + if continuation == None then [] else [LF] + continuation.value
  }

  /** A page that shows lines renders no wider without its continuation. */
  lemma ContinuationAdds(src: Source, page: Page, next: nat)
    requires page.shown.Some?
    ensures var cut, whole := page.(truncated := true, nextOffset := Some(next)), page.(truncated := false);
            || RenderReadText(src, cut) == RenderReadText(src, whole)
            || exists more :: RenderReadText(src, cut) == RenderReadText(src, whole) + [LF] + more
  {
    hide Framed, ResumeSelector, FormatRange, Lit;
    var cut, whole := page.(truncated := true, nextOffset := Some(next)), page.(truncated := false);
    assert FileHeader(src, cut) == FileHeader(src, whole);
    var base := Framed(src, FileHeader(src, whole), page.content);
    assert RenderReadText(src, whole) == base + [] == base;
    var continuation := ContinuationLine(src, cut);
    if continuation.Some? {
      assert base + ([LF] + continuation.value) == base + [LF] + continuation.value;
    }
  }
}
