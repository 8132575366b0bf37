/**
 The Markdown structure scanner as a function on values: what each line of the document is known to be,
 which lines have been reported, and the open blocks. A line waits exactly while it occurs in the open
 root paragraph. `MarkdownScanner` implements this with a queue and occurrence counts.
 */
module ScannerModel {
  import opened Text
  import opened MarkdownSyntax
  import opened Outline

  const MAX_CONTAINER_DEPTH := 64

  /** A heading line carries the root heading it belongs to. */
  datatype Role = Blank | Content | HeadingLine(heading: Heading) | FrontmatterLine

  /** What is known of one line so far. */
  datatype Mark = Mark(role: Role, rootParagraph: bool) {
    /** The mark after a physical line turned out to be `role`: a heading already recorded is kept. */
    function As(role: Role): Mark {
      if this.role.HeadingLine? then this else this.(role := role)
    }

    /** The heading a line counts to, if any. */
    function Own(): Option<Heading> {
      if role.HeadingLine? then Some(role.heading) else None
    }
  }

  datatype LineEvent = LineEvent(line: nat, text: Text, mark: Mark)

  datatype Span = Span(frontmatter: bool, heading: Heading, endLine: int)

  /**
   The caller's handlers: each decides from everything reported so far, its own call included, whether
   the scan goes on. The scanner is deterministic, so along one run these logs determine any state a
   handler could keep.
   */
  datatype Handlers = Handlers(
    onLine: (seq<LineEvent>, seq<Span>) -> bool,
    onSpan: (seq<LineEvent>, seq<Span>) -> bool)

  datatype Leaf =
    | NoLeaf
    | Paragraph(root: bool, lines: seq<nat>, definitionText: Option<seq<Text>>)
    | Fenced(fence: Fence)
    | Indented
    | Html(kind: nat)
  {
    /** The lines an open root paragraph holds, one per physical line. */
    function Held(): seq<nat> {
      if Paragraph? then lines else []
    }

    predicate Continues(c: Cursor)
      requires this != NoLeaf
    {
      match this
      case Fenced(_) => true
      case Indented => c.indent >= 4 || c.blank
      case Html(kind) => !(c.blank && kind >= 6)
      case Paragraph(_, _, _) => !c.blank
    }
  }

  datatype LineState = LineState(
    cursor: Cursor, matched: nat, containersMatched: bool, leafMatched: bool,
    allClosed: bool, paragraphContainer: bool)

  datatype Outcome = OpenedContainer | OpenedLeaf | Done | Nothing

  ghost predicate Within(paragraph: seq<nat>, low: nat, high: nat) {
    forall k :: 0 <= k < |paragraph| ==> low < paragraph[k] <= high
  }

  /** The lines of a closing paragraph become content. */
  function Released(doc: seq<Mark>, paragraph: seq<nat>, n: nat): (d: seq<Mark>)
    requires n <= |paragraph| && Within(paragraph, 0, |doc|)
    ensures |d| == |doc|
    ensures forall k :: 0 <= k <= |doc| && Within(paragraph, k, |doc|) ==> d[..k] == doc[..k]
  {
    if n == 0 then doc else MarkAt(Released(doc, paragraph, n - 1), paragraph[n - 1] - 1, Content)
  }

  function MarkAt(doc: seq<Mark>, at: nat, role: Role): seq<Mark>
    requires at < |doc|
  {
    doc[at := doc[at].As(role)]
  }

  function PromotedLine(e: Mark, content: bool, heading: Heading): Mark {
    if content then e.As(Content) else e.As(HeadingLine(heading)).(rootParagraph := false)
  }

  function PromoteAt(doc: seq<Mark>, at: nat, content: bool, heading: Heading): seq<Mark>
    requires at < |doc|
  {
    doc[at := PromotedLine(doc[at], content, heading)]
  }

  /** A setext underline turns a paragraph into a heading, except for its first `consumed` lines. */
  function Promoted(doc: seq<Mark>, paragraph: seq<nat>, n: nat, consumed: nat, heading: Heading): (d: seq<Mark>)
    requires n <= |paragraph| && Within(paragraph, 0, |doc|)
    ensures |d| == |doc|
    ensures forall k :: 0 <= k <= |doc| && Within(paragraph, k, |doc|) ==> d[..k] == doc[..k]
  {
    if n == 0 then doc
    else PromoteAt(Promoted(doc, paragraph, n - 1, consumed, heading), paragraph[n - 1] - 1, n - 1 < consumed, heading)
  }

  datatype Scan = Scan(
    g: Grammar,
    handlers: Handlers,
    /** Every line scanned so far and what is known of it, and the lines reported so far. */
    texts: seq<Text>,
    doc: seq<Mark>,
    lines: seq<LineEvent>,
    stopped: bool,
    containers: seq<Container>,
    leaf: Leaf,
    headings: seq<Heading>,
    spans: seq<Span>,
    /** History: the root headings in the order they were opened, and the account of them. */
    outline: seq<Heading>,
    ledger: Ledger)
  {
    /** The open blocks are well formed, and the paragraph holds only lines that wait. */
    ghost predicate Blocks() {
      && |lines| <= |doc| == |texts|
      && Within(leaf.Held(), |lines|, |doc|)
      && (leaf.Paragraph? && leaf.root && leaf.definitionText.Some? ==> |leaf.definitionText.value| == |leaf.lines|)
      && (leaf.Paragraph? && !leaf.root ==> leaf.lines == [])
      && |containers| <= MAX_CONTAINER_DEPTH
    }

    /** The scanner is working on its newest line, which waits. */
    ghost predicate Working() {
      Blocks() && |lines| < |doc|
    }

    /** The same lines, the same reports, and nothing new about a reported line. */
    ghost predicate SameLog(s: Scan) {
      && s.g == g && s.handlers == handlers && s.texts == texts && s.lines == lines
      && |s.doc| == |doc| && (|lines| <= |doc| ==> s.doc[..|lines|] == doc[..|lines|])
    }

    ghost predicate Fits(st: LineState) {
      st.cursor.Within() && (!st.allClosed ==> st.matched <= |containers|)
    }

    /** The container depth a new block would open at. */
    function Depth(st: LineState): nat {
      if st.allClosed then |containers| else st.matched
    }

    function CloseLeaf(): (s: Scan)
      requires Blocks()
      ensures s.Blocks() && SameLog(s)
    {
      this.(doc := Released(doc, leaf.Held(), |leaf.Held()|), leaf := NoLeaf)
    }

    function MarkNewest(role: Role): (s: Scan)
      requires Working()
      ensures s.Working() && SameLog(s)
    {
      this.(doc := MarkAt(doc, |doc| - 1, role))
    }

    function EmitHeadingSpan(heading: Heading, endLine: int): Scan
    {
      var spans' := spans + [Span(false, heading, endLine)];
      this.(spans := spans', stopped := stopped || !handlers.onSpan(lines, spans'))
    }

    /** Takes the top heading off the stack and reports its span, which `h` ends. */
    function PopFor(h: Heading): (s: Scan)
      requires headings != []
    {
      var top := headings[|headings| - 1];
      this.(headings := headings[..|headings| - 1], ledger := ledger.Pop())
      .EmitHeadingSpan(top, Max(h.line - 1, top.headEnd))
    }

    /** Closes from the top of the stack every heading that is no shallower than `h`. */
    function CloseFor(h: Heading): (s: Scan)
      requires Blocks()
      ensures s == this.(headings := s.headings, ledger := s.ledger, spans := s.spans, stopped := s.stopped)
      decreases |headings|
    {
      if stopped || headings == [] || headings[|headings| - 1].depth < h.depth then this else PopFor(h).CloseFor(h)
    }

    function PushHeading(h: Heading): Scan {
      this.(headings := headings + [h], outline := outline + [h],
        ledger := Ledger(ledger.stack + [|outline|], ledger.closed))
    }

    /** Closes every open heading that is no shallower, reporting its span, and opens this one. */
    function OpenHeading(h: Heading): (s: Scan)
      requires Blocks()
      ensures s.Blocks() && SameLog(s) && s.doc == doc && s.leaf == leaf && s.containers == containers
    {
      CloseFor(h).PushHeading(h)
    }

    function AddParagraphLine(text: Text): (s: Scan)
      requires Working()
      ensures s.Working() && SameLog(s)
    {
      if !leaf.Paragraph? then this
      else
        var texts := if leaf.definitionText.Some? then Some(leaf.definitionText.value + [text]) else None;
        if !leaf.root then this.(leaf := leaf.(definitionText := texts)).MarkNewest(Content)
        else this.(leaf := leaf.(lines := leaf.lines + [|doc|], definitionText := texts),
                   doc := doc[|doc| - 1 := doc[|doc| - 1].(rootParagraph := true)])
    }

    /** How many leading lines of the open paragraph link reference definitions consume. */
    function Consumed(): nat
      requires leaf.Paragraph?
    {
      if leaf.definitionText.Some? then g.definitionLineCount(leaf.definitionText.value) else 0
    }

    /** A setext underline applies: definitions leave some of the paragraph. */
    predicate SetextApplies() {
      leaf.Paragraph? && (leaf.definitionText.Some? ==> Consumed() < |leaf.definitionText.value|)
    }

    /** The heading that starts after the lines its link reference definitions consume. */
    function SetextHeading(depth: nat): (h: Heading)
      requires Working() && SetextApplies()
    {
      var first := if Consumed() < |leaf.lines| then leaf.lines[Consumed()] else |doc|;
      Heading(depth, first, |doc|, StripTerminator(texts[first - 1]))
    }

    /**
     The paragraph's lines after its definitions become a heading of the given depth, which the newest line
     underlines.
     */
    function Setext(depth: nat): (s: Scan)
      requires Working() && SetextApplies()
      ensures s.Working() && SameLog(s) && s.leaf == NoLeaf && s.containers == containers
    {
      if !leaf.root then this.(leaf := NoLeaf).MarkNewest(Content)
      else
        var h := SetextHeading(depth);
        this.(doc := Promoted(doc, leaf.lines, |leaf.lines|, Consumed(), h), leaf := NoLeaf)
        .MarkNewest(HeadingLine(h)).OpenHeading(h)
    }

    function CloseUnmatched(st: LineState): (s: Scan)
      requires Working() && Fits(st)
      ensures s.Working() && SameLog(s) && s.Fits(st.(allClosed := true))
      ensures |s.containers| == Depth(st)
    {
      if st.allClosed then this
      else
        var s := if st.containersMatched && st.leafMatched then this else CloseLeaf();
        s.(containers := containers[..st.matched])
    }

    /**
     Makes room for a block at this depth: what this line did not match is closed, and an enclosing item has a
     child.
     */
    function AddBlock(st: LineState): (s: Scan)
      requires Working() && Fits(st)
      ensures s.Working() && SameLog(s) && s.Fits(st.(allClosed := true)) && s.leaf == NoLeaf
      ensures |s.containers| == Depth(st)
    {
      var s := CloseUnmatched(st).CloseLeaf();
      var n := |s.containers|;
      if n > 0 && s.containers[n - 1].Item?
      then s.(containers := s.containers[n - 1 := s.containers[n - 1].(hasChild := true)])
      else s
    }

    /** Whether the text of this line goes to the open paragraph although its containers did not match. */
    predicate LazyParagraph(st: LineState) {
      !st.allClosed && !st.cursor.blank && leaf.Paragraph?
    }

    function AddContainer(st: LineState, container: Container): (s: Scan)
      requires Working() && Fits(st)
      requires Depth(st) < MAX_CONTAINER_DEPTH
      ensures s.Working() && SameLog(s) && s.Fits(st.(allClosed := true))
    {
      var s := AddBlock(st);
      s.(containers := s.containers + [container])
    }

    function AddLeaf(st: LineState, leaf: Leaf): (s: Scan)
      requires Working() && Fits(st) && !leaf.Paragraph?
      ensures s.Working() && SameLog(s) && s.Fits(st.(allClosed := true))
    {
      AddBlock(st).(leaf := leaf)
    }

    function AddAtxHeading(st: LineState, depth: nat): (s: Scan)
      requires Working() && Fits(st)
      ensures s.Working() && SameLog(s) && s.leaf == NoLeaf
    {
      var s := AddBlock(st);
      if |s.containers| > 0 then s.MarkNewest(Content)
      else
        var h := Heading(depth, |doc|, |doc|, StripTerminator(texts[|doc| - 1]));
        s.MarkNewest(HeadingLine(h)).OpenHeading(h)
    }

    /** Tries the block starts that are neither containers nor indented code. */
    function OpenLeafBlock(st: LineState, rest: Text): (r: Opened)
      requires Working() && Fits(st) && st.cursor.next <= |st.cursor.line|
      ensures r.scan.Working() && SameLog(r.scan) && r.scan.Fits(r.st) && r.st.cursor.line == st.cursor.line
      ensures r.outcome == Nothing ==>
                r.st == st.(allClosed := r.st.allClosed) && r.scan.Depth(r.st) == Depth(st)
      ensures r.outcome == Done ==> r.scan.leaf == NoLeaf
      ensures r.outcome != OpenedContainer
    {
      var closed := st.(allClosed := true);
      var onLeaf := closed.(cursor := st.cursor.(offset := st.cursor.next));
      if AtxDepth(rest) > 0 then Opened(AddAtxHeading(st, AtxDepth(rest)), closed, Done)
      else if g.fenceOpen(rest).Some? then Opened(AddLeaf(st, Fenced(g.fenceOpen(rest).value)), onLeaf, OpenedLeaf)
      else
        var html := g.htmlStartKind(rest, !(st.paragraphContainer || LazyParagraph(st)));
        if html > 0 then Opened(AddLeaf(st, Html(html)), onLeaf, OpenedLeaf)
        else if st.paragraphContainer && g.setextUnderline(rest) then
          var s := CloseUnmatched(st);
          if s.SetextApplies()
          then Opened(s.Setext(if |rest| > 0 && rest[0] == EQUALS then 1 else 2), closed, Done)
          else s.OpenThematic(closed, rest)
        else OpenThematic(st, rest)
    }

    function OpenThematic(st: LineState, rest: Text): (r: Opened)
      requires Working() && Fits(st)
      ensures r.scan.Working() && SameLog(r.scan) && r.scan.Fits(r.st) && r.st.cursor == st.cursor
      ensures (r.outcome == Done && r.scan.leaf == NoLeaf) || r == Opened(this, st, Nothing)
    {
      if g.thematicBreak(rest) then Opened(AddBlock(st).MarkNewest(Content), st.(allClosed := true), Done)
      else Opened(this, st, Nothing)
    }

    /** Tries every block start at the cursor. A container start moves the cursor strictly forward. */
    function OpenBlock(st: LineState): (r: Opened)
      requires Working() && Fits(st)
      ensures r.scan.Working() && SameLog(r.scan) && r.scan.Fits(r.st) && r.st.cursor.line == st.cursor.line
      ensures r.outcome == OpenedContainer ==> r.st.cursor.offset > st.cursor.offset
      ensures r.outcome == Nothing ==> r.st.cursor.next <= |r.st.cursor.line|
      ensures r.outcome == Done ==> r.scan.leaf == NoLeaf
    {
      var c := st.cursor.Advance();
      var here := st.(cursor := c);
      if c.indent >= 4 then
        if leaf.Paragraph? || c.blank then Opened(this, here, Nothing)
        else Opened(AddLeaf(here, Indented), here.(cursor := c.(offset := c.next), allClosed := true), OpenedLeaf)
      else if Depth(st) < MAX_CONTAINER_DEPTH && c.next < |c.line| && c.line[c.next] == GREATER then
        var after := here.(cursor := ConsumeQuoteMarker(c));
        Opened(AddContainer(after, Quote), after.(allClosed := true), OpenedContainer)
      else OpenLeafOrItem(here)
    }

    function OpenLeafOrItem(st: LineState): (r: Opened)
      requires Working() && Fits(st) && st.cursor.Advanced()
      ensures r.scan.Working() && SameLog(r.scan) && r.scan.Fits(r.st) && r.st.cursor.line == st.cursor.line
      ensures r.outcome == OpenedContainer ==> r.st.cursor.offset > st.cursor.offset
      ensures r.outcome == Nothing ==> r.st.cursor.next <= |r.st.cursor.line|
      ensures r.outcome == Done ==> r.scan.leaf == NoLeaf
    {
      var r := OpenLeafBlock(st, st.cursor.line[st.cursor.next..]);
      if r.outcome != Nothing || Depth(st) >= MAX_CONTAINER_DEPTH then r else r.scan.OpenListItem(r.st)
    }

    function OpenListItem(st: LineState): (r: Opened)
      requires Working() && Fits(st) && st.cursor.Advanced() && Depth(st) < MAX_CONTAINER_DEPTH
      ensures r.scan.Working() && SameLog(r.scan) && r.scan.Fits(r.st) && r.st.cursor.line == st.cursor.line
      ensures r.outcome == OpenedContainer ==> r.st.cursor.offset > st.cursor.offset
      ensures r.outcome == OpenedContainer || r == Opened(this, st, Nothing)
    {
      var item := ListItemStart(st.cursor.line, st.cursor.offset, st.cursor.next, st.paragraphContainer);
      if item == None then Opened(this, st, Nothing)
      else
        var after := st.(cursor := st.cursor.(offset := item.value.offset));
        Opened(AddContainer(after, Item(item.value.required, false)), after.(allClosed := true), OpenedContainer)
    }

    /** Opens blocks until none starts at the cursor; `Done` when one consumed the whole line. */
    function OpenBlocks(st: LineState): (r: Opened)
      requires Working() && Fits(st)
      ensures r.scan.Working() && SameLog(r.scan) && r.scan.Fits(r.st) && r.st.cursor.line == st.cursor.line
      ensures r.outcome == Done ==> r.scan.leaf == NoLeaf
      decreases |st.cursor.line| - st.cursor.offset
    {
      var r := OpenBlock(st);
      match r.outcome
      case OpenedContainer => r.scan.OpenBlocks(r.st.(paragraphContainer := false))
      case Nothing => r.(st := r.st.(cursor := r.st.cursor.(offset := r.st.cursor.next)))
      case _ => r
    }

    /** A new paragraph, root when no container is open, holding the newest line. */
    function StartParagraph(st: LineState, text: Text): (s: Scan)
      requires Working() && Fits(st)
      ensures s.Working() && SameLog(s)
    {
      var s := AddBlock(st);
      s.(leaf := Paragraph(|s.containers| == 0, [],
        if g.mayOpenDefinition(text) then Some([]) else None)).AddParagraphLine(text)
    }

    function AddContent(st: LineState): (s: Scan)
      requires Working() && Fits(st)
      ensures s.Working() && SameLog(s)
    {
      var text := st.cursor.line[st.cursor.offset..];
      if LazyParagraph(st) then AddParagraphLine(text)
      else
        var s, closed := CloseUnmatched(st), st.(allClosed := true);
        if s.leaf.Paragraph? then s.AddParagraphLine(text)
        else if s.leaf == NoLeaf && !st.cursor.blank then s.StartParagraph(closed, text)
        else s.AddToLeaf(st, text)
    }

    /** A line of a code or HTML block, or a blank line; an HTML block may end with it. */
    function AddToLeaf(st: LineState, text: Text): (s: Scan)
      requires Working() && !leaf.Paragraph?
      ensures s.Working() && SameLog(s)
    {
      var s := if RunLength(st.cursor.line, c => c == SPACE) < |st.cursor.line| then MarkNewest(Content) else this;
      if leaf.Html? && 1 <= leaf.kind <= 5 && g.htmlCloses(leaf.kind, text) then s.(leaf := NoLeaf) else s
    }

    function MatchContainers(st: LineState): (r: LineState)
      requires st.cursor.Within() && st.matched <= |containers|
      ensures r.cursor.Within() && r.matched <= |containers| && r.cursor.line == st.cursor.line
      decreases |containers| - st.matched
    {
      if st.matched == |containers| then st
      else
        var c := st.cursor.Advance();
        var next := Continues(containers[st.matched], c);
        if next == None then st.(cursor := c)
        else MatchContainers(st.(cursor := next.value, matched := st.matched + 1))
    }

    /** Whether the open leaf continues; `Done` when the line closes a fenced code block. */
    function MatchLeaf(st: LineState): (r: Opened)
      requires Working() && st.cursor.Within() && st.matched <= |containers|
      ensures r.scan.Working() && SameLog(r.scan) && r.scan.Fits(r.st)
      ensures (r.outcome == Done && r.scan.leaf == NoLeaf) || r.scan == this
    {
      var containersMatched := st.matched == |containers|;
      var c := if containersMatched && leaf != NoLeaf then st.cursor.Advance() else st.cursor;
      if containersMatched && leaf.Fenced? && c.indent < 4 && g.fenceCloses(leaf.fence, c.line[c.next..]) then
        Opened(this.(leaf := NoLeaf).MarkNewest(Content), st.(cursor := c, containersMatched := true), Done)
      else
        var leafMatched := containersMatched && leaf != NoLeaf && leaf.Continues(c);
        Opened(this,
               LineState(c, st.matched, containersMatched, leafMatched,
                         containersMatched && (leaf == NoLeaf || leafMatched), leafMatched && leaf.Paragraph?),
               Nothing)
    }

    /** Places one physical line: in a leaf that takes it, in a block it starts, or in a paragraph. */
    function ScanPhysical(line: Text): (s: Scan)
      requires Working()
      ensures s.Working() && SameLog(s)
    {
      var start := LineState(Cursor(line, 0, 0, 0, true), 0, false, false, false, false);
      var m := MatchLeaf(MatchContainers(start));
      if m.outcome == Done then m.scan
      else if m.st.containersMatched && m.st.leafMatched && leaf != NoLeaf && !leaf.Paragraph? then AddContent(m.st)
      else
        var r := OpenBlocks(m.st);
        if r.outcome == Done then r.scan else r.scan.AddContent(r.st)
    }

    /** The physical lines of a native line, until a handler stops the scan. */
    function ScanPieces(pieces: seq<Text>): (s: Scan)
      requires Working()
      ensures s.Working() && SameLog(s)
      decreases |pieces|
    {
      if stopped || pieces == [] then this else ScanPhysical(g.expandTabs(pieces[0])).ScanPieces(pieces[1..])
    }

    /** Reports the first waiting line. */
    function Report(): Scan
      requires Working()
    {
      var n := |lines|;
      var lines' := lines + [LineEvent(n + 1, texts[n], doc[n])];
      this.(lines := lines', stopped := !handlers.onLine(lines', spans))
    }

    /** Reports every line before the first one that the open root paragraph still holds. */
    function Flush(): (s: Scan)
      requires Blocks()
      ensures s.Blocks()
      decreases |doc| - |lines|
    {
      if stopped || |lines| == |doc| || |lines| + 1 in leaf.Held() then this else Report().Flush()
    }

    function ScanLine(text: Text): (s: Scan)
      requires Blocks()
      ensures s.Blocks()
    {
      var s := this.(texts := texts + [text], doc := doc + [Mark(Blank, false)]).ScanPieces(Pieces(|doc| + 1, text));
      if s.stopped then s else s.Flush()
    }

    function ScanLines(source: seq<Text>): (s: Scan)
      requires Blocks()
      ensures s.Blocks()
      decreases |source|
    {
      if stopped || source == [] then this else ScanLine(source[0]).ScanLines(source[1..])
    }

    /** Reports lines as frontmatter. */
    function ReportFrontmatter(source: seq<Text>): (s: Scan)
      decreases |source|
    {
      if stopped || source == [] then this
      else
        var lines' := lines + [LineEvent(|lines| + 1, source[0], Mark(FrontmatterLine, false))];
        this.(texts := texts + [source[0]], doc := doc + [Mark(FrontmatterLine, false)], lines := lines',
              stopped := !handlers.onLine(lines', spans)).ReportFrontmatter(source[1..])
    }

    /** Reports the frontmatter span. */
    function EmitFrontmatterSpan(source: seq<Text>): Scan
      requires source != []
    {
      var spans' := spans + [Span(true, Heading(0, 1, |source|, StripTerminator(source[0])), |source|)];
      this.(spans := spans', stopped := !handlers.onSpan(lines, spans'))
    }

    /** Releases the open paragraph, reports the lines left, and ends the sections still open. */
    function Finish(last: nat): (s: Scan)
      requires Blocks()
    {
      CloseLeaf().Flush().CloseAll(last)
    }

    /** Reports the headings still open, innermost first, as sections that end on the last line. */
    function CloseAll(last: nat): (s: Scan)
      decreases |headings|
    {
      if stopped || headings == [] then this
      else
        this.(headings := headings[..|headings| - 1], ledger := ledger.Pop())
        .EmitHeadingSpan(headings[|headings| - 1], last).CloseAll(last)
    }
  }

  /** A native line without a lone CR is one physical line. */
  predicate Plain(line: nat, text: Text) { |Pieces(line, text)| == 1 }

  predicate AllPlain(source: seq<Text>, line: nat) {
    source == [] || (Plain(line, source[0]) && AllPlain(source[1..], line + 1))
  }

  /** A scanner before its first line. */
  function Fresh(g: Grammar, handlers: Handlers): Scan {
    Scan(g, handlers, [], [], [], false, [], NoLeaf, [], [], [], Ledger([], []))
  }

  /** The scan together with the lines held back because line one opened what may be frontmatter. */
  datatype Session = Session(
    scan: Scan, frontmatter: Option<seq<Text>>, pushed: seq<Text>,
    /** History: how many frontmatter spans were reported, and that no scanned line held a lone CR. */
    skip: nat,
    plain: bool)
  {

    function Push(line: Text): Session
      requires scan.Blocks()
    {
      if scan.stopped then this
      else
        var next := this.(pushed := pushed + [line]);
        if frontmatter.Some? then
          var held := frontmatter.value + [line];
          if scan.g.isDelimiter(line, true)
            then next.(frontmatter := None, scan := CloseFrontmatter(scan, held), skip := 1)
          else next.(frontmatter := Some(held))
        else if pushed == [] && scan.g.isDelimiter(WithoutByteOrderMark(line), false)
          then next.(frontmatter := Some([line]))
        else next.(scan := scan.ScanLine(line), plain := plain && Plain(|pushed| + 1, line))
    }

    /** Lines held as possible frontmatter that nothing closed are scanned after all. */
    function Replayed(): (s: Scan)
      requires scan.Blocks()
      ensures s.Blocks()
    {
      if frontmatter.Some? then scan.ScanLines(frontmatter.value) else scan
    }

    function ReplayedPlain(): bool {
      plain && (frontmatter.Some? ==> AllPlain(frontmatter.value, 1))
    }

    /**
     After this nothing is undecided: held-back lines get their marks, and headings still open end at the last
     line.
     */
    function End(): Session
      requires scan.Blocks()
    {
      if scan.stopped then this
      else this.(frontmatter := None, scan := Replayed().Finish(|pushed|), plain := ReplayedPlain())
    }
  }

  function CloseFrontmatter(s: Scan, held: seq<Text>): Scan
    requires held != []
  {
    var t := s.ReportFrontmatter(held);
    if t.stopped then t else t.EmitFrontmatterSpan(held)
  }

  /** The physical lines of native line `line`: a leading byte order mark is not part of them. */
  function Pieces(line: nat, text: Text): seq<Text> {
    SplitAtCr(StripTerminator(if line == 1 then WithoutByteOrderMark(text) else text))
  }

  datatype Opened = Opened(scan: Scan, st: LineState, outcome: Outcome)
}
