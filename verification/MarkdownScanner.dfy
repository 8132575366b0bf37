/**
 The scanner as it runs: lines wait in a queue with a read head, and `pending` counts how often a line
 occurs in the open root paragraph, so that flushing needs to look at one number per line. Each method is
 proved to do to the scan's value what `ScannerModel` says, whose flush asks whether the paragraph holds
 the line.
 */
module MarkdownScanner {
  import opened Text
  import opened MarkdownSyntax
  import opened Outline
  import opened ScannerModel
  import opened ScannerRuns

  datatype Entry = Entry(line: nat, text: Text, mark: Mark, pending: int)

  /**
   The queue from `head` on holds the lines after the first `from`, each with its number of occurrences in
   the open root paragraph.
   */
  ghost predicate Waits(queue: seq<Entry>, head: nat, from: nat, texts: seq<Text>, doc: seq<Mark>, held: seq<nat>) {
    && head <= |queue| && |doc| == |texts| == from + |queue| - head
    && (forall i :: head <= i < |queue| ==>
          var n := from + i - head;
          queue[i] == Entry(n + 1, texts[n], doc[n], multiset(held)[n + 1]))
  }

  ghost predicate Queues(s: Scan, queue: seq<Entry>, head: nat) {
    Waits(queue, head, |s.lines|, s.texts, s.doc, s.leaf.Held())
  }

  /** Deciding one held line takes one from its count. */
  lemma DecideOne(queue: seq<Entry>, head: nat, from: nat, texts: seq<Text>, doc: seq<Mark>, held: seq<nat>, m: Mark)
    requires Waits(queue, head, from, texts, doc, held) && held != [] && from < held[0] <= |doc|
    ensures var i := head + held[0] - from - 1;
            && queue[i].mark == doc[held[0] - 1]
            && Waits(queue[i := queue[i].(mark := m, pending := queue[i].pending - 1)], head, from, texts,
                     doc[held[0] - 1 := m], held[1..])
  {
    assert held == [held[0]] + held[1..];
  }

  /** What the last entry of the queue says of the newest line. */
  lemma Newest(queue: seq<Entry>, head: nat, from: nat, texts: seq<Text>, doc: seq<Mark>, held: seq<nat>)
    requires Waits(queue, head, from, texts, doc, held) && from < |doc|
    ensures head < |queue| && queue[|queue| - 1].line == |doc| && queue[|queue| - 1].mark == doc[|doc| - 1]
  {
  }

  /** A line that still waits is read from the queue. */
  lemma TextAt(queue: seq<Entry>, head: nat, from: nat, texts: seq<Text>, doc: seq<Mark>, held: seq<nat>, line: nat)
    requires Waits(queue, head, from, texts, doc, held) && from < line <= |doc|
    ensures line <= |texts| && head + line - from - 1 < |queue| && queue[head + line - from - 1].text == texts[line - 1]
  {
  }

  /** The line a setext heading starts on still waits. */
  lemma FirstWaits(s: Scan)
    requires s.Working() && s.SetextApplies() && s.leaf.root
    ensures |s.lines| < s.SetextHeading(1).line <= |s.doc|
  {
  }

  /** Marking the newest line leaves its count. */
  lemma MarkOne(queue: seq<Entry>, head: nat, from: nat, texts: seq<Text>, doc: seq<Mark>, held: seq<nat>, m: Mark)
    requires Waits(queue, head, from, texts, doc, held) && from < |doc|
    ensures var i := |queue| - 1;
            i >= 0 && Waits(queue[i := queue[i].(mark := m)], head, from, texts, doc[|doc| - 1 := m], held)
  {
  }

  /** Holding the newest line adds one to its count. */
  lemma HoldOne(queue: seq<Entry>, head: nat, from: nat, texts: seq<Text>, doc: seq<Mark>, held: seq<nat>, m: Mark)
    requires Waits(queue, head, from, texts, doc, held) && from < |doc|
    ensures var i := |queue| - 1;
            i >= 0 && Waits(queue[i := queue[i].(mark := m, pending := queue[i].pending + 1)], head, from, texts,
                            doc[|doc| - 1 := m], held + [|doc|])
  {
  }

  /** Each line a closing paragraph holds becomes content. */
  method Release(queue: seq<Entry>, head: nat, from: nat, held: seq<nat>, ghost texts: seq<Text>, ghost doc: seq<Mark>)
    returns (q: seq<Entry>)
    requires Waits(queue, head, from, texts, doc, held) && Within(held, from, |doc|)
    ensures |q| == |queue| && Waits(q, head, from, texts, Released(doc, held, |held|), [])
  {
    q := queue;
    ghost var d := doc;
    for k := 0 to |held|
      invariant |q| == |queue| && d == Released(doc, held, k) && Waits(q, head, from, texts, d, held[k..])
    {
      var i := head + held[k] - from - 1;
      var mark := q[i].mark.As(Content);
      DecideOne(q, head, from, texts, d, held[k..], mark);
      q := q[i := q[i].(mark := mark, pending := q[i].pending - 1)];
      d := MarkAt(d, held[k] - 1, Content);
    }
  }

  /** The lines a paragraph holds become its heading's, those that definitions consume excepted. */
  method Promote(queue: seq<Entry>, head: nat, from: nat, held: seq<nat>, consumed: nat, heading: Heading,
                 ghost texts: seq<Text>, ghost doc: seq<Mark>)
    returns (q: seq<Entry>)
    requires Waits(queue, head, from, texts, doc, held) && Within(held, from, |doc|)
    ensures |q| == |queue| && Waits(q, head, from, texts, Promoted(doc, held, |held|, consumed, heading), [])
  {
    q := queue;
    ghost var d := doc;
    for k := 0 to |held|
      invariant |q| == |queue| && d == Promoted(doc, held, k, consumed, heading)
        && Waits(q, head, from, texts, d, held[k..])
    {
      var i := head + held[k] - from - 1;
      var mark := PromotedLine(q[i].mark, k < consumed, heading);
      DecideOne(q, head, from, texts, d, held[k..], mark);
      q := q[i := q[i].(mark := mark, pending := q[i].pending - 1)];
      d := PromoteAt(d, held[k] - 1, k < consumed, heading);
    }
  }

  class Scanner {
    const g: Grammar
    const handlers: Handlers

    var stopped: bool
    var lineCount: nat
    var frontmatter: Option<seq<Text>>
    var queue: seq<Entry>
    var queueHead: nat
    var containers: seq<Container>
    var leaf: Leaf
    var headings: seq<Heading>

    /** What the handlers were called with, in call order. */
    var lines: seq<LineEvent>
    var spans: seq<Span>

    /** Everything pushed, and the scan's history. */
    ghost var pushed: seq<Text>
    ghost var skip: nat
    ghost var plain: bool
    ghost var texts: seq<Text>
    ghost var doc: seq<Mark>
    ghost var outline: seq<Heading>
    ghost var ledger: Ledger

    ghost function State(): Scan
      reads this
    {
      Scan(g, handlers, texts, doc, lines, stopped, containers, leaf, headings, spans, outline, ledger)
    }

    ghost predicate Valid()
      reads this
    {
      State().Blocks() && Queues(State(), queue, queueHead)
    }

    ghost predicate Working()
      reads this
    {
      Valid() && State().Working()
    }

    ghost function Whole(): Session
      reads this
    {
      Session(State(), frontmatter, pushed, skip, plain)
    }

    ghost predicate Open()
      reads this
    {
      Valid() && SessionOk(Whole()) && lineCount == |pushed|
    }

    constructor (g: Grammar, handlers: Handlers)
      ensures Open() && Whole() == Start(g, handlers)
    {
      this.g, this.handlers := g, handlers;
      stopped, lineCount, frontmatter := false, 0, None;
      queue, queueHead, containers, leaf, headings := [], 0, [], NoLeaf, [];
      lines, spans := [], [];
      pushed, skip, plain := [], 0, true;
      texts, doc, outline, ledger := [], [], [], Ledger([], []);
      new;
      StartOk(g, handlers);
    }

    method CloseLeaf()
      requires Valid()
      modifies this`leaf, this`queue, this`doc
      ensures Valid() && State() == old(State()).CloseLeaf() && |queue| == old(|queue|)
    {
      var held := leaf.Held();
      queue := Release(queue, queueHead, |lines|, held, texts, doc);
      doc := Released(doc, held, |held|);
      leaf := NoLeaf;
    }

    method MarkNewest(role: Role)
      requires Working()
      modifies this`queue, this`doc
      ensures Working() && State() == old(State()).MarkNewest(role)
    {
      hide Waits, Within;
      Newest(queue, queueHead, |lines|, texts, doc, leaf.Held());
      MarkOne(queue, queueHead, |lines|, texts, doc, leaf.Held(), doc[|doc| - 1].As(role));
      var i := |queue| - 1;
      queue := queue[i := queue[i].(mark := queue[i].mark.As(role))];
      doc := MarkAt(doc, |doc| - 1, role);
    }

    method EmitHeadingSpan(heading: Heading, endLine: int)
      modifies this`spans, this`stopped
      ensures State() == old(State()).EmitHeadingSpan(heading, endLine)
    {
      spans := spans + [Span(false, heading, endLine)];
      if !handlers.onSpan(lines, spans) { stopped := true; }
    }

    method PopFor(heading: Heading)
      requires headings != []
      modifies this`headings, this`spans, this`stopped, this`ledger
      ensures State() == old(State()).PopFor(heading) && |headings| == old(|headings|) - 1
    {
      var top := headings[|headings| - 1];
      headings := headings[..|headings| - 1];
      ledger := ledger.Pop();
      EmitHeadingSpan(top, Max(heading.line - 1, top.headEnd));
    }

    method OpenHeading(heading: Heading)
      requires Working()
      modifies this`headings, this`spans, this`stopped, this`outline, this`ledger
      ensures Working() && State() == old(State()).OpenHeading(heading)
    {
      hide Waits, Within, Scan.EmitHeadingSpan;
      while !stopped
        invariant State().Blocks() && State().CloseFor(heading) == old(State()).CloseFor(heading)
        decreases |headings|
      {
        if |headings| == 0 || headings[|headings| - 1].depth < heading.depth { break; }
        PopFor(heading);
      }
      assert State().CloseFor(heading) == State();
      headings := headings + [heading];
      outline, ledger := outline + [heading], Ledger(ledger.stack + [|outline|], ledger.closed);
    }

    method AddParagraphLine(text: Text)
      requires Working()
      modifies this`queue, this`doc, this`leaf
      ensures Working() && State() == old(State()).AddParagraphLine(text)
    {
      if !leaf.Paragraph? { return; }
      var texts := if leaf.definitionText.Some? then Some(leaf.definitionText.value + [text]) else None;
      if !leaf.root {
        leaf := leaf.(definitionText := texts);
        MarkNewest(Content);
        return;
      }
      JoinParagraph(texts);
    }

    /** The newest line joins the open root paragraph: one more occurrence to decide. */
    method JoinParagraph(texts: Option<seq<Text>>)
      requires Working() && leaf.Paragraph? && leaf.root
      requires texts.Some? ==> |texts.value| == |leaf.lines| + 1
      modifies this`queue, this`doc, this`leaf
      ensures Working()
      ensures State() == old(State()).(leaf := old(leaf).(lines := old(leaf).lines + [|doc|], definitionText := texts),
                                       doc := old(doc)[|doc| - 1 := old(doc)[|doc| - 1].(rootParagraph := true)])
    {
      hide Waits;
      Newest(queue, queueHead, |lines|, this.texts, doc, leaf.Held());
      HoldOne(queue, queueHead, |lines|, this.texts, doc, leaf.Held(), doc[|doc| - 1].(rootParagraph := true));
      var i := |queue| - 1;
      leaf := leaf.(lines := leaf.lines + [queue[i].line], definitionText := texts);
      queue := queue[i := queue[i].(mark := queue[i].mark.(rootParagraph := true), pending := queue[i].pending + 1)];
      doc := doc[|doc| - 1 := doc[|doc| - 1].(rootParagraph := true)];
    }

    /** Refused exactly when no line of the paragraph is left after its definitions; else the model's heading. */
    method Setext(depth: nat) returns (ok: bool)
      requires Working()
      modifies this`leaf, this`queue, this`doc, this`headings, this`spans, this`stopped, this`outline, this`ledger
      ensures Working()
      ensures ok == old(State()).SetextApplies()
      ensures State() == if ok then old(State()).Setext(depth) else old(State())
    {
      if !leaf.Paragraph? { return false; }
      var consumed := if leaf.definitionText.Some? then g.definitionLineCount(leaf.definitionText.value) else 0;
      if leaf.definitionText.Some? && consumed >= |leaf.definitionText.value| { return false; }
      if leaf.root {
        PromoteParagraph(depth, consumed);
      } else {
        leaf := NoLeaf;
        MarkNewest(Content);
      }
      return true;
    }

    /** The lines the paragraph holds, and the newest, become the heading's; those its definitions consume do not. */
    method HeadParagraph(heading: Heading, consumed: nat)
      requires Working() && leaf.Paragraph? && leaf.root
      modifies this`leaf, this`queue, this`doc
      ensures Working()
      ensures State()
           == old(State()).(doc := Promoted(old(doc), old(leaf).lines, |old(leaf).lines|, consumed, heading),
                            leaf := NoLeaf)
                         .MarkNewest(HeadingLine(heading))
    {
      hide Waits;
      queue := Promote(queue, queueHead, |lines|, leaf.lines, consumed, heading, texts, doc);
      doc := Promoted(doc, leaf.lines, |leaf.lines|, consumed, heading);
      leaf := NoLeaf;
      MarkNewest(HeadingLine(heading));
    }

    method ReadSetextHeading(depth: nat, consumed: nat) returns (heading: Heading)
      requires Working() && State().SetextApplies() && leaf.root && consumed == State().Consumed()
      ensures heading == State().SetextHeading(depth)
    {
      hide Waits, Within, StripTerminator, Scan.CloseFor, Released, Promoted;
      Newest(queue, queueHead, |lines|, texts, doc, leaf.Held());
      var newest := queue[|queue| - 1].line;
      var first := if consumed < |leaf.lines| then leaf.lines[consumed] else newest;
      FirstWaits(State());
      TextAt(queue, queueHead, |lines|, texts, doc, leaf.Held(), first);
      heading := Heading(depth, first, newest, StripTerminator(queue[queueHead + first - |lines| - 1].text));
    }

    method PromoteParagraph(depth: nat, consumed: nat)
      requires Working() && State().SetextApplies() && leaf.root && consumed == State().Consumed()
      modifies this`leaf, this`queue, this`doc, this`headings, this`spans, this`stopped, this`outline, this`ledger
      ensures Working() && State() == old(State()).Setext(depth)
    {
      hide Waits, Within, Promoted, Scan.MarkNewest, Scan.OpenHeading, Scan.SetextHeading;
      var heading := ReadSetextHeading(depth, consumed);
      HeadParagraph(heading, consumed);
      OpenHeading(heading);
    }

    method CloseUnmatched(st: LineState) returns (st': LineState)
      requires Working() && State().Fits(st)
      modifies this`leaf, this`queue, this`doc, this`containers
      ensures Working() && State() == old(State()).CloseUnmatched(st) && st' == st.(allClosed := true)
    {
      st' := st.(allClosed := true);
      if st.allClosed { return; }
      if !(st.containersMatched && st.leafMatched) { CloseLeaf(); }
      containers := containers[..st.matched];
    }

    /** The object's containers, leaf and queue become the model's with room for a block. */
    method AddBlock(st: LineState) returns (st': LineState)
      requires Working() && State().Fits(st)
      modifies this`leaf, this`queue, this`doc, this`containers
      ensures Working() && State() == old(State()).AddBlock(st) && st' == st.(allClosed := true)
    {
      hide Waits, Within, Scan.CloseUnmatched, Scan.CloseLeaf;
      st' := CloseUnmatched(st);
      CloseLeaf();
      var n := |containers|;
      if n > 0 && containers[n - 1].Item? {
        containers := containers[n - 1 := containers[n - 1].(hasChild := true)];
      }
    }

    method AddContainer(st: LineState, container: Container) returns (st': LineState)
      requires Working() && State().Fits(st) && State().Depth(st) < MAX_CONTAINER_DEPTH
      modifies this`leaf, this`queue, this`doc, this`containers
      ensures Working() && State() == old(State()).AddContainer(st, container) && st' == st.(allClosed := true)
    {
      st' := AddBlock(st);
      containers := containers + [container];
    }

    method AddLeaf(st: LineState, newLeaf: Leaf) returns (st': LineState)
      requires Working() && State().Fits(st) && !newLeaf.Paragraph?
      modifies this`leaf, this`queue, this`doc, this`containers
      ensures Working() && State() == old(State()).AddLeaf(st, newLeaf)
      ensures st' == st.(allClosed := true, cursor := st.cursor.(offset := st.cursor.next))
    {
      st' := AddBlock(st);
      leaf := newLeaf;
      st' := st'.(cursor := st'.cursor.(offset := st'.cursor.next));
    }

    method AddAtxHeading(st: LineState, depth: nat) returns (st': LineState)
      requires Working() && State().Fits(st)
      modifies this`leaf, this`queue, this`doc, this`containers, this`headings, this`spans, this`stopped,
               this`outline, this`ledger
      ensures Working() && State() == old(State()).AddAtxHeading(st, depth) && st' == st.(allClosed := true)
    {
      hide Within, Scan.AddBlock, Scan.OpenHeading;
      st' := AddBlock(st);
      if |containers| > 0 {
        MarkNewest(Content);
        return;
      }
      var newest := queue[|queue| - 1];
      var heading := Heading(depth, newest.line, newest.line, StripTerminator(newest.text));
      MarkNewest(HeadingLine(heading));
      OpenHeading(heading);
    }

    method OpenThematic(st: LineState, rest: Text) returns (st': LineState, outcome: Outcome)
      requires Working() && State().Fits(st)
      modifies this`leaf, this`queue, this`doc, this`containers
      ensures Working() && Opened(State(), st', outcome) == old(State()).OpenThematic(st, rest)
    {
      if !g.thematicBreak(rest) { return st, Nothing; }
      st' := AddBlock(st);
      MarkNewest(Content);
      outcome := Done;
    }

    method OpenLeafBlock(st: LineState, rest: Text) returns (st': LineState, outcome: Outcome)
      requires Working() && State().Fits(st) && st.cursor.next <= |st.cursor.line|
      modifies this`leaf, this`queue, this`doc, this`containers, this`headings, this`spans, this`stopped,
               this`outline, this`ledger
      ensures Working() && Opened(State(), st', outcome) == old(State()).OpenLeafBlock(st, rest)
    {
      hide Waits, Within, Scan.AddAtxHeading, Scan.AddLeaf, Scan.CloseUnmatched, Scan.Setext, Scan.OpenThematic,
           AtxDepth;
      var depth := AtxDepth(rest);
      if depth > 0 {
        st' := AddAtxHeading(st, depth);
        return st', Done;
      }
      var fence := g.fenceOpen(rest);
      if fence.Some? {
        st' := AddLeaf(st, Fenced(fence.value));
        return st', OpenedLeaf;
      }
      var html := g.htmlStartKind(rest, !(st.paragraphContainer || LazyParagraph(st)));
      if html > 0 {
        st' := AddLeaf(st, Html(html));
        return st', OpenedLeaf;
      }
      st' := st;
      if st.paragraphContainer && g.setextUnderline(rest) {
        st' := CloseUnmatched(st);
        var ok := Setext(if |rest| > 0 && rest[0] == EQUALS then 1 else 2);
        if ok { return st', Done; }
      }
      st', outcome := OpenThematic(st', rest);
    }

    predicate LazyParagraph(st: LineState)
      reads this
    {
      !st.allClosed && !st.cursor.blank && leaf.Paragraph?
    }

    method OpenBlock(st: LineState) returns (st': LineState, outcome: Outcome)
      requires Working() && State().Fits(st)
      modifies this`leaf, this`queue, this`doc, this`containers, this`headings, this`spans, this`stopped,
               this`outline, this`ledger
      ensures Working() && Opened(State(), st', outcome) == old(State()).OpenBlock(st)
    {
      var c := AdvanceCursor(st.cursor);
      var here := st.(cursor := c);
      if c.indent >= 4 {
        if leaf.Paragraph? || c.blank { return here, Nothing; }
        st' := AddLeaf(here, Indented);
        return st', OpenedLeaf;
      }
      var depth := if st.allClosed then |containers| else st.matched;
      if depth < MAX_CONTAINER_DEPTH && c.next < |c.line| && c.line[c.next] == GREATER {
        st' := AddContainer(here.(cursor := ConsumeQuoteMarker(c)), Quote);
        return st', OpenedContainer;
      }
      st', outcome := OpenLeafOrItem(here, depth < MAX_CONTAINER_DEPTH);
    }

    method OpenLeafOrItem(st: LineState, nestable: bool) returns (st': LineState, outcome: Outcome)
      requires Working() && State().Fits(st) && st.cursor.Advanced()
        && nestable == (State().Depth(st) < MAX_CONTAINER_DEPTH)
      modifies this`leaf, this`queue, this`doc, this`containers, this`headings, this`spans, this`stopped,
               this`outline, this`ledger
      ensures Working() && Opened(State(), st', outcome) == old(State()).OpenLeafOrItem(st)
    {
      st', outcome := OpenLeafBlock(st, st.cursor.line[st.cursor.next..]);
      if outcome != Nothing || !nestable { return; }
      var item := ListItemStart(st'.cursor.line, st'.cursor.offset, st'.cursor.next, st'.paragraphContainer);
      if item == None { return; }
      st' := AddContainer(st'.(cursor := st'.cursor.(offset := item.value.offset)), Item(item.value.required, false));
      outcome := OpenedContainer;
    }

    /** Opens blocks until none starts at the cursor, which every container start moves forward. */
    method OpenBlocks(st: LineState) returns (st': LineState, outcome: Outcome)
      requires Working() && State().Fits(st)
      modifies this`leaf, this`queue, this`doc, this`containers, this`headings, this`spans, this`stopped,
               this`outline, this`ledger
      ensures Working() && Opened(State(), st', outcome) == old(State()).OpenBlocks(st)
    {
      st' := st;
      while true
        invariant Working() && State().Fits(st') && st'.cursor.line == st.cursor.line
        invariant State().OpenBlocks(st') == old(State()).OpenBlocks(st)
        decreases |st.cursor.line| - st'.cursor.offset
      {
        st', outcome := OpenBlock(st');
        if outcome == Nothing {
          st' := st'.(cursor := st'.cursor.(offset := st'.cursor.next));
        }
        if outcome != OpenedContainer { return; }
        st' := st'.(paragraphContainer := false);
      }
    }

    method StartParagraph(st: LineState, text: Text)
      requires Working() && State().Fits(st)
      modifies this`leaf, this`queue, this`doc, this`containers
      ensures Working() && State() == old(State()).StartParagraph(st, text)
    {
      hide Scan.AddBlock, Scan.AddParagraphLine;
      var _ := AddBlock(st);
      leaf := Paragraph(|containers| == 0, [], if g.mayOpenDefinition(text) then Some([]) else None);
      AddParagraphLine(text);
    }

    method AddToLeaf(st: LineState, text: Text)
      requires Working() && !leaf.Paragraph?
      modifies this`leaf, this`queue, this`doc
      ensures Working() && State() == old(State()).AddToLeaf(st, text)
    {
      if RunLength(st.cursor.line, c => c == SPACE) < |st.cursor.line| { MarkNewest(Content); }
      if leaf.Html? && 1 <= leaf.kind <= 5 && g.htmlCloses(leaf.kind, text) { leaf := NoLeaf; }
    }

    method AddContent(st: LineState)
      requires Working() && State().Fits(st)
      modifies this`leaf, this`queue, this`doc, this`containers
      ensures Working() && State() == old(State()).AddContent(st)
    {
      var text := st.cursor.line[st.cursor.offset..];
      if LazyParagraph(st) {
        AddParagraphLine(text);
        return;
      }
      var closed := CloseUnmatched(st);
      if leaf.Paragraph? {
        AddParagraphLine(text);
      } else if leaf == NoLeaf && !st.cursor.blank {
        StartParagraph(closed, text);
      } else {
        AddToLeaf(st, text);
      }
    }

    method MatchContainers(st: LineState) returns (st': LineState)
      requires Working() && st.cursor.Within() && st.matched == 0
      ensures st' == State().MatchContainers(st)
    {
      st' := st;
      while st'.matched < |containers|
        invariant st'.cursor.Within() && st'.matched <= |containers|
        invariant State().MatchContainers(st') == State().MatchContainers(st)
        decreases |containers| - st'.matched
      {
        var c := AdvanceCursor(st'.cursor);
        var next := Continues(containers[st'.matched], c);
        if next == None { return st'.(cursor := c); }
        st' := st'.(cursor := next.value, matched := st'.matched + 1);
      }
    }

    /** Whether the open leaf continues; `Done` when the line closes a fenced code block. */
    method MatchLeaf(st: LineState) returns (st': LineState, outcome: Outcome)
      requires Working() && st.cursor.Within() && st.matched <= |containers|
      modifies this`leaf, this`queue, this`doc
      ensures Working() && Opened(State(), st', outcome) == old(State()).MatchLeaf(st)
    {
      var containersMatched := st.matched == |containers|;
      var c, leafMatched := st.cursor, false;
      if containersMatched && leaf != NoLeaf {
        c := AdvanceCursor(c);
        if leaf.Fenced? && c.indent < 4 && g.fenceCloses(leaf.fence, c.line[c.next..]) {
          leaf := NoLeaf;
          MarkNewest(Content);
          return st.(cursor := c, containersMatched := true), Done;
        }
        leafMatched := leaf.Continues(c);
      }
      st' := LineState(c, st.matched, containersMatched, leafMatched,
                       containersMatched && (leaf == NoLeaf || leafMatched), leafMatched && leaf.Paragraph?);
      outcome := Nothing;
    }

    /** One physical line on the object is one on the model. */
    method ScanPhysical(line: Text)
      requires Working()
      modifies this`leaf, this`queue, this`doc, this`containers, this`headings, this`spans, this`stopped,
               this`outline, this`ledger
      ensures Working() && State() == old(State()).ScanPhysical(line)
    {
      var st := MatchContainers(LineState(Cursor(line, 0, 0, 0, true), 0, false, false, false, false));
      var outcome;
      st, outcome := MatchLeaf(st);
      if outcome == Done { return; }
      if !(st.containersMatched && st.leafMatched && leaf != NoLeaf && !leaf.Paragraph?) {
        st, outcome := OpenBlocks(st);
        if outcome == Done { return; }
      }
      AddContent(st);
    }

    method ReportHead()
      requires Valid() && queueHead < |queue| && queue[queueHead].pending == 0
      modifies this`queueHead, this`lines, this`stopped
      ensures Valid() && State() == old(State()).Report() && queueHead == old(queueHead) + 1
    {
      var head := queue[queueHead];
      queueHead := queueHead + 1;
      lines := lines + [LineEvent(head.line, head.text, head.mark)];
      stopped := !handlers.onLine(lines, spans);
    }

    /** Reports every line before the first one that still has occurrences to decide. */
    method Flush()
      requires Valid()
      modifies this`queue, this`queueHead, this`lines, this`stopped
      ensures Valid() && State() == old(State()).Flush()
    {
      while !stopped
        invariant Valid() && State().Flush() == old(State()).Flush() && doc == old(doc)
        decreases |queue| - queueHead
      {
        if queueHead == |queue| || queue[queueHead].pending > 0 { break; }
        ReportHead();
      }
      assert State().Flush() == State();
      if queueHead == |queue| {
        queue, queueHead := [], 0;
      }
    }

    method PushEntry(line: nat, text: Text)
      requires Valid() && line == |doc| + 1
      modifies this`queue, this`doc, this`texts
      ensures Working() && State() == NewLine(old(State()), text)
    {
      queue := queue + [Entry(line, text, Mark(Blank, false), 0)];
      texts, doc := texts + [text], doc + [Mark(Blank, false)];
    }

    method ScanPieces(pieces: seq<Text>)
      requires Working()
      modifies this`leaf, this`queue, this`doc, this`containers, this`headings, this`spans, this`stopped,
               this`outline, this`ledger
      ensures Working() && State() == old(State()).ScanPieces(pieces)
    {
      var k := 0;
      while k < |pieces| && !stopped
        invariant k <= |pieces| && Working()
        invariant State().ScanPieces(pieces[k..]) == old(State()).ScanPieces(pieces)
      {
        assert pieces[k..][1..] == pieces[k + 1..];
        ScanPhysical(g.expandTabs(pieces[k]));
        k := k + 1;
      }
    }

    method ScanLine(line: nat, text: Text)
      requires Valid() && line == |doc| + 1
      modifies this`leaf, this`queue, this`queueHead, this`doc, this`texts, this`lines, this`containers,
               this`headings, this`spans, this`stopped, this`outline, this`ledger
      ensures Valid() && State() == old(State()).ScanLine(text) && |doc| == old(|doc|) + 1
    {
      PushEntry(line, text);
      ScanPieces(Pieces(line, text));
      Flush();
    }

    method ReportFrontmatterLine(line: nat, text: Text)
      requires Valid() && |lines| == |doc| && line == |doc| + 1 && leaf == NoLeaf
      modifies this`doc, this`texts, this`lines, this`stopped
      ensures Valid() && |lines| == |doc| == line
      ensures var lines' := old(lines) + [LineEvent(line, text, Mark(FrontmatterLine, false))];
              State() == old(State()).(texts := old(texts) + [text], doc := old(doc) + [Mark(FrontmatterLine, false)],
                                       lines := lines', stopped := !handlers.onLine(lines', spans))
    {
      lines := lines + [LineEvent(line, text, Mark(FrontmatterLine, false))];
      texts, doc := texts + [text], doc + [Mark(FrontmatterLine, false)];
      stopped := !handlers.onLine(lines, spans);
    }

    method CloseFrontmatter(held: seq<Text>)
      requires Valid() && !stopped && State() == Fresh(g, handlers) && held != []
      modifies this`doc, this`texts, this`lines, this`stopped, this`spans
      ensures Valid() && State() == ScannerModel.CloseFrontmatter(old(State()), held)
    {
      var k := 0;
      while k < |held| && !stopped
        invariant k <= |held| && Valid() && |lines| == |doc| == k && leaf == NoLeaf
        invariant State().ReportFrontmatter(held[k..]) == old(State()).ReportFrontmatter(held)
      {
        assert held[k..][1..] == held[k + 1..];
        ReportFrontmatterLine(k + 1, held[k]);
        k := k + 1;
      }
      if stopped { return; }
      spans := spans + [Span(true, Heading(0, 1, |held|, StripTerminator(held[0])), |held|)];
      stopped := !handlers.onSpan(lines, spans);
    }

    /** The lines held since a line-one delimiter, closed as frontmatter or held on. */
    method PushHeld(nativeLine: Text)
      requires Valid() && !stopped && lineCount == |pushed| && frontmatter.Some? && State() == Fresh(g, handlers)
      modifies this
      ensures Valid() && lineCount == |pushed| && Whole() == old(Whole()).Push(nativeLine)
    {
      hide Waits, ScannerModel.CloseFrontmatter, Scan.ScanLine, Plain;
      lineCount, pushed := lineCount + 1, pushed + [nativeLine];
      var held := frontmatter.value + [nativeLine];
      if g.isDelimiter(nativeLine, true) {
        frontmatter, skip := None, 1;
        CloseFrontmatter(held);
      } else {
        frontmatter := Some(held);
      }
    }

    method PushScanned(nativeLine: Text)
      requires Valid() && !stopped && lineCount == |pushed| == |doc| && frontmatter.None?
      modifies this
      ensures Valid() && lineCount == |pushed| && Whole() == old(Whole()).Push(nativeLine)
    {
      hide Waits, Scan.ScanLine, Plain;
      lineCount, pushed := lineCount + 1, pushed + [nativeLine];
      if lineCount == 1 && g.isDelimiter(WithoutByteOrderMark(nativeLine), false) {
        frontmatter := Some([nativeLine]);
      } else {
        plain := plain && Plain(lineCount, nativeLine);
        ScanLine(lineCount, nativeLine);
      }
    }

    /** One more native line on the object is one on the model; the answer is whether more are wanted. */
    method Push(nativeLine: Text) returns (more: bool)
      requires Open()
      modifies this
      ensures Open() && Whole() == old(Whole()).Push(nativeLine) && more == !stopped
    {
      if stopped { return false; }
      hide Waits, Session.Push, LogOk;
      PushOk(Whole(), nativeLine);
      if frontmatter.Some? {
        PushHeld(nativeLine);
      } else {
        PushScanned(nativeLine);
      }
      more := !stopped;
    }

    method ScanLines(source: seq<Text>)
      requires Valid() && doc == []
      modifies this`leaf, this`queue, this`queueHead, this`doc, this`texts, this`lines, this`containers,
               this`headings, this`spans, this`stopped, this`outline, this`ledger
      ensures Valid() && State() == old(State()).ScanLines(source)
    {
      var k := 0;
      while k < |source| && !stopped
        invariant k <= |source| && Valid() && |doc| == k
        invariant State().ScanLines(source[k..]) == old(State()).ScanLines(source)
      {
        assert source[k..][1..] == source[k + 1..];
        ScanLine(k + 1, source[k]);
        k := k + 1;
      }
    }

    method CloseAll(last: nat)
      modifies this`headings, this`spans, this`stopped, this`ledger
      ensures State() == old(State()).CloseAll(last)
    {
      while !stopped && |headings| > 0
        invariant State().CloseAll(last) == old(State()).CloseAll(last)
        decreases |headings|
      {
        var heading := headings[|headings| - 1];
        headings := headings[..|headings| - 1];
        ledger := ledger.Pop();
        EmitHeadingSpan(heading, last);
      }
    }

    method Finish()
      requires Valid()
      modifies this`leaf, this`queue, this`queueHead, this`doc, this`lines, this`headings, this`spans, this`stopped,
               this`ledger
      ensures State() == old(State()).Finish(lineCount)
    {
      CloseLeaf();
      Flush();
      CloseAll(lineCount);
    }

    method Replay()
      requires Valid() && (frontmatter.Some? ==> doc == [])
      modifies this`frontmatter, this`plain, this`leaf, this`queue, this`queueHead, this`doc, this`texts, this`lines,
               this`containers, this`headings, this`spans, this`stopped, this`outline, this`ledger
      ensures Valid() && State() == old(Whole()).Replayed() && frontmatter == None
        && plain == old(Whole()).ReplayedPlain()
    {
      if frontmatter.Some? {
        ScanLines(frontmatter.value);
        plain := plain && AllPlain(frontmatter.value, 1);
        frontmatter := None;
      }
    }

    /** The object's end is the model's: replayed frontmatter, decided lines, ended sections. */
    method End()
      requires Open()
      modifies this
      ensures Whole() == old(Whole()).End()
    {
      hide Waits, Session.Replayed, Session.ReplayedPlain, Scan.Finish, LogOk;
      if stopped { return; }
      Replay();
      Finish();
    }
  }

  /** Scans a document line by line until a handler stops it, then settles what is left. */
  method ScanDocument(g: Grammar, handlers: Handlers, source: seq<Text>)
    returns (lines: seq<LineEvent>, spans: seq<Span>, stopped: bool)
    ensures var e := Scanned(g, handlers, source);
            && (lines, spans, stopped) == (e.scan.lines, e.scan.spans, e.scan.stopped)
            && Faithful(e, source)
  {
    hide Session.Push, Session.End, SessionOk, Faithful, Waits;
    WholeScan(g, handlers, source);
    var scanner := new Scanner(g, handlers);
    var k, more := 0, true;
    while k < |source| && more
      invariant k <= |source| && scanner.Open() && more == !scanner.stopped
      invariant PushAll(scanner.Whole(), source[k..]) == PushAll(Start(g, handlers), source)
    {
      assert source[k..][1..] == source[k + 1..];
      more := scanner.Push(source[k]);
      k := k + 1;
    }
    scanner.End();
    return scanner.lines, scanner.spans, scanner.stopped;
  }
}
