/**
 What scanning one physical line keeps: the spans and the stack account for the headings opened so far,
 and, when no line holds a lone CR, every line belongs to exactly the heading that covers it.
 */
module ScannerProofs {
  import opened Text
  import opened MarkdownSyntax
  import opened Outline
  import opened ScannerModel

  // Spans and the open-heading stack.

  ghost predicate OnStack(hs: seq<Heading>, stack: seq<nat>, headings: seq<Heading>) {
    |headings| == |stack| && forall k :: 0 <= k < |stack| ==> stack[k] < |hs| && headings[k] == hs[stack[k]]
  }

  /** The last reported spans are those of the closed headings, in closing order. */
  ghost predicate Reports(hs: seq<Heading>, closed: seq<nat>, spans: seq<Span>) {
    && |closed| <= |spans|
    && (forall k :: 0 <= k < |closed| ==>
          && closed[k] < |hs|
          && spans[|spans| - |closed| + k] == Span(false, hs[closed[k]], SectionEnd(hs, closed[k], 0)))
  }

  /** The stack and the spans after the first `skip` are those of the headings opened so far. */
  ghost predicate SpansOk(s: Scan, skip: nat) {
    && s.ledger.Accounts(s.outline)
    && OnStack(s.outline, s.ledger.stack, s.headings)
    && Reports(s.outline, s.ledger.closed, s.spans)
    && |s.spans| == skip + |s.ledger.closed|
  }

  /** The account, the stack and the reported spans while `h` is being opened. */
  ghost predicate Books(s: Scan, h: Heading, skip: nat) {
    && s.ledger.Opening(s.outline, h)
    && OnStack(s.outline, s.ledger.stack, s.headings)
    && Reports(s.outline + [h], s.ledger.closed, s.spans)
    && |s.spans| == skip + |s.ledger.closed|
  }

  lemma OpeningBooks(s: Scan, h: Heading, skip: nat)
    requires SpansOk(s, skip)
    ensures Books(s, h, skip)
  {
    StartOpening(s.ledger, s.outline, h);
    forall k | 0 <= k < |s.ledger.closed|
      ensures SectionEnd(s.outline + [h], s.ledger.closed[k], 0) == SectionEnd(s.outline, s.ledger.closed[k], 0)
    {
      CloserAfterAppend(s.outline, h, s.ledger.closed[k]);
    }
  }

  lemma PopForBooks(s: Scan, h: Heading, skip: nat)
    requires Books(s, h, skip) && s.headings != [] && h.depth <= s.headings[|s.headings| - 1].depth
    ensures Books(s.PopFor(h), h, skip)
  {
    hide Ledger.Opening, SectionEnd, Reports, OnStack;
    PopStack(s.outline, s.ledger.stack, s.headings, h);
    PopWhileOpening(s.ledger, s.outline, h);
    OneMoreReport(s.outline + [h], s.ledger.closed, s.spans, s.ledger.stack[|s.ledger.stack| - 1]);
  }

  lemma PopStack(hs: seq<Heading>, stack: seq<nat>, headings: seq<Heading>, h: Heading)
    requires OnStack(hs, stack, headings) && headings != []
    ensures |stack| == |headings| && stack[|stack| - 1] < |hs|
    ensures hs[stack[|stack| - 1]] == headings[|stack| - 1] == (hs + [h])[stack[|stack| - 1]]
    ensures OnStack(hs, stack[..|stack| - 1], headings[..|stack| - 1])
  {
  }

  lemma OneMoreReport(hs: seq<Heading>, closed: seq<nat>, spans: seq<Span>, i: nat)
    requires Reports(hs, closed, spans) && i < |hs|
    ensures Reports(hs, closed + [i], spans + [Span(false, hs[i], SectionEnd(hs, i, 0))])
  {
    hide SectionEnd;
  }

  lemma {:induction false} CloseForBooks(s: Scan, h: Heading, skip: nat)
    requires s.Blocks() && Books(s, h, skip)
    ensures var t := s.CloseFor(h);
            Books(t, h, skip) && (!t.stopped ==> t.headings == [] || t.headings[|t.headings| - 1].depth < h.depth)
    decreases |s.headings|
  {
    hide Books;
    if s.stopped || s.headings == [] || s.headings[|s.headings| - 1].depth < h.depth {
    } else {
      PopForBooks(s, h, skip);
      CloseForBooks(s.PopFor(h), h, skip);
      assert s.CloseFor(h) == s.PopFor(h).CloseFor(h);
    }
  }

  /** Opening a heading reports the span of every heading it closes, and of no other. */
  lemma OpenHeadingSpans(s: Scan, h: Heading, skip: nat)
    requires s.Blocks() && SpansOk(s, skip)
    ensures var t := s.OpenHeading(h); t.outline == s.outline + [h] && (!t.stopped ==> SpansOk(t, skip))
  {
    hide Scan.CloseFor, Ledger.Opening, Ledger.Accounts;
    OpeningBooks(s, h, skip);
    CloseForBooks(s, h, skip);
    var t := s.CloseFor(h);
    assert s.OpenHeading(h) == t.PushHeading(h);
    if !t.stopped {
      FinishOpening(t.ledger, t.outline, h);
    }
  }

  // Which line belongs to which heading.

  ghost predicate Owned(doc: seq<Mark>, hs: seq<Heading>) {
    forall k :: 0 <= k < |doc| ==> doc[k].Own() == Owner(hs, k + 1, |hs|)
  }

  /** An open root paragraph holds consecutive lines, after every heading. */
  ghost predicate Follows(hs: seq<Heading>, paragraph: seq<nat>) {
    && (forall k :: 0 <= k < |paragraph| ==> paragraph[k] == paragraph[0] + k)
    && (forall k :: 0 <= k < |hs| && paragraph != [] ==> hs[k].headEnd < paragraph[0])
  }

  ghost predicate HeadsOk(s: Scan) {
    InOrder(s.outline, |s.doc|) && Owned(s.doc, s.outline) && Follows(s.outline, s.leaf.Held())
  }

  /** Nothing has been decided about the newest line, which directly follows the open root paragraph. */
  ghost predicate Undecided(s: Scan) {
    && (forall k :: 0 <= k < |s.outline| ==> s.outline[k].headEnd < |s.doc|)
    && (s.leaf.Held() != [] ==> s.leaf.Held()[|s.leaf.Held()| - 1] + 1 == |s.doc|)
  }

  /** `plain` says that no line so far holds a lone CR. */
  ghost predicate Sound(s: Scan, skip: nat, plain: bool) {
    SpansOk(s, skip) && (plain ==> HeadsOk(s))
  }

  ghost predicate Ready(s: Scan, skip: nat, plain: bool) {
    s.Working() && !s.stopped && Sound(s, skip, plain) && (plain ==> Undecided(s))
  }

  /** The newest line has been placed: an open root paragraph ends with it. */
  ghost predicate Placed(s: Scan, skip: nat, plain: bool) {
    s.Working() && (!s.stopped ==>
      Sound(s, skip, plain) && (plain && s.leaf.Held() != [] ==> s.leaf.Held()[|s.leaf.Held()| - 1] == |s.doc|))
  }

  lemma {:induction false} ReleasedOwners(doc: seq<Mark>, paragraph: seq<nat>, n: nat)
    requires n <= |paragraph| && Within(paragraph, 0, |doc|)
    ensures forall k :: 0 <= k < |doc| ==> Released(doc, paragraph, n)[k].Own() == doc[k].Own()
  {
    if n > 0 {
      ReleasedOwners(doc, paragraph, n - 1);
    }
  }

  lemma CloseLeafSound(s: Scan, skip: nat, plain: bool)
    requires s.Blocks() && Sound(s, skip, plain)
    ensures Sound(s.CloseLeaf(), skip, plain)
  {
    ReleasedOwners(s.doc, s.leaf.Held(), |s.leaf.Held()|);
  }

  lemma {:induction false} ReleasedIs(doc: seq<Mark>, paragraph: seq<nat>, n: nat, k: nat)
    requires n <= |paragraph| && Within(paragraph, 0, |doc|) && k < |doc|
    ensures Released(doc, paragraph, n)[k] == if k + 1 in paragraph[..n] then doc[k].As(Content) else doc[k]
  {
    if n > 0 {
      ReleasedIs(doc, paragraph, n - 1, k);
      assert paragraph[..n] == paragraph[..n - 1] + [paragraph[n - 1]];
    }
  }

  /** Every line the open paragraph held becomes content, no other line changes, and nothing is held any more. */
  lemma ClosedLeafReleases(s: Scan, k: nat)
    requires s.Blocks() && k < |s.doc|
    ensures s.CloseLeaf().doc[k] == if k + 1 in s.leaf.Held() then s.doc[k].As(Content) else s.doc[k]
    ensures s.CloseLeaf().leaf.Held() == []
  {
    var held := s.leaf.Held();
    ReleasedIs(s.doc, held, |held|, k);
    assert held[..|held|] == held;
  }

  lemma CloseLeafReady(s: Scan, skip: nat, plain: bool)
    requires Ready(s, skip, plain)
    ensures Ready(s.CloseLeaf(), skip, plain)
  {
    CloseLeafSound(s, skip, plain);
  }

  lemma CloseUnmatchedReady(s: Scan, st: LineState, skip: nat, plain: bool)
    requires Ready(s, skip, plain) && s.Fits(st)
    ensures Ready(s.CloseUnmatched(st), skip, plain)
  {
    CloseLeafReady(s, skip, plain);
  }

  lemma AddBlockReady(s: Scan, st: LineState, skip: nat, plain: bool)
    requires Ready(s, skip, plain) && s.Fits(st)
    ensures Ready(s.AddBlock(st), skip, plain)
  {
    CloseUnmatchedReady(s, st, skip, plain);
    CloseLeafReady(s.CloseUnmatched(st), skip, plain);
  }

  /** Marking the newest line as content decides nothing about headings. */
  lemma MarkContentReady(s: Scan, skip: nat, plain: bool)
    requires Ready(s, skip, plain)
    ensures Ready(s.MarkNewest(Content), skip, plain)
  {
  }

  lemma AddParagraphLinePlaced(s: Scan, text: Text, skip: nat, plain: bool)
    requires Ready(s, skip, plain) && s.leaf.Paragraph?
    ensures Placed(s.AddParagraphLine(text), skip, plain)
  {
  }

  lemma {:induction false} PromotedOwners(doc: seq<Mark>, paragraph: seq<nat>, n: nat, consumed: nat, h: Heading)
    requires n <= |paragraph| && paragraph != [] && Within(paragraph, 0, |doc|)
    requires forall k :: 0 <= k < |paragraph| ==>
      paragraph[k] == paragraph[0] + k && doc[paragraph[k] - 1].Own() == None
    ensures forall k :: 0 <= k < |doc| ==>
              Promoted(doc, paragraph, n, consumed, h)[k].Own()
              == if paragraph[0] + consumed <= k + 1 < paragraph[0] + n then Some(h) else doc[k].Own()
  {
    if n > 0 {
      PromotedOwners(doc, paragraph, n - 1, consumed, h);
      assert Promoted(doc, paragraph, n - 1, consumed, h)[paragraph[n - 1] - 1].Own() == None;
    }
  }

  /** A heading that ends on the newest line owns its lines, and nothing else changes hands. */
  lemma NewHeadingOwners(doc: seq<Mark>, d: seq<Mark>, hs: seq<Heading>, h: Heading)
    requires |doc| == |d| >= 1 && InOrder(hs, |doc|) && Owned(doc, hs)
    requires forall k :: 0 <= k < |hs| ==> hs[k].headEnd < h.line
    requires 1 <= h.depth && 1 <= h.line <= h.headEnd == |doc|
    requires forall k :: 0 <= k < |doc| ==> d[k].Own() == if h.line <= k + 1 then Some(h) else doc[k].Own()
    ensures InOrder(hs + [h], |doc|) && Owned(d, hs + [h])
  {
    forall k | 0 <= k < |d| ensures d[k].Own() == Owner(hs + [h], k + 1, |hs| + 1) {
      OwnerAfterAppend(hs, h, k + 1, |hs|);
    }
  }

  /** The paragraph that a setext underline promotes belongs to its heading, definitions excepted. */
  lemma SetextOwners(s: Scan, depth: nat)
    requires s.Working() && s.SetextApplies() && s.leaf.root && HeadsOk(s) && Undecided(s) && depth >= 1
    ensures var h := s.SetextHeading(depth);
            var d := MarkAt(Promoted(s.doc, s.leaf.lines, |s.leaf.lines|, s.Consumed(), h), |s.doc| - 1,
              HeadingLine(h));
            InOrder(s.outline + [h], |s.doc|) && Owned(d, s.outline + [h])
  {
    var h, paragraph := s.SetextHeading(depth), s.leaf.lines;
    var p := Promoted(s.doc, paragraph, |paragraph|, s.Consumed(), h);
    if paragraph != [] {
      forall k | 0 <= k < |paragraph| ensures s.doc[paragraph[k] - 1].Own() == None {
        NoOwnerAfter(s.outline, paragraph[k], |s.outline|);
      }
      PromotedOwners(s.doc, paragraph, |paragraph|, s.Consumed(), h);
    }
    NoOwnerAfter(s.outline, |s.doc|, |s.outline|);
    NewHeadingOwners(s.doc, MarkAt(p, |s.doc| - 1, HeadingLine(h)), s.outline, h);
  }

  lemma SetextPlaced(s: Scan, depth: nat, skip: nat, plain: bool)
    requires Ready(s, skip, plain) && s.SetextApplies() && depth >= 1
    ensures Placed(s.Setext(depth), skip, plain)
  {
    hide Scan.CloseFor, Ledger.Accounts, OnStack, Reports, Promoted;
    if s.leaf.root {
      var h := s.SetextHeading(depth);
      var t := s.(doc := Promoted(s.doc, s.leaf.lines, |s.leaf.lines|, s.Consumed(), h),
        leaf := NoLeaf).MarkNewest(HeadingLine(h));
      if plain {
        SetextOwners(s, depth);
      }
      OpenHeadingSpans(t, h, skip);
    }
  }

  lemma AtxPlaced(s: Scan, st: LineState, depth: nat, skip: nat, plain: bool)
    requires Ready(s, skip, plain) && s.Fits(st) && depth >= 1
    ensures Placed(s.AddAtxHeading(st, depth), skip, plain)
  {
    hide Scan.AddBlock, Scan.CloseFor, Ledger.Accounts, OnStack, Reports;
    AddBlockReady(s, st, skip, plain);
    var b := s.AddBlock(st);
    if |b.containers| == 0 {
      var h := Heading(depth, |s.doc|, |s.doc|, StripTerminator(s.texts[|s.doc| - 1]));
      var t := b.MarkNewest(HeadingLine(h));
      if plain {
        NoOwnerAfter(b.outline, |b.doc|, |b.outline|);
        NewHeadingOwners(b.doc, t.doc, b.outline, h);
      }
      OpenHeadingSpans(t, h, skip);
      assert s.AddAtxHeading(st, depth) == t.OpenHeading(h);
    }
  }

  // Every step of one physical line.

  lemma AddLeafReady(s: Scan, st: LineState, leaf: Leaf, skip: nat, plain: bool)
    requires Ready(s, skip, plain) && s.Fits(st) && !leaf.Paragraph?
    ensures Ready(s.AddLeaf(st, leaf), skip, plain)
  {
    AddBlockReady(s, st, skip, plain);
  }

  lemma AddContainerReady(s: Scan, st: LineState, container: Container, skip: nat, plain: bool)
    requires Ready(s, skip, plain) && s.Fits(st) && s.Depth(st) < MAX_CONTAINER_DEPTH
    ensures Ready(s.AddContainer(st, container), skip, plain)
  {
    AddBlockReady(s, st, skip, plain);
  }

  lemma OpenThematicKeeps(s: Scan, st: LineState, rest: Text, skip: nat, plain: bool)
    requires Ready(s, skip, plain) && s.Fits(st)
    ensures var r := s.OpenThematic(st, rest);
            if r.outcome == Done then Placed(r.scan, skip, plain) else Ready(r.scan, skip, plain)
  {
    AddBlockReady(s, st, skip, plain);
    MarkContentReady(s.AddBlock(st), skip, plain);
  }

  lemma OpenLeafBlockKeeps(s: Scan, st: LineState, rest: Text, skip: nat, plain: bool)
    requires Ready(s, skip, plain) && s.Fits(st) && st.cursor.next <= |st.cursor.line|
    ensures var r := s.OpenLeafBlock(st, rest);
            if r.outcome == Done then Placed(r.scan, skip, plain) else Ready(r.scan, skip, plain)
  {
    var html := s.g.htmlStartKind(rest, !(st.paragraphContainer || s.LazyParagraph(st)));
    if AtxDepth(rest) > 0 {
      AtxPlaced(s, st, AtxDepth(rest), skip, plain);
    } else if s.g.fenceOpen(rest).Some? {
      AddLeafReady(s, st, Fenced(s.g.fenceOpen(rest).value), skip, plain);
    } else if html > 0 {
      AddLeafReady(s, st, Html(html), skip, plain);
    } else if st.paragraphContainer && s.g.setextUnderline(rest) {
      CloseUnmatchedReady(s, st, skip, plain);
      var t := s.CloseUnmatched(st);
      if t.SetextApplies() {
        SetextPlaced(t, if |rest| > 0 && rest[0] == EQUALS then 1 else 2, skip, plain);
      } else {
        OpenThematicKeeps(t, st.(allClosed := true), rest, skip, plain);
      }
    } else {
      OpenThematicKeeps(s, st, rest, skip, plain);
    }
  }

  lemma OpenListItemKeeps(s: Scan, st: LineState, skip: nat, plain: bool)
    requires Ready(s, skip, plain) && s.Fits(st) && st.cursor.Advanced() && s.Depth(st) < MAX_CONTAINER_DEPTH
    ensures Ready(s.OpenListItem(st).scan, skip, plain)
  {
    var item := ListItemStart(st.cursor.line, st.cursor.offset, st.cursor.next, st.paragraphContainer);
    if item.Some? {
      AddContainerReady(s, st.(cursor := st.cursor.(offset := item.value.offset)), Item(item.value.required, false),
        skip, plain);
    }
  }

  lemma OpenBlockKeeps(s: Scan, st: LineState, skip: nat, plain: bool)
    requires Ready(s, skip, plain) && s.Fits(st)
    ensures var r := s.OpenBlock(st);
            if r.outcome == Done then Placed(r.scan, skip, plain) else Ready(r.scan, skip, plain)
  {
    hide Ready, Placed, Scan.AddLeaf, Scan.AddContainer, Scan.OpenLeafOrItem;
    var c := st.cursor.Advance();
    var here := st.(cursor := c);
    if c.indent >= 4 {
      AddLeafReady(s, here, Indented, skip, plain);
    } else if s.Depth(st) < MAX_CONTAINER_DEPTH && c.next < |c.line| && c.line[c.next] == GREATER {
      AddContainerReady(s, here.(cursor := ConsumeQuoteMarker(c)), Quote, skip, plain);
    } else {
      OpenLeafOrItemKeeps(s, here, skip, plain);
    }
  }

  lemma OpenLeafOrItemKeeps(s: Scan, st: LineState, skip: nat, plain: bool)
    requires Ready(s, skip, plain) && s.Fits(st) && st.cursor.Advanced()
    ensures var r := s.OpenLeafOrItem(st);
            if r.outcome == Done then Placed(r.scan, skip, plain) else Ready(r.scan, skip, plain)
  {
    var rest := st.cursor.line[st.cursor.next..];
    OpenLeafBlockKeeps(s, st, rest, skip, plain);
    var r := s.OpenLeafBlock(st, rest);
    if r.outcome == Nothing && s.Depth(st) < MAX_CONTAINER_DEPTH {
      OpenListItemKeeps(r.scan, r.st, skip, plain);
    }
  }

  lemma {:induction false} OpenBlocksKeeps(s: Scan, st: LineState, skip: nat, plain: bool)
    requires Ready(s, skip, plain) && s.Fits(st)
    ensures var r := s.OpenBlocks(st);
            if r.outcome == Done then Placed(r.scan, skip, plain) else Ready(r.scan, skip, plain)
    decreases |st.cursor.line| - st.cursor.offset
  {
    OpenBlockKeeps(s, st, skip, plain);
    var r := s.OpenBlock(st);
    if r.outcome == OpenedContainer {
      OpenBlocksKeeps(r.scan, r.st.(paragraphContainer := false), skip, plain);
    }
  }

  lemma StartParagraphPlaced(s: Scan, st: LineState, text: Text, skip: nat, plain: bool)
    requires Ready(s, skip, plain) && s.Fits(st)
    ensures Placed(s.StartParagraph(st, text), skip, plain)
  {
    AddBlockReady(s, st, skip, plain);
    var b := s.AddBlock(st);
    var p := b.(leaf := Paragraph(|b.containers| == 0, [], if s.g.mayOpenDefinition(text) then Some([]) else None));
    assert Ready(p, skip, plain);
    AddParagraphLinePlaced(p, text, skip, plain);
  }

  lemma AddContentPlaced(s: Scan, st: LineState, skip: nat, plain: bool)
    requires Ready(s, skip, plain) && s.Fits(st)
    ensures Placed(s.AddContent(st), skip, plain)
  {
    var text := st.cursor.line[st.cursor.offset..];
    if s.LazyParagraph(st) {
      AddParagraphLinePlaced(s, text, skip, plain);
    } else {
      CloseUnmatchedReady(s, st, skip, plain);
      var t := s.CloseUnmatched(st);
      if t.leaf.Paragraph? {
        AddParagraphLinePlaced(t, text, skip, plain);
      } else if t.leaf == NoLeaf && !st.cursor.blank {
        StartParagraphPlaced(t, st.(allClosed := true), text, skip, plain);
      } else {
        AddToLeafReady(t, st, text, skip, plain);
      }
    }
  }

  lemma AddToLeafReady(s: Scan, st: LineState, text: Text, skip: nat, plain: bool)
    requires Ready(s, skip, plain) && !s.leaf.Paragraph?
    ensures Placed(s.AddToLeaf(st, text), skip, plain)
  {
    MarkContentReady(s, skip, plain);
  }

  /** One physical line keeps the account of spans and, without lone CRs, of who owns which line. */
  lemma ScanPhysicalPlaced(s: Scan, line: Text, skip: nat, plain: bool)
    requires Ready(s, skip, plain)
    ensures Placed(s.ScanPhysical(line), skip, plain)
  {
    var start := LineState(Cursor(line, 0, 0, 0, true), 0, false, false, false, false);
    var matched := s.MatchContainers(start);
    var m := s.MatchLeaf(matched);
    if m.outcome == Done {
      MarkContentReady(s.(leaf := NoLeaf), skip, plain);
    } else if m.st.containersMatched && m.st.leafMatched && s.leaf != NoLeaf && !s.leaf.Paragraph? {
      AddContentPlaced(s, m.st, skip, plain);
    } else {
      OpenBlocksKeeps(s, m.st, skip, plain);
      var r := s.OpenBlocks(m.st);
      if r.outcome != Done {
        AddContentPlaced(r.scan, r.st, skip, plain);
      }
    }
  }
}
