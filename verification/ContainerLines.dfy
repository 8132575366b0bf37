/**
 What containers make of a line: inside them nothing is a heading, a line opens at most one, and a line that
 starts a quote or an item leaves it open.
 */
module ContainerLines {
  import opened Text
  import opened MarkdownSyntax
  import opened Outline
  import opened ScannerModel
  import opened RootLines

  /** Where a root paragraph is open no container is. */
  ghost predicate Rooted(s: Scan) {
    s.leaf.Paragraph? && s.leaf.root ==> s.containers == []
  }

  /** No heading opens. */
  ghost predicate Quiet(s: Scan, t: Scan) {
    NoHeading(s, t) && Rooted(t)
  }

  /** One heading opens, and nothing else stays open; spans may be reported. */
  ghost predicate OneHeading(s: Scan, t: Scan) {
    t.containers == [] && t.leaf == NoLeaf && s.spans <= t.spans && exists h :: t.outline == s.outline + [h]
  }

  lemma {:induction false} ClosingReports(s: Scan, h: Heading)
    requires s.Blocks()
    ensures s.spans <= s.CloseFor(h).spans
    decreases |s.headings|
  {
    if !(s.stopped || s.headings == [] || s.headings[|s.headings| - 1].depth < h.depth) {
      ClosingReports(s.PopFor(h), h);
      assert s.CloseFor(h) == s.PopFor(h).CloseFor(h);
    }
  }

  lemma HeadingOpens(s: Scan, b: Scan, h: Heading)
    requires b.Blocks() && b.outline == s.outline && b.spans == s.spans && b.containers == [] && b.leaf == NoLeaf
    ensures OneHeading(s, b.OpenHeading(h))
  {
    OpeningAppends(b, h);
    ClosingReports(b, h);
  }

  lemma BlockQuiet(s: Scan, st: LineState)
    requires s.Working() && s.Fits(st) && Rooted(s)
    ensures Quiet(s, s.AddBlock(st)) && Quiet(s, s.CloseUnmatched(st))
  {
    hide Released;
  }

  ghost predicate Steps(s: Scan, t: Scan) {
    Quiet(s, t) || OneHeading(s, t)
  }

  lemma AtxSteps(s: Scan, st: LineState, depth: nat)
    requires s.Working() && s.Fits(st) && Rooted(s)
    ensures Steps(s, s.AddAtxHeading(st, depth))
  {
    hide Scan.AddBlock, Scan.OpenHeading, OneHeading, StripTerminator;
    BlockQuiet(s, st);
    var b := s.AddBlock(st);
    if b.containers == [] {
      var h := Heading(depth, |s.doc|, |s.doc|, StripTerminator(s.texts[|s.doc| - 1]));
      HeadingOpens(s, b.MarkNewest(HeadingLine(h)), h);
    }
  }

  lemma SetextSteps(s: Scan, depth: nat)
    requires s.Working() && s.SetextApplies() && Rooted(s)
    ensures Steps(s, s.Setext(depth))
  {
    hide Scan.OpenHeading, Scan.SetextHeading, Promoted, OneHeading;
    if s.leaf.root {
      var h := s.SetextHeading(depth);
      var m := s.(doc := Promoted(s.doc, s.leaf.lines, |s.leaf.lines|, s.Consumed(), h), leaf := NoLeaf)
                .MarkNewest(HeadingLine(h));
      HeadingOpens(s, m, h);
    }
  }

  lemma ThenSteps(s: Scan, t: Scan, u: Scan)
    requires Quiet(s, t) && Steps(t, u)
    ensures Steps(s, u)
  {
    if OneHeading(t, u) {
      var h :| u.outline == t.outline + [h];
      assert u.outline == s.outline + [h];
    }
  }

  lemma ThematicQuiet(s: Scan, st: LineState, rest: Text)
    requires s.Working() && s.Fits(st) && Rooted(s)
    ensures Quiet(s, s.OpenThematic(st, rest).scan)
  {
    hide Scan.AddBlock;
    BlockQuiet(s, st);
  }

  lemma LeafBlockSteps(s: Scan, st: LineState, rest: Text)
    requires s.Working() && s.Fits(st) && Rooted(s) && st.cursor.next <= |st.cursor.line|
    ensures var r := s.OpenLeafBlock(st, rest);
            Quiet(s, r.scan) || (r.outcome == Done && OneHeading(s, r.scan))
  {
    hide Scan.AddBlock, Scan.CloseUnmatched, Scan.AddAtxHeading, Scan.OpenThematic, Scan.Setext, OneHeading;
    BlockQuiet(s, st);
    AtxSteps(s, st, AtxDepth(rest));
    ThematicQuiet(s, st, rest);
    var u := s.CloseUnmatched(st);
    ThematicQuiet(u, st.(allClosed := true), rest);
    if u.SetextApplies() {
      var depth := if |rest| > 0 && rest[0] == EQUALS then 1 else 2;
      SetextSteps(u, depth);
      ThenSteps(s, u, u.Setext(depth));
    }
  }

  lemma ContainerQuiet(s: Scan, st: LineState, container: Container)
    requires s.Working() && s.Fits(st) && Rooted(s) && s.Depth(st) < MAX_CONTAINER_DEPTH
    ensures Quiet(s, s.AddContainer(st, container))
  {
    hide Scan.CloseUnmatched, Released;
    BlockQuiet(s, st);
  }

  lemma LeafOrItemSteps(s: Scan, st: LineState)
    requires s.Working() && s.Fits(st) && Rooted(s) && st.cursor.Advanced()
    ensures var r := s.OpenLeafOrItem(st);
            Quiet(s, r.scan) || (r.outcome == Done && OneHeading(s, r.scan))
  {
    var r := s.OpenLeafBlock(st, st.cursor.line[st.cursor.next..]);
    LeafBlockSteps(s, st, st.cursor.line[st.cursor.next..]);
    hide Scan.OpenLeafBlock, Scan.AddContainer, OneHeading, ListItemStart;
    if r.outcome == Nothing && s.Depth(st) < MAX_CONTAINER_DEPTH {
      var item := ListItemStart(r.st.cursor.line, r.st.cursor.offset, r.st.cursor.next, r.st.paragraphContainer);
      if item.Some? {
        ContainerQuiet(r.scan, r.st.(cursor := r.st.cursor.(offset := item.value.offset)),
          Item(item.value.required, false));
      }
    }
  }

  lemma BlockSteps(s: Scan, st: LineState)
    requires s.Working() && s.Fits(st) && Rooted(s)
    ensures var r := s.OpenBlock(st);
            Quiet(s, r.scan) || (r.outcome == Done && OneHeading(s, r.scan))
  {
    hide Scan.OpenLeafOrItem, Scan.AddContainer, Scan.AddBlock, OneHeading;
    var c := st.cursor.Advance();
    var here := st.(cursor := c);
    BlockQuiet(s, here);
    LeafOrItemSteps(s, here);
    if s.Depth(st) < MAX_CONTAINER_DEPTH && c.next < |c.line| {
      ContainerQuiet(s, here.(cursor := ConsumeQuoteMarker(c)), Quote);
    }
  }

  lemma {:induction false} BlocksSteps(s: Scan, st: LineState)
    requires s.Working() && s.Fits(st) && Rooted(s)
    ensures var r := s.OpenBlocks(st);
            Quiet(s, r.scan) || (r.outcome == Done && OneHeading(s, r.scan))
    decreases |st.cursor.line| - st.cursor.offset
  {
    hide Scan.OpenBlock, OneHeading;
    BlockSteps(s, st);
    var r := s.OpenBlock(st);
    if r.outcome == OpenedContainer {
      var next := r.st.(paragraphContainer := false);
      BlocksSteps(r.scan, next);
      ThenSteps(s, r.scan, r.scan.OpenBlocks(next).scan);
    }
  }

  lemma ContentQuiet(s: Scan, st: LineState)
    requires s.Working() && s.Fits(st) && Rooted(s)
    ensures Quiet(s, s.AddContent(st))
  {
    hide Scan.AddBlock, Scan.CloseUnmatched;
    BlockQuiet(s, st);
    BlockQuiet(s.CloseUnmatched(st), st.(allClosed := true));
  }

  /** A line opens at most one heading, and then leaves no container and no leaf open. */
  lemma HeadingsOnlyAtTheRoot(s: Scan, line: Text)
    requires s.Working() && Rooted(s)
    ensures var t := s.ScanPhysical(line);
            && Rooted(t)
            && s.spans <= t.spans
            && (NoHeading(s, t) || (t.containers == [] && t.leaf == NoLeaf && exists h :: t.outline == s.outline + [h]))
  {
    hide Scan.OpenBlocks, Scan.AddContent;
    var m := s.MatchLeaf(s.MatchContainers(Begin(line)));
    if m.outcome != Done {
      ContentQuiet(s, m.st);
      BlocksSteps(s, m.st);
      var r := s.OpenBlocks(m.st);
      if Quiet(s, r.scan) { ContentQuiet(r.scan, r.st); }
    }
  }

  // The containers a line goes on with.

  /** The cursor at an offset of the line, past the spaces there. */
  function At(line: Text, offset: nat): (c: Cursor)
    requires offset <= |line|
    ensures c.Advanced() && c.offset == offset && c.line == line
  {
    Cursor(line, offset, 0, 0, true).Advance()
  }

  /** The line carries the prefix of one container after another, each up to the next offset. */
  ghost predicate Carries(containers: seq<Container>, line: Text, offsets: seq<nat>) {
    && 1 <= |offsets| <= |containers| + 1 && offsets[0] == 0
    && (forall k :: 0 <= k < |offsets| ==> offsets[k] <= |line|)
    && (forall k :: 0 <= k < |offsets| - 1 ==>
          var next := Continues(containers[k], At(line, offsets[k])); next.Some? && next.value.offset == offsets[k + 1])
  }

  /** And not that of the container after those. */
  ghost predicate CarriesOnly(containers: seq<Container>, line: Text, offsets: seq<nat>) {
    && Carries(containers, line, offsets)
    && (|offsets| <= |containers| ==>
          Continues(containers[|offsets| - 1], At(line, offsets[|offsets| - 1])) == None)
  }

  lemma CarriedNext(containers: seq<Container>, line: Text, offsets: seq<nat>, k: nat)
    requires Carries(containers, line, offsets) && k < |offsets| - 1
    ensures var next := Continues(containers[k], At(line, offsets[k]));
            next.Some? && next.value.offset == offsets[k + 1]
  {
  }

  lemma CarriedLast(containers: seq<Container>, line: Text, offsets: seq<nat>)
    requires CarriesOnly(containers, line, offsets) && |offsets| <= |containers|
    ensures Continues(containers[|offsets| - 1], At(line, offsets[|offsets| - 1])) == None
  {
  }

  lemma {:induction false} MatchesCarried(s: Scan, line: Text, offsets: seq<nat>, st: LineState)
    requires CarriesOnly(s.containers, line, offsets) && st.cursor.line == line && st.cursor.Within()
    requires st.matched < |offsets| && st.cursor.offset == offsets[st.matched]
    ensures var r := s.MatchContainers(st);
            r.matched == |offsets| - 1 && r.cursor.offset == offsets[|offsets| - 1]
            && r == st.(cursor := r.cursor, matched := r.matched)
    decreases |offsets| - st.matched
  {
    hide Continues;
    if st.matched < |s.containers| {
      AdvanceDependsOnOffset(st.cursor);
      var k := st.matched;
      var next := Continues(s.containers[k], At(line, offsets[k]));
      if k < |offsets| - 1 {
        CarriedNext(s.containers, line, offsets, k);
        MatchesCarried(s, line, offsets, st.(cursor := next.value, matched := k + 1));
      } else {
        CarriedLast(s.containers, line, offsets);
      }
    }
  }

  lemma AdvanceDependsOnOffset(c: Cursor)
    requires c.Within()
    ensures c.Advance() == At(c.line, c.offset)
  {
  }

  predicate Same(c: Container, d: Container) {
    c == d || (c.Item? && d == c.(hasChild := true))
  }

  /** The first `n` containers stay open. */
  ghost predicate Grows(s: Scan, t: Scan, n: nat) {
    && n <= |s.containers| && n <= |t.containers|
    && (forall k :: 0 <= k < n ==> Same(s.containers[k], t.containers[k]))
  }

  /** If the innermost of `n` containers is an item, it has a child. */
  predicate Child(t: Scan, n: nat) {
    n <= |t.containers| && (n > 0 && t.containers[n - 1].Item? ==> t.containers[n - 1].hasChild)
  }

  lemma BlockGrows(s: Scan, st: LineState)
    requires s.Working() && s.Fits(st)
    ensures var b := s.AddBlock(st); Grows(s, b, s.Depth(st)) && Child(b, s.Depth(st))
    ensures Grows(s, s.CloseUnmatched(st), s.Depth(st))
    ensures s.AddBlock(st).Depth(st.(allClosed := true)) == s.Depth(st)
  {
    hide Released;
  }

  lemma LeafBlockGrows(s: Scan, st: LineState, rest: Text)
    requires s.Working() && s.Fits(st) && st.cursor.next <= |st.cursor.line|
    ensures var r := s.OpenLeafBlock(st, rest);
            && Grows(s, r.scan, s.Depth(st))
            && (!st.paragraphContainer ==>
                  if r.outcome == Nothing then r == Opened(s, st, Nothing) else Child(r.scan, s.Depth(st)))
            && (r.outcome == OpenedLeaf ==> r.scan.Depth(r.st) == s.Depth(st))
  {
    hide Scan.AddBlock, Scan.CloseUnmatched, Scan.OpenHeading, Promoted, Scan.SetextHeading;
    BlockGrows(s, st);
    BlockGrows(s.CloseUnmatched(st), st.(allClosed := true));
  }

  lemma AddsContainer(s: Scan, st: LineState, container: Container)
    requires s.Working() && s.Fits(st) && s.Depth(st) < MAX_CONTAINER_DEPTH
    ensures var b := s.AddContainer(st, container);
            && Grows(s, b, s.Depth(st)) && Child(b, s.Depth(st)) && b.leaf == NoLeaf
            && |b.containers| == s.Depth(st) + 1 && b.containers[s.Depth(st)] == container
  {
    hide Scan.AddBlock;
    BlockGrows(s, st);
  }

  lemma AddsLeaf(s: Scan, st: LineState, leaf: Leaf)
    requires s.Working() && s.Fits(st) && !leaf.Paragraph?
    ensures var b := s.AddLeaf(st, leaf);
            Grows(s, b, s.Depth(st)) && Child(b, s.Depth(st)) && |b.containers| == s.Depth(st)
  {
    hide Scan.AddBlock;
    BlockGrows(s, st);
  }

  /** What opening one block at depth `n` does to the containers. */
  ghost predicate Opens(s: Scan, st: LineState, here: LineState, r: Opened) {
    var n := s.Depth(st);
    && Grows(s, r.scan, n)
    && (!st.paragraphContainer ==>
          if r.outcome == Nothing then r == Opened(s, here, Nothing) else Child(r.scan, n))
    && (r.outcome == OpenedContainer ==> r.st.allClosed && |r.scan.containers| == n + 1 && r.scan.leaf == NoLeaf)
    && (r.outcome == OpenedLeaf || r.outcome == Nothing ==> r.scan.Depth(r.st) == n)
  }

  lemma ItemOpens(s: Scan, st: LineState)
    requires s.Working() && s.Fits(st) && st.cursor.Advanced() && s.Depth(st) < MAX_CONTAINER_DEPTH
    ensures Opens(s, st, st, s.OpenListItem(st))
  {
    hide ListItemStart, Scan.AddContainer, Grows;
    var item := ListItemStart(st.cursor.line, st.cursor.offset, st.cursor.next, st.paragraphContainer);
    GrowsNothing(s, s.Depth(st));
    if item.Some? {
      AddsContainer(s, st.(cursor := st.cursor.(offset := item.value.offset)), Item(item.value.required, false));
    }
  }

  lemma GrowsNothing(s: Scan, n: nat)
    requires n <= |s.containers|
    ensures Grows(s, s, n)
  {
  }

  lemma GrowsOn(s: Scan, t: Scan, u: Scan, m: nat, n: nat)
    requires Grows(s, t, n) && Grows(t, u, m) && n <= m
    ensures Grows(s, u, n) && (Child(t, n) ==> Child(u, n))
  {
  }

  lemma LeafOrItemOpens(s: Scan, st: LineState)
    requires s.Working() && s.Fits(st) && st.cursor.Advanced()
    ensures Opens(s, st, st, s.OpenLeafOrItem(st))
  {
    var r := s.OpenLeafBlock(st, st.cursor.line[st.cursor.next..]);
    LeafBlockGrows(s, st, st.cursor.line[st.cursor.next..]);
    hide Scan.OpenLeafBlock, Scan.OpenListItem, Grows, Child;
    if r.outcome == Nothing && s.Depth(st) < MAX_CONTAINER_DEPTH {
      ItemOpens(r.scan, r.st);
      GrowsOn(s, r.scan, r.scan.OpenListItem(r.st).scan, s.Depth(st), s.Depth(st));
    }
  }

  lemma BlockOpens(s: Scan, st: LineState)
    requires s.Working() && s.Fits(st)
    ensures Opens(s, st, st.(cursor := st.cursor.Advance()), s.OpenBlock(st))
  {
    hide Scan.OpenLeafOrItem, Scan.AddContainer, Scan.AddLeaf, Grows, Child;
    var c := st.cursor.Advance();
    var here := st.(cursor := c);
    AddsLeaf(s, here, Indented);
    GrowsNothing(s, s.Depth(st));
    LeafOrItemOpens(s, here);
    if s.Depth(st) < MAX_CONTAINER_DEPTH && c.next < |c.line| {
      AddsContainer(s, here.(cursor := ConsumeQuoteMarker(c)), Quote);
    }
  }

  lemma ParagraphGrows(s: Scan, st: LineState, text: Text)
    requires s.Working() && s.Fits(st)
    ensures var t := s.StartParagraph(st, text); Grows(s, t, s.Depth(st)) && Child(t, s.Depth(st))
  {
    BlockGrows(s, st);
    hide Scan.AddBlock;
  }

  lemma ContentContainers(s: Scan, st: LineState)
    requires s.Working() && s.Fits(st)
    ensures var t, u, closed := s.AddContent(st), s.CloseUnmatched(st), st.(allClosed := true);
            if s.LazyParagraph(st) then t.containers == s.containers
            else if u.leaf == NoLeaf && !st.cursor.blank
              then t == u.StartParagraph(closed, st.cursor.line[st.cursor.offset..])
            else t.containers == u.containers
  {
    hide Scan.StartParagraph, Scan.CloseUnmatched;
  }

  lemma ContentGrows(s: Scan, st: LineState)
    requires s.Working() && s.Fits(st)
    ensures Grows(s, s.AddContent(st), s.Depth(st))
    ensures s.leaf == NoLeaf && !st.cursor.blank ==> Child(s.AddContent(st), s.Depth(st))
  {
    var n, u, closed := s.Depth(st), s.CloseUnmatched(st), st.(allClosed := true);
    BlockGrows(s, st);
    GrowsNothing(s, n);
    ContentContainers(s, st);
    assert s.leaf == NoLeaf ==> u.leaf == NoLeaf;
    hide Grows, Child, Scan.StartParagraph, Scan.CloseUnmatched, Scan.AddContent;
    var t := s.AddContent(st);
    if s.LazyParagraph(st) {
      SameContainers(s, s, t, n);
    } else if u.leaf == NoLeaf && !st.cursor.blank {
      ParagraphGrows(u, closed, st.cursor.line[st.cursor.offset..]);
      GrowsOn(s, u, t, n, n);
    } else {
      SameContainers(s, u, t, n);
    }
  }
  lemma SameContainers(s: Scan, t: Scan, u: Scan, n: nat)
    requires Grows(s, t, n) && u.containers == t.containers
    ensures Grows(s, u, n)
  {
  }

  lemma {:induction false} BlocksGrow(s: Scan, st: LineState)
    requires s.Working() && s.Fits(st)
    ensures var t := After(s.OpenBlocks(st));
            && Grows(s, t, s.Depth(st))
            && (s.leaf == NoLeaf && !st.paragraphContainer && !st.cursor.Advance().blank ==> Child(t, s.Depth(st)))
    decreases |st.cursor.line| - st.cursor.offset
  {
    hide Grows, Child, Scan.OpenBlock, Scan.AddContent;
    BlockOpens(s, st);
    var n, r := s.Depth(st), s.OpenBlock(st);
    match r.outcome
    case OpenedContainer =>
      var next := r.st.(paragraphContainer := false);
      BlocksGrow(r.scan, next);
      assert s.OpenBlocks(st) == r.scan.OpenBlocks(next);
      GrowsOn(s, r.scan, After(r.scan.OpenBlocks(next)), n + 1, n);
    case Nothing =>
      var on := r.st.(cursor := r.st.cursor.(offset := r.st.cursor.next));
      ContentGrows(r.scan, on);
      GrowsOn(s, r.scan, r.scan.AddContent(on), n, n);
    case Done =>
    case OpenedLeaf =>
      ContentGrows(r.scan, r.st);
      GrowsOn(s, r.scan, After(r), n, n);
  }

  lemma MatchLeafIs(s: Scan, st: LineState)
    requires s.Working() && st.cursor.Within() && st.matched <= |s.containers|
    ensures var m := s.MatchLeaf(st);
            if m.outcome == Done then m.scan.containers == s.containers && s.leaf != NoLeaf
            else && m == Opened(s, m.st, Nothing) && s.Depth(m.st) == st.matched
                 && (s.leaf == NoLeaf ==> m.st.cursor == st.cursor && !m.st.paragraphContainer)
  {
  }

  /**
   The containers whose prefixes a line carries stay open, in order; what it opens comes after them. With text
   after the prefixes that no open leaf takes, the innermost of them has a child if it is an item.
   */
  lemma CarriedContainersStay(s: Scan, line: Text, offsets: seq<nat>)
    requires s.Working() && CarriesOnly(s.containers, line, offsets)
    ensures var t, n := s.ScanPhysical(line), |offsets| - 1;
            && Grows(s, t, n)
            && (s.leaf == NoLeaf && At(line, offsets[n]).next < |line| ==> Child(t, n))
  {
    hide Grows, Child, Scan.OpenBlocks, Scan.AddContent, Continues;
    MatchesCarried(s, line, offsets, Begin(line));
    hide Carries, CarriesOnly, Scan.MatchContainers;
    var st := s.MatchContainers(Begin(line));
    AdvanceDependsOnOffset(st.cursor);
    GrowsNothing(s, |offsets| - 1);
    MatchLeafIs(s, st);
    hide Scan.MatchLeaf;
    var m := s.MatchLeaf(st);
    if m.outcome == Done {
      SameContainers(s, s, m.scan, |offsets| - 1);
    } else {
      BlocksGrow(s, m.st);
      ContentGrows(s, m.st);
    }
  }

  // The lines that start a container.

  /** A line outside every container that starts with `>` opens a quote, and is no heading. */
  lemma QuoteStarts(s: Scan, line: Text, at: nat)
    requires s.Working() && Rooted(s) && StartsAt(line, at) && Outside(s, line, at) && line[at] == GREATER
    ensures var t := s.ScanPhysical(line); t.containers != [] && t.containers[0] == Quote && NoHeading(s, t)
  {
    HeadingsOnlyAtTheRoot(s, line);
    OpensBlocks(s, line, at);
    MetOutside(s, line, at);
    hide Scan.ScanPhysical, Scan.AddContainer, Scan.AddContent, StartsAt, Outside;
    var here := Here(s, line, at);
    var after := here.(cursor := ConsumeQuoteMarker(here.cursor));
    var b := s.AddContainer(after, Quote);
    AddsContainer(s, after, Quote);
    assert s.OpenBlock(Met(s, line, at)) == Opened(b, after.(allClosed := true), OpenedContainer);
    hide Scan.OpenBlock, Met, NoHeading, Rooted;
    BlocksGrow(b, after.(allClosed := true, paragraphContainer := false));
  }

  /** Nothing starts at the item's marker that is tried before it. */
  ghost predicate OnlyItem(s: Scan, line: Text, at: nat) {
    && at < |line| && line[at] != GREATER && NothingEarlier(s.g, line[at..])
    && s.g.htmlStartKind(line[at..], !s.leaf.Paragraph?) == 0
    && !Underlines(s, line[at..]) && !s.g.thematicBreak(line[at..])
  }

  lemma TriesItem(s: Scan, line: Text, at: nat)
    requires s.Working() && at < 4 && OnlyItem(s, line, at) && s.Fits(Here(s, line, at)) && Whole(line, at).Advanced()
    ensures s.Depth(Here(s, line, at)) == 0
    ensures s.OpenLeafOrItem(Here(s, line, at)) == s.OpenListItem(Here(s, line, at))
  {
    hide Scan.AddBlock, Scan.Setext, Scan.OpenListItem;
    AtxIsNot(line[at..]);
    assert s.OpenLeafBlock(Here(s, line, at), line[at..]) == Opened(s, Here(s, line, at), Nothing);
  }

  lemma BlankOpensNothing(s: Scan, st: LineState)
    requires s.Working() && s.Fits(st) && st.cursor.Advance().blank && EndStartsNothing(s.g)
    requires s.leaf == NoLeaf && !st.paragraphContainer
    ensures s.OpenBlock(st) == Opened(s, st.(cursor := st.cursor.Advance()), Nothing)
  {
    var c := st.cursor.Advance();
    assert c.line[c.next..] == [];
    hide Scan.AddBlock, Scan.AddContainer;
  }

  lemma BlankInside(s: Scan, st: LineState)
    requires s.Working() && s.Fits(st) && st.cursor.Advance().blank && EndStartsNothing(s.g)
    requires s.leaf == NoLeaf && !st.paragraphContainer && st.allClosed
    ensures After(s.OpenBlocks(st)).containers == s.containers
  {
    var here := st.(cursor := st.cursor.Advance());
    BlankOpensNothing(s, st);
    hide Scan.OpenBlock;
    OpensNothing(s, st, here);
    hide Scan.OpenBlocks, Scan.StartParagraph, Scan.AddParagraphLine;
    ContentContainers(s, here.(cursor := here.cursor.(offset := here.cursor.next)));
  }

  /** Where the item's content is scanned. */
  function AfterMarker(s: Scan, line: Text, at: nat, offset: nat): LineState {
    var here := Here(s, line, at);
    here.(cursor := here.cursor.(offset := offset))
  }

  lemma ItemIsOpened(s: Scan, line: Text, at: nat, n: nat) returns (item: ListItem)
    requires s.Working() && StartsAt(line, at) && Outside(s, line, at) && OnlyItem(s, line, at)
    requires MarkdownSyntax.Opens(line, at, s.containers == [] && s.leaf.Paragraph?, n)
    ensures ContentAt(line, 0, at + n, item) && item.offset <= |line|
    ensures var after := AfterMarker(s, line, at, item.offset);
            && s.Fits(after) && s.Depth(after) == 0
            && s.ScanPhysical(line) == After(s.AddContainer(after, Item(item.required, false))
                                              .OpenBlocks(after.(allClosed := true, paragraphContainer := false)))
  {
    OpensBlocks(s, line, at);
    MetOutside(s, line, at);
    TriesLeaf(s, line, at);
    TriesItem(s, line, at);
    MarkdownSyntax.ItemOpens(line, 0, at, s.containers == [] && s.leaf.Paragraph?, n);
    item := ListItemStart(line, 0, at, Here(s, line, at).paragraphContainer).value;
    hide Scan.ScanPhysical, Scan.AddContainer, Scan.AddContent, StartsAt, Outside, OnlyItem, ListItemStart, ContentAt;
    hide MarkdownSyntax.Opens;
    var after := AfterMarker(s, line, at, item.offset);
    assert s.OpenBlock(Met(s, line, at))
        == Opened(s.AddContainer(after, Item(item.required, false)), after.(allClosed := true), OpenedContainer);
  }

  /**
   A line outside every container whose text is a list marker, in the sense of `Opens`, starts an item that
   needs as much indent as its content has, and is no heading. The item has a child exactly where text follows.
   */
  lemma ItemStarts(s: Scan, line: Text, at: nat, n: nat) returns (item: ListItem)
    requires s.Working() && Rooted(s) && StartsAt(line, at) && Outside(s, line, at) && OnlyItem(s, line, at)
    requires MarkdownSyntax.Opens(line, at, s.containers == [] && s.leaf.Paragraph?, n) && EndStartsNothing(s.g)
    ensures ContentAt(line, 0, at + n, item) && item.offset <= |line|
    ensures var t := s.ScanPhysical(line);
            && t.containers != [] && NoHeading(s, t)
            && t.containers[0] == Item(item.required, At(line, item.offset).next < |line|)
  {
    hide Scan.ScanPhysical, StartsAt, Outside, OnlyItem, ContentAt, MarkdownSyntax.Opens, EndStartsNothing;
    hide Scan.AddContainer, Scan.OpenBlocks, Scan.AddContent, Met;
    HeadingsOnlyAtTheRoot(s, line);
    item := ItemIsOpened(s, line, at, n);
    var after := AfterMarker(s, line, at, item.offset);
    var next := after.(allClosed := true, paragraphContainer := false);
    var b := s.AddContainer(after, Item(item.required, false));
    AddsContainer(s, after, Item(item.required, false));
    AdvanceDependsOnOffset(next.cursor);
    BlocksGrow(b, next);
    if next.cursor.Advance().blank { BlankInside(b, next); }
  }
}
