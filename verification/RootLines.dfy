/**
 What one line outside every container does, told from its text: which lines are headings and how deep, and
 which are not. A line is taken by the block that is open, or starts the first block its text fits, or is
 paragraph text.
 */
module RootLines {
  import opened Text
  import opened MarkdownSyntax
  import opened Outline
  import opened ScannerModel
  import opened ScannerProofs

  /** The first character that is not a space stands at `at`; where there is none, `at` is the end. */
  ghost predicate StartsAt(line: Text, at: nat) {
    at <= |line| && AllSpaces(line[..at]) && (at < |line| ==> line[at] != SPACE)
  }

  /** One to six `#`, and then a space or the end. */
  ghost predicate IsAtx(rest: Text, depth: nat) {
    && 1 <= depth <= 6 && depth <= |rest| && (forall k :: 0 <= k < depth ==> rest[k] == HASH)
    && (depth == |rest| || rest[depth] == SPACE)
  }

  /** `Whole` is the cursor on all of a line whose text starts at `at`. */
  function Whole(line: Text, at: nat): Cursor {
    Cursor(line, 0, at, at, at == |line|)
  }

  lemma AdvancedAt(c: Cursor, at: nat)
    requires StartsAt(c.line, at) && c.offset == 0
    ensures c.Advance() == Whole(c.line, at)
  {
    var r := c.Advance();
    assert forall k :: 0 <= k < at ==> c.line[..at][k] == c.line[k];
    assert r.next == at;
  }

  lemma AtxIs(rest: Text, depth: nat)
    requires IsAtx(rest, depth)
    ensures AtxDepth(rest) == depth
  {
  }

  lemma AtxIsNot(rest: Text)
    requires forall depth :: !IsAtx(rest, depth)
    ensures AtxDepth(rest) == 0
  {
    assert !IsAtx(rest, RunLength(rest, c => c == HASH));
  }

  /** No container is open. */
  ghost predicate AtRoot(s: Scan) {
    s.Working() && s.containers == []
  }

  /** The open leaf leaves a line with text and less than four spaces of indent to what its text starts. */
  predicate LeavesText(leaf: Leaf) {
    leaf == NoLeaf || leaf.Paragraph? || leaf == Indented
  }

  /**
   The line stands outside every container: none is open and the leaf does not take it, or the first of them
   does not go on.
   */
  ghost predicate Outside(s: Scan, line: Text, at: nat) {
    && at < |line| && at < 4
    && if s.containers == [] then LeavesText(s.leaf)
       else match s.containers[0]
         case Quote => line[at] != GREATER
         case Item(required, _) => at < required
  }

  /** How the line and the blocks open before it match. */
  function Met(s: Scan, line: Text, at: nat): LineState {
    var cursor := if s.containers == [] && s.leaf == NoLeaf then Cursor(line, 0, 0, 0, true) else Whole(line, at);
    var all := s.containers == [];
    var taken := all && s.leaf != NoLeaf && s.leaf.Continues(cursor);
    LineState(cursor, 0, all, taken, all && (s.leaf == NoLeaf || taken), taken && s.leaf.Paragraph?)
  }

  function Begin(line: Text): LineState {
    LineState(Cursor(line, 0, 0, 0, true), 0, false, false, false, false)
  }

  lemma MetOutside(s: Scan, line: Text, at: nat)
    requires s.Working() && StartsAt(line, at) && Outside(s, line, at)
    ensures s.MatchLeaf(s.MatchContainers(Begin(line))) == Opened(s, Met(s, line, at), Nothing)
    ensures s.Fits(Met(s, line, at)) && Met(s, line, at).cursor.Advance() == Whole(line, at)
  {
    AdvancedAt(Cursor(line, 0, 0, 0, true), at);
    AdvancedAt(Whole(line, at), at);
  }

  lemma MetRoot(s: Scan, line: Text, at: nat)
    requires AtRoot(s) && StartsAt(line, at)
    requires !(s.leaf.Fenced? && at < 4 && s.g.fenceCloses(s.leaf.fence, line[at..]))
    ensures s.MatchLeaf(s.MatchContainers(Begin(line))) == Opened(s, Met(s, line, at), Nothing)
    ensures s.Fits(Met(s, line, at)) && Met(s, line, at).cursor.Advance() == Whole(line, at)
  {
    AdvancedAt(Cursor(line, 0, 0, 0, true), at);
    AdvancedAt(Whole(line, at), at);
  }

  /** What is decided about the lines: a paragraph that ends is content, and the newest line is `newest`. */
  ghost predicate Decides(s: Scan, t: Scan, newest: Role) {
    && |t.doc| == |s.doc|
    && (forall k :: 0 <= k < |s.doc| ==>
          t.doc[k] == if k + 1 == |s.doc| then s.doc[k].As(newest)
                      else if k + 1 in s.leaf.Held() then s.doc[k].As(Content)
                      else s.doc[k])
  }

  /** Room for a block at the root: every container and the leaf are closed. */
  lemma RootBlock(s: Scan, st: LineState, k: nat)
    requires s.Working() && s.Fits(st) && s.Depth(st) == 0 && k < |s.doc|
    ensures var b := s.AddBlock(st);
            && b == s.(doc := b.doc, leaf := NoLeaf, containers := []) && |b.doc| == |s.doc|
            && b.doc[k] == if k + 1 in s.leaf.Held() then s.doc[k].As(Content) else s.doc[k]
  {
    hide Released;
    ClosedLeafReleases(s, k);
    ClosedLeafReleases(s.CloseUnmatched(st), k);
  }

  lemma RootBlocks(s: Scan, st: LineState)
    requires s.Working() && s.Fits(st) && s.Depth(st) == 0
    ensures var b := s.AddBlock(st);
            b == s.(doc := b.doc, leaf := NoLeaf, containers := []) && |b.doc| == |s.doc|
    ensures forall role :: Decides(s, s.AddBlock(st).MarkNewest(role), role)
  {
    hide Scan.AddBlock;
    RootBlock(s, st, 0);
    forall role ensures Decides(s, s.AddBlock(st).MarkNewest(role), role) {
      forall k | 0 <= k < |s.doc|
        ensures s.AddBlock(st).doc[k] == if k + 1 in s.leaf.Held() then s.doc[k].As(Content) else s.doc[k]
      {
        RootBlock(s, st, k);
      }
    }
  }

  lemma OpeningAppends(s: Scan, h: Heading)
    requires s.Blocks()
    ensures var t := s.OpenHeading(h);
            t.outline == s.outline + [h] && t.doc == s.doc && t.leaf == s.leaf && t.containers == s.containers
  {
    hide Scan.CloseFor;
  }

  function Here(s: Scan, line: Text, at: nat): LineState {
    Met(s, line, at).(cursor := Whole(line, at))
  }

  /** The scan that opening blocks comes to. */
  function After(r: Opened): Scan
    requires r.scan.Working() && r.scan.Fits(r.st)
  {
    if r.outcome == Done then r.scan else r.scan.AddContent(r.st)
  }

  lemma OpensBlocks(s: Scan, line: Text, at: nat)
    requires s.Working() && StartsAt(line, at) && Outside(s, line, at)
    ensures s.Fits(Met(s, line, at)) && s.ScanPhysical(line) == After(s.OpenBlocks(Met(s, line, at)))
  {
    hide Scan.OpenBlocks, Scan.AddContent, Scan.MatchLeaf, Scan.MatchContainers;
    MetOutside(s, line, at);
  }

  /** The line starts a leaf, or, should it start nothing, is tried as a list item. */
  lemma TriesLeaf(s: Scan, line: Text, at: nat)
    requires s.Working() && at < |line| && at < 4 && line[at] != GREATER
    requires s.Fits(Met(s, line, at)) && Met(s, line, at).cursor.Advance() == Whole(line, at)
    ensures s.OpenBlock(Met(s, line, at)) == s.OpenLeafOrItem(Here(s, line, at))
  {
    hide Scan.OpenLeafOrItem, Scan.AddLeaf, Scan.AddContainer;
  }

  /** A line that starts a leaf is what the leaf makes of it. */
  lemma StartsLeaf(s: Scan, line: Text, at: nat)
    requires s.Working() && StartsAt(line, at) && Outside(s, line, at) && line[at] != GREATER
    requires s.Fits(Here(s, line, at)) && s.OpenLeafBlock(Here(s, line, at), line[at..]).outcome != Nothing
    ensures s.ScanPhysical(line) == After(s.OpenLeafBlock(Here(s, line, at), line[at..]))
  {
    OpensBlocks(s, line, at);
    MetOutside(s, line, at);
    TriesLeaf(s, line, at);
    hide Scan.OpenLeafBlock, Scan.AddContent, Scan.OpenBlock, Scan.ScanPhysical, Met;
    assert s.OpenBlock(Met(s, line, at)) == s.OpenLeafBlock(Here(s, line, at), line[at..]);
  }

  /**
   A line of one to six `#` outside every container is a heading of that depth, on this line alone. Whatever
   was open is closed.
   */
  lemma AtxIsHeading(s: Scan, line: Text, at: nat, depth: nat)
    requires s.Working() && StartsAt(line, at) && Outside(s, line, at) && IsAtx(line[at..], depth)
    ensures var t := s.ScanPhysical(line);
            var h := Heading(depth, |s.doc|, |s.doc|, StripTerminator(s.texts[|s.doc| - 1]));
            && t.outline == s.outline + [h] && Decides(s, t, HeadingLine(h))
            && t.leaf == NoLeaf && t.containers == []
  {
    hide Scan.AddBlock, Scan.OpenHeading, Scan.ScanPhysical, Decides;
    AtxIs(line[at..], depth);
    assert line[at..][0] == HASH;
    var here := Here(s, line, at);
    RootBlocks(s, here);
    var h := Heading(depth, |s.doc|, |s.doc|, StripTerminator(s.texts[|s.doc| - 1]));
    OpeningAppends(s.AddBlock(here).MarkNewest(HeadingLine(h)), h);
    StartsLeaf(s, line, at);
    SameDecision(s, s.AddBlock(here).MarkNewest(HeadingLine(h)), s.ScanPhysical(line), HeadingLine(h));
  }

  lemma SameDecision(s: Scan, b: Scan, t: Scan, newest: Role)
    requires Decides(s, b, newest) && t.doc == b.doc
    ensures Decides(s, t, newest)
  {
  }

  /** An open root paragraph, of which `first` is the first line that no link reference definition consumes. */
  ghost predicate RootParagraph(s: Scan, first: nat) {
    && AtRoot(s) && s.leaf.Paragraph? && s.leaf.root && first < |s.leaf.lines|
    && first == match s.leaf.definitionText
                case None => 0
                case Some(texts) => s.g.definitionLineCount(texts)
  }

  /** The marks after an underline: the lines from `first` on and the newest are the heading, those before are text. */
  ghost predicate Promotes(s: Scan, t: Scan, first: nat, h: Heading)
    requires s.leaf.Paragraph? && first <= |s.leaf.lines|
  {
    && |t.doc| == |s.doc|
    && (forall k :: 0 <= k < |s.doc| ==>
          t.doc[k] == if k + 1 in s.leaf.lines[first..] then s.doc[k].As(HeadingLine(h)).(rootParagraph := false)
                      else if k + 1 == |s.doc| then s.doc[k].As(HeadingLine(h))
                      else if k + 1 in s.leaf.lines[..first] then s.doc[k].As(Content)
                      else s.doc[k])
  }

  lemma {:induction false} PromotedIs(doc: seq<Mark>, paragraph: seq<nat>, n: nat, first: nat, h: Heading, k: nat)
    requires n <= |paragraph| && first <= |paragraph| && Within(paragraph, 0, |doc|) && k < |doc|
    ensures var m := Promoted(doc, paragraph, n, first, h)[k];
            if n > first && k + 1 in paragraph[first..n] then
              m.rootParagraph == false && m.role == doc[k].As(HeadingLine(h)).role
            else if k + 1 in paragraph[..Min(first, n)] then m == doc[k].As(Content)
            else m == doc[k]
  {
    if n > 0 {
      PromotedIs(doc, paragraph, n - 1, first, h, k);
      if n - 1 < first {
        assert paragraph[..n] == paragraph[..n - 1] + [paragraph[n - 1]];
      } else {
        assert paragraph[first..n] == paragraph[first..n - 1] + [paragraph[n - 1]];
      }
    }
  }

  lemma Promotion(s: Scan, first: nat, h: Heading)
    requires RootParagraph(s, first)
    ensures Promotes(s, s.(doc := Promoted(s.doc, s.leaf.lines, |s.leaf.lines|, first, h), leaf := NoLeaf)
                        .MarkNewest(HeadingLine(h)), first, h)
  {
    hide Promoted;
    var paragraph := s.leaf.lines;
    forall k | 0 <= k < |s.doc|
      ensures var m := Promoted(s.doc, paragraph, |paragraph|, first, h)[k];
              if k + 1 in paragraph[first..] then
                m.rootParagraph == false && m.role == s.doc[k].As(HeadingLine(h)).role
              else if k + 1 in paragraph[..first] then m == s.doc[k].As(Content)
              else m == s.doc[k]
    {
      PromotedIs(s.doc, paragraph, |paragraph|, first, h, k);
      assert paragraph[first..|paragraph|] == paragraph[first..];
    }
  }

  /** No block starts at `rest` that is tried before an underline. */
  ghost predicate NothingEarlier(g: Grammar, rest: Text) {
    (forall depth :: !IsAtx(rest, depth)) && g.fenceOpen(rest) == None && g.htmlStartKind(rest, false) == 0
  }

  /**
   A run of `=` or `-` under an open root paragraph makes a heading of the lines its definitions leave: at depth 1
   when it is `=`, at depth 2 when it is `-`, from the first of those lines to this one.
   */
  lemma UnderlineMakesHeading(s: Scan, line: Text, at: nat, first: nat)
    requires RootParagraph(s, first) && StartsAt(line, at) && at < |line| && at < 4
    requires line[at] == EQUALS || line[at] == MINUS
    requires NothingEarlier(s.g, line[at..]) && s.g.setextUnderline(line[at..])
    ensures var t := s.ScanPhysical(line);
            var from := s.leaf.lines[first];
            var h := Heading(if line[at] == EQUALS then 1 else 2, from, |s.doc|, StripTerminator(s.texts[from - 1]));
            && t.outline == s.outline + [h] && Promotes(s, t, first, h)
            && t.leaf == NoLeaf && t.containers == []
  {
    hide Scan.OpenHeading, Scan.ScanPhysical, Promotes, Promoted;
    var rest := line[at..];
    AtxIsNot(rest);
    var here := Here(s, line, at);
    var from := s.leaf.lines[first];
    var h := Heading(if line[at] == EQUALS then 1 else 2, from, |s.doc|, StripTerminator(s.texts[from - 1]));
    assert rest[0] == line[at];
    Promotion(s, first, h);
    var m := s.(doc := Promoted(s.doc, s.leaf.lines, |s.leaf.lines|, first, h), leaf := NoLeaf)
              .MarkNewest(HeadingLine(h));
    OpeningAppends(m, h);
    StartsLeaf(s, line, at);
    assert s.ScanPhysical(line) == m.OpenHeading(h);
    SamePromotion(s, m, s.ScanPhysical(line), first, h);
  }

  lemma SamePromotion(s: Scan, b: Scan, t: Scan, first: nat, h: Heading)
    requires s.leaf.Paragraph? && first <= |s.leaf.lines| && Promotes(s, b, first, h) && t.doc == b.doc
    ensures Promotes(s, t, first, h)
  {
  }

  /** No heading opens and none ends: the lines, the leaf and the containers may have changed. */
  ghost predicate NoHeading(s: Scan, t: Scan) {
    t == s.(doc := t.doc, leaf := t.leaf, containers := t.containers)
  }

  // The lines that are no headings.

  /** A code or HTML block takes text: the line is content, and an HTML block may end with it. */
  lemma TakesText(s: Scan, st: LineState)
    requires s.Working() && s.Fits(st) && st.allClosed && s.leaf != NoLeaf && !s.leaf.Paragraph?
    requires exists k :: 0 <= k < |st.cursor.line| && st.cursor.line[k] != SPACE
    ensures s.AddContent(st) == s.MarkNewest(Content).(leaf := Rest(s.g, s.leaf, st.cursor.line[st.cursor.offset..]))
  {
    var line := st.cursor.line;
    assert RunLength(line, c => c == SPACE) < |line|;
  }

  /** An HTML block of the first five kinds ends with the text that closes it. */
  function Rest(g: Grammar, leaf: Leaf, text: Text): Leaf {
    if leaf.Html? && 1 <= leaf.kind <= 5 && g.htmlCloses(leaf.kind, text) then NoLeaf else leaf
  }

  /** A leaf that the line starts takes the rest of the line. */
  lemma TakesRest(s: Scan, line: Text, at: nat, leaf: Leaf)
    requires s.Working() && StartsAt(line, at) && at < |line| && leaf != NoLeaf && !leaf.Paragraph?
    requires s.Fits(Here(s, line, at)) && s.Depth(Here(s, line, at)) == 0
    ensures var here := Here(s, line, at);
            var on := here.(allClosed := true, cursor := here.cursor.(offset := at));
            var t := s.AddLeaf(here, leaf).AddContent(on);
            && NoHeading(s, t) && Decides(s, t, Content) && t.containers == []
            && t.leaf == Rest(s.g, leaf, line[at..])
  {
    hide Scan.AddBlock, Scan.AddContent, Decides;
    var here := Here(s, line, at);
    RootBlocks(s, here);
    TakesText(s.AddLeaf(here, leaf), here.(allClosed := true, cursor := here.cursor.(offset := at)));
    SameDecision(s, s.AddBlock(here).MarkNewest(Content), s.AddLeaf(here, leaf).MarkNewest(Content), Content);
  }

  /** A fence opener starts a code block, whose text is no heading. */
  lemma FenceStarts(s: Scan, line: Text, at: nat)
    requires s.Working() && StartsAt(line, at) && Outside(s, line, at) && line[at] != GREATER
    requires (forall depth :: !IsAtx(line[at..], depth)) && s.g.fenceOpen(line[at..]).Some?
    ensures var t := s.ScanPhysical(line);
            && NoHeading(s, t) && Decides(s, t, Content)
            && t.leaf == Fenced(s.g.fenceOpen(line[at..]).value) && t.containers == []
  {
    hide Scan.AddLeaf, Scan.AddContent, Decides, Scan.ScanPhysical;
    AtxIsNot(line[at..]);
    TakesRest(s, line, at, Fenced(s.g.fenceOpen(line[at..]).value));
    StartsLeaf(s, line, at);
  }

  /** So does the opener of an HTML block, which may end on its own line. */
  lemma HtmlStarts(s: Scan, line: Text, at: nat)
    requires s.Working() && StartsAt(line, at) && Outside(s, line, at) && line[at] != GREATER
    requires (forall depth :: !IsAtx(line[at..], depth)) && s.g.fenceOpen(line[at..]).None?
    requires s.g.htmlStartKind(line[at..], !s.leaf.Paragraph?) > 0
    ensures var t := s.ScanPhysical(line);
            && NoHeading(s, t) && Decides(s, t, Content) && t.containers == []
            && t.leaf == Rest(s.g, Html(s.g.htmlStartKind(line[at..], !s.leaf.Paragraph?)), line[at..])
  {
    hide Scan.AddLeaf, Scan.AddContent, Decides, Scan.ScanPhysical;
    AtxIsNot(line[at..]);
    var here := Here(s, line, at);
    assert !(here.paragraphContainer || s.LazyParagraph(here)) == !s.leaf.Paragraph?;
    TakesRest(s, line, at, Html(s.g.htmlStartKind(line[at..], !s.leaf.Paragraph?)));
    StartsLeaf(s, line, at);
  }

  /** An underline that a heading can be made with: the open root paragraph keeps a line after its definitions. */
  ghost predicate Underlines(s: Scan, rest: Text) {
    && s.g.setextUnderline(rest) && s.containers == [] && s.leaf.Paragraph?
    && (s.leaf.definitionText.Some? ==>
          s.g.definitionLineCount(s.leaf.definitionText.value) < |s.leaf.definitionText.value|)
  }

  /** A thematic break that is no underline is content, and closes what was open. */
  lemma ThematicBreaks(s: Scan, line: Text, at: nat)
    requires s.Working() && StartsAt(line, at) && Outside(s, line, at) && line[at] != GREATER
    requires NothingEarlier(s.g, line[at..]) && s.g.htmlStartKind(line[at..], true) == 0
    requires s.g.thematicBreak(line[at..]) && !Underlines(s, line[at..])
    ensures var t := s.ScanPhysical(line);
            NoHeading(s, t) && Decides(s, t, Content) && t.leaf == NoLeaf && t.containers == []
  {
    hide Scan.AddBlock, Decides, Scan.ScanPhysical, Scan.Setext;
    var rest := line[at..];
    AtxIsNot(rest);
    var here := Here(s, line, at);
    RootBlocks(s, here);
    var b := s.AddBlock(here).MarkNewest(Content);
    assert s.OpenLeafBlock(here, rest) == Opened(b, here.(allClosed := true), Done);
    hide Scan.OpenLeafBlock;
    StartsLeaf(s, line, at);
  }

  /** No block starts at `rest`, which is all of a line from its first character on. */
  ghost predicate StartsNothing(s: Scan, line: Text, at: nat) {
    && at < |line| && line[at] != GREATER && NothingEarlier(s.g, line[at..])
    && s.g.htmlStartKind(line[at..], !s.leaf.Paragraph?) == 0
    && !Underlines(s, line[at..]) && !s.g.thematicBreak(line[at..])
    && !BeginsItem(line, at, s.containers == [] && s.leaf.Paragraph?)
  }

  /** A list item's marker, and what must follow it, stand at `at`. */
  ghost predicate BeginsItem(line: Text, at: nat, interruptsParagraph: bool) {
    exists n :: MarkdownSyntax.Opens(line, at, interruptsParagraph, n)
  }

  lemma TriesNothing(s: Scan, line: Text, at: nat)
    requires s.Working() && at < 4 && StartsNothing(s, line, at) && s.Fits(Here(s, line, at))
    requires Whole(line, at).Advanced()
    ensures s.OpenLeafOrItem(Here(s, line, at)) == Opened(s, Here(s, line, at), Nothing)
  {
    hide Scan.AddBlock, Scan.Setext, Released, ListItemStart, BeginsItem;
    var here := Here(s, line, at);
    AtxIsNot(line[at..]);
    NoItem(s, line, at);
    assert s.OpenLeafBlock(here, line[at..]) == Opened(s, here, Nothing);
  }

  lemma OpensNothing(s: Scan, st: LineState, here: LineState)
    requires s.Working() && s.Fits(st) && s.OpenBlock(st) == Opened(s, here, Nothing)
    ensures s.OpenBlocks(st) == Opened(s, here.(cursor := here.cursor.(offset := here.cursor.next)), Nothing)
  {
    hide Scan.OpenBlock;
  }

  /** What starts nothing goes on to the paragraph, or to a new one. */
  lemma IsContent(s: Scan, line: Text, at: nat)
    requires s.Working() && StartsAt(line, at) && Outside(s, line, at) && StartsNothing(s, line, at)
    ensures var on := Here(s, line, at);
            s.Fits(on) && s.ScanPhysical(line) == s.AddContent(on.(cursor := on.cursor.(offset := at)))
  {
    OpensBlocks(s, line, at);
    MetOutside(s, line, at);
    TriesLeaf(s, line, at);
    TriesNothing(s, line, at);
    hide Scan.OpenBlocks, Scan.OpenBlock, Scan.OpenLeafOrItem, Scan.AddContent, Scan.ScanPhysical;
    hide StartsNothing, Outside;
    OpensNothing(s, Met(s, line, at), Here(s, line, at));
  }

  lemma NoItem(s: Scan, line: Text, at: nat)
    requires at <= |line| && StartsNothing(s, line, at)
    ensures ListItemStart(line, 0, at, s.containers == [] && s.leaf.Paragraph?) == None
  {
    hide ListItemStart, MarkdownSyntax.Opens;
    var interrupts := s.containers == [] && s.leaf.Paragraph?;
    ItemOpens(line, 0, at, interrupts, 0);
    var n := ListMarkerLength(line[at..], interrupts);
    assert MarkdownSyntax.Opens(line, at, interrupts, n) ==> BeginsItem(line, at, interrupts);
  }

  /** The newest line joins the open root paragraph, and waits with it. */
  ghost predicate Joins(s: Scan, t: Scan, text: Text)
    requires s.leaf.Paragraph?
  {
    && NoHeading(s, t) && |s.doc| >= 1
    && t.leaf == Paragraph(true, s.leaf.lines + [|s.doc|],
         match s.leaf.definitionText case None => None case Some(texts) => Some(texts + [text]))
    && t.doc == s.doc[|s.doc| - 1 := s.doc[|s.doc| - 1].(rootParagraph := true)]
    && t.containers == s.containers
  }

  /** The newest line is text of a container's paragraph, which stays open. */
  ghost predicate JoinsInside(s: Scan, t: Scan) {
    && NoHeading(s, t) && Decides(s, t, Content) && t.leaf.Paragraph? && !t.leaf.root && t.containers == s.containers
  }

  lemma ParagraphTakes(s: Scan, text: Text)
    requires s.Working() && s.leaf.Paragraph?
    ensures var t := s.AddParagraphLine(text);
            if s.leaf.root then Joins(s, t, text) else JoinsInside(s, t)
  {
  }

  lemma ContentJoins(s: Scan, st: LineState)
    requires s.Working() && s.Fits(st) && s.leaf.Paragraph? && !st.cursor.blank
    ensures s.AddContent(st) == s.AddParagraphLine(st.cursor.line[st.cursor.offset..])
  {
    hide Scan.AddParagraphLine, Scan.StartParagraph, Scan.AddToLeaf;
  }

  /** Text that starts nothing joins the open paragraph, a lazy line of a container's paragraph too. */
  lemma TextJoins(s: Scan, line: Text, at: nat)
    requires s.Working() && StartsAt(line, at) && Outside(s, line, at) && StartsNothing(s, line, at)
    requires s.leaf.Paragraph?
    ensures var t := s.ScanPhysical(line);
            if s.leaf.root then Joins(s, t, line[at..]) else JoinsInside(s, t)
  {
    IsContent(s, line, at);
    hide StartsNothing, Outside, Joins, JoinsInside, Scan.ScanPhysical, Scan.AddContent, Scan.AddParagraphLine;
    var here := Here(s, line, at);
    ContentJoins(s, here.(cursor := here.cursor.(offset := at)));
    ParagraphTakes(s, line[at..]);
  }

  /** A new root paragraph of the newest line. */
  ghost predicate Starts(s: Scan, t: Scan, text: Text) {
    && NoHeading(s, t) && t.containers == [] && |s.doc| >= 1
    && t.leaf == Paragraph(true, [|s.doc|], if s.g.mayOpenDefinition(text) then Some([text]) else None)
    && t.doc == s.doc[|s.doc| - 1 := s.doc[|s.doc| - 1].(rootParagraph := true)]
  }

  lemma FirstLine(s: Scan, text: Text)
    requires s.Working() && s.containers == []
    requires s.leaf == Paragraph(true, [], if s.g.mayOpenDefinition(text) then Some([]) else None)
    ensures Starts(s, s.AddParagraphLine(text), text)
  {
    var none: seq<nat>, noTexts: seq<Text> := [], [];
    assert none + [|s.doc|] == [|s.doc|] && noTexts + [text] == [text];
  }

  lemma ParagraphStarts(s: Scan, st: LineState, text: Text)
    requires s.Working() && s.Fits(st) && s.Depth(st) == 0 && s.leaf == NoLeaf
    ensures Starts(s, s.StartParagraph(st, text), text)
  {
    SameLines(s, st);
    hide Scan.AddBlock, Scan.AddParagraphLine;
    var b := s.AddBlock(st);
    var u := b.(leaf := Paragraph(true, [], if b.g.mayOpenDefinition(text) then Some([]) else None));
    FirstLine(u, text);
    assert s.StartParagraph(st, text) == u.AddParagraphLine(text);
  }

  lemma SameLines(s: Scan, st: LineState)
    requires s.Working() && s.Fits(st) && s.Depth(st) == 0 && !s.leaf.Paragraph?
    ensures s.AddBlock(st) == s.(leaf := NoLeaf, containers := [])
  {
  }

  lemma ContentStarts(s: Scan, st: LineState)
    requires s.Working() && s.Fits(st) && s.Depth(st) == 0 && !s.leaf.Paragraph? && !st.cursor.blank
    requires st.allClosed || (st.containersMatched && st.leafMatched) ==> s.leaf == NoLeaf
    ensures var u := s.(leaf := NoLeaf, containers := []);
            s.AddContent(st) == u.StartParagraph(st.(allClosed := true), st.cursor.line[st.cursor.offset..])
  {
    hide Scan.AddParagraphLine, Scan.StartParagraph, Scan.AddToLeaf;
    assert s.CloseUnmatched(st) == s.(leaf := NoLeaf, containers := []);
  }

  /** Text that starts nothing, where no paragraph is open, starts a root paragraph. */
  lemma TextStarts(s: Scan, line: Text, at: nat)
    requires s.Working() && StartsAt(line, at) && Outside(s, line, at) && StartsNothing(s, line, at)
    requires !s.leaf.Paragraph?
    ensures Starts(s, s.ScanPhysical(line), line[at..])
  {
    IsContent(s, line, at);
    hide StartsNothing, Starts, Scan.ScanPhysical, Scan.AddContent, Scan.StartParagraph;
    var here := Here(s, line, at);
    var st := here.(cursor := here.cursor.(offset := at));
    ContentStarts(s, st);
    ParagraphStarts(s.(leaf := NoLeaf, containers := []), st.(allClosed := true), line[at..]);
    SameStart(s, s.(leaf := NoLeaf, containers := []), s.ScanPhysical(line), line[at..]);
  }

  lemma SameStart(s: Scan, u: Scan, t: Scan, text: Text)
    requires Starts(u, t, text) && u == s.(leaf := NoLeaf, containers := [])
    ensures Starts(s, t, text)
  {
  }

  // The lines an open block takes.

  /** In a paragraph a line of four spaces or more is text. */
  lemma DeepTextJoins(s: Scan, line: Text, at: nat)
    requires AtRoot(s) && StartsAt(line, at) && 4 <= at < |line| && s.leaf.Paragraph? && s.leaf.root
    ensures Joins(s, s.ScanPhysical(line), line[at..])
  {
    MetRoot(s, line, at);
    var here := Here(s, line, at);
    hide Joins, Scan.AddParagraphLine;
    assert s.OpenBlock(Met(s, line, at)) == Opened(s, here, Nothing);
    OpensNothing(s, Met(s, line, at), here);
    ContentJoins(s, here.(cursor := here.cursor.(offset := at)));
    ParagraphTakes(s, line[at..]);
    hide Scan.OpenBlocks, Scan.OpenBlock, Scan.AddContent, Scan.MatchLeaf, Scan.MatchContainers;
    assert s.ScanPhysical(line) == s.AddContent(here.(cursor := here.cursor.(offset := at)));
  }

  /** Where no paragraph is open it is code. */
  lemma DeepTextIsCode(s: Scan, line: Text, at: nat)
    requires AtRoot(s) && StartsAt(line, at) && 4 <= at < |line| && (s.leaf == NoLeaf || s.leaf == Indented)
    ensures var t := s.ScanPhysical(line);
            NoHeading(s, t) && Decides(s, t, Content) && t.leaf == Indented && t.containers == []
  {
    MetRoot(s, line, at);
    hide Decides;
    var met, here := Met(s, line, at), Here(s, line, at);
    var on := here.(allClosed := true, cursor := here.cursor.(offset := at));
    if s.leaf == Indented {
      TakesText(s, met);
      assert s.ScanPhysical(line) == s.AddContent(met);
      SameDecision(s, s.MarkNewest(Content), s.ScanPhysical(line), Content);
    } else {
      TakesRest(s, line, at, Indented);
      hide Scan.AddContent;
      assert s.OpenBlock(met) == Opened(s.AddLeaf(here, Indented), on, OpenedLeaf);
      assert s.OpenBlocks(met) == s.OpenBlock(met);
    }
  }

  /** The closing fence of a fenced block is content, and ends it. */
  lemma FenceEnds(s: Scan, line: Text, at: nat)
    requires AtRoot(s) && StartsAt(line, at) && s.leaf.Fenced? && at < 4 && s.g.fenceCloses(s.leaf.fence, line[at..])
    ensures var t := s.ScanPhysical(line);
            NoHeading(s, t) && Decides(s, t, Content) && t.leaf == NoLeaf && t.containers == []
  {
    AdvancedAt(Cursor(line, 0, 0, 0, true), at);
  }

  /** Any other line in it is content, if it is not blank, and leaves it open. */
  lemma FenceGoesOn(s: Scan, line: Text, at: nat)
    requires AtRoot(s) && StartsAt(line, at) && s.leaf.Fenced?
    requires !(at < 4 && s.g.fenceCloses(s.leaf.fence, line[at..]))
    ensures var t := s.ScanPhysical(line);
            && NoHeading(s, t) && t.leaf == s.leaf && t.containers == []
            && (at < |line| ==> Decides(s, t, Content)) && (at == |line| ==> t.doc == s.doc)
  {
    MetRoot(s, line, at);
    if at < |line| { TakesText(s, Met(s, line, at)); } else { NoText(line); }
    hide Scan.MatchLeaf, Scan.MatchContainers, Scan.OpenBlocks;
  }

  lemma NoText(line: Text)
    requires StartsAt(line, |line|)
    ensures RunLength(line, c => c == SPACE) == |line|
  {
    assert line[..|line|] == line;
  }

  /** So is a line in an HTML block, unless a blank line ends the block; one may end with its own line. */
  lemma HtmlGoesOn(s: Scan, line: Text, at: nat)
    requires AtRoot(s) && StartsAt(line, at) && s.leaf.Html? && (at < |line| || s.leaf.kind < 6)
    ensures var t := s.ScanPhysical(line);
            && NoHeading(s, t) && t.containers == [] && t.leaf == Rest(s.g, s.leaf, line)
            && (at < |line| ==> Decides(s, t, Content)) && (at == |line| ==> t.doc == s.doc)
  {
    MetRoot(s, line, at);
    assert line[0..] == line;
    if at < |line| { TakesText(s, Met(s, line, at)); } else { NoText(line); }
  }

  /** No block starts where a line ends. */
  ghost predicate EndStartsNothing(g: Grammar) {
    g.fenceOpen([]) == None && (forall first :: g.htmlStartKind([], first) == 0) && !g.thematicBreak([])
  }

  /**
   A blank line ends an open paragraph, which is content, and an HTML block of the last kinds; it decides
   nothing else.
   */
  lemma BlankLine(s: Scan, line: Text)
    requires AtRoot(s) && StartsAt(line, |line|) && EndStartsNothing(s.g)
    requires LeavesText(s.leaf) || (s.leaf.Html? && s.leaf.kind >= 6)
    ensures var t := s.ScanPhysical(line);
            && NoHeading(s, t) && t.containers == [] && t.leaf == (if s.leaf == Indented then Indented else NoLeaf)
            && |t.doc| == |s.doc|
            && (forall k :: 0 <= k < |s.doc| ==>
                  t.doc[k] == if k + 1 in s.leaf.Held() then s.doc[k].As(Content) else s.doc[k])
  {
    MetRoot(s, line, |line|);
    NoText(line);
    BlankContent(s, line);
    hide Scan.AddContent;
    if s.leaf == Indented {
      assert s.ScanPhysical(line) == s.AddContent(Met(s, line, |line|));
    } else {
      BlankStartsNothing(s, line);
      hide Scan.OpenBlock;
      OpensNothing(s, Met(s, line, |line|), Here(s, line, |line|));
      hide Scan.OpenBlocks, Scan.MatchLeaf, Scan.MatchContainers;
    }
    forall k | 0 <= k < |s.doc|
      ensures s.CloseLeaf().doc[k] == if k + 1 in s.leaf.Held() then s.doc[k].As(Content) else s.doc[k]
    {
      ClosedLeafReleases(s, k);
    }
  }

  lemma BlankKeeps(s: Scan, st: LineState)
    requires AtRoot(s) && s.Fits(st) && st.cursor.blank && st.allClosed && (s.leaf == NoLeaf || s.leaf == Indented)
    requires RunLength(st.cursor.line, c => c == SPACE) == |st.cursor.line|
    ensures s.AddContent(st) == s
  {
    hide Scan.AddParagraphLine, Scan.StartParagraph;
  }

  lemma BlankCloses(s: Scan, st: LineState)
    requires AtRoot(s) && s.Fits(st) && st.cursor.blank && !st.allClosed && !st.leafMatched
    requires RunLength(st.cursor.line, c => c == SPACE) == |st.cursor.line|
    ensures s.AddContent(st) == s.CloseLeaf()
  {
    hide Scan.AddParagraphLine, Scan.StartParagraph, Released;
    assert s.CloseUnmatched(st) == s.CloseLeaf();
  }

  lemma BlankContent(s: Scan, line: Text)
    requires AtRoot(s) && RunLength(line, c => c == SPACE) == |line|
    requires LeavesText(s.leaf) || (s.leaf.Html? && s.leaf.kind >= 6)
    ensures var met := Met(s, line, |line|);
            var here := Here(s, line, |line|);
            && s.Fits(met) && s.Fits(here) && (s.leaf == Indented ==> s.AddContent(met) == s)
            && s.AddContent(here.(cursor := here.cursor.(offset := |line|)))
               == if s.leaf == Indented || s.leaf == NoLeaf then s else s.CloseLeaf()
  {
    hide Scan.AddContent, Scan.CloseLeaf;
    var met, here := Met(s, line, |line|), Here(s, line, |line|);
    var end := here.(cursor := here.cursor.(offset := |line|));
    if s.leaf == Indented {
      BlankKeeps(s, met);
      BlankKeeps(s, end);
    } else if s.leaf == NoLeaf {
      BlankKeeps(s, end);
    } else {
      BlankCloses(s, end);
    }
  }

  lemma BlankStartsNothing(s: Scan, line: Text)
    requires AtRoot(s) && EndStartsNothing(s.g) && StartsAt(line, |line|)
    requires s.leaf == NoLeaf || s.leaf.Paragraph? || (s.leaf.Html? && s.leaf.kind >= 6)
    requires s.Fits(Met(s, line, |line|)) && Met(s, line, |line|).cursor.Advance() == Whole(line, |line|)
    ensures s.OpenBlock(Met(s, line, |line|)) == Opened(s, Here(s, line, |line|), Nothing)
  {
    assert line[|line|..] == [];
  }
}
