/**
 Documents of headings, prose and blank lines, end to end: the headings a whole scan finds, read off the lines.
 */
module DocumentOutline {
  import opened Text
  import opened MarkdownSyntax
  import opened Outline
  import opened ScannerModel
  import opened ScannerProofs
  import opened ScannerRuns
  import opened RootLines

  datatype Kind = Nil | Hashes(depth: nat) | Rule(depth: nat) | Prose

  /** The headings of the first lines, and the first line of the paragraph still open, zero when none is. */
  datatype Reading = Reading(headings: seq<Heading>, open: nat)

  /** Line `n` after a reading of those before it: a rule of `=` or `-` makes the paragraph above it a heading. */
  function Next(r: Reading, kind: Kind, source: seq<Text>, n: nat): Reading
    requires 1 <= n <= |source| && r.open <= |source|
  {
    match kind
    case Nil => r.(open := 0)
    case Hashes(depth) => Reading(r.headings + [Heading(depth, n, n, StripTerminator(source[n - 1]))], 0)
    case Rule(depth) =>
      if r.open == 0 then r
      else Reading(r.headings + [Heading(depth, r.open, n, StripTerminator(source[r.open - 1]))], 0)
    case Prose => r.(open := if r.open == 0 then n else r.open)
  }

  /** What the first `n` lines of a document say. */
  function Read(kinds: seq<Kind>, source: seq<Text>, n: nat): (r: Reading)
    requires n <= |kinds| && n <= |source|
    ensures r.open <= n
  {
    if n == 0 then Reading([], 0) else Next(Read(kinds, source, n - 1), kinds[n - 1], source, n)
  }

  /** The text of a line, without terminator and tabs, is of this kind where a paragraph is open or not. */
  ghost predicate IsKind(g: Grammar, line: Text, at: nat, kind: Kind, inParagraph: bool) {
    StartsAt(line, at) &&
    match kind
    case Nil => at == |line|
    case Hashes(depth) => at < |line| && at < 4 && IsAtx(line[at..], depth)
    case Rule(depth) =>
      && at < |line| && at < 4 && inParagraph && NothingEarlier(g, line[at..]) && g.setextUnderline(line[at..])
      && ((depth == 1 && line[at] == EQUALS) || (depth == 2 && line[at] == MINUS))
    case Prose =>
      && at < |line| && at < 4 && line[at] != GREATER && NothingEarlier(g, line[at..])
      && g.htmlStartKind(line[at..], !inParagraph) == 0 && !g.thematicBreak(line[at..])
      && !(inParagraph && g.setextUnderline(line[at..])) && !BeginsItem(line, at, inParagraph)
      && !g.mayOpenDefinition(line[at..])
  }

  ghost predicate HasKind(g: Grammar, line: Text, kind: Kind, inParagraph: bool) {
    exists at: nat :: IsKind(g, line, at, kind, inParagraph)
  }

  /** Line `n` of the document is one physical line of its kind. */
  ghost predicate LineIs(g: Grammar, source: seq<Text>, kinds: seq<Kind>, n: nat)
    requires 1 <= n <= |source| == |kinds|
  {
    && Plain(n, source[n - 1])
    && HasKind(g, g.expandTabs(Pieces(n, source[n - 1])[0]), kinds[n - 1], Read(kinds, source, n - 1).open > 0)
  }

  /** A byte order mark is no part of the first line, and is one of any other. */
  lemma ByteOrderMarkIsIgnored(text: Text, n: nat)
    requires text == [] || text[0] != BYTE_ORDER_MARK
    ensures Pieces(1, [BYTE_ORDER_MARK] + text) == Pieces(1, text) == SplitAtCr(StripTerminator(text))
    ensures n != 1 ==> Pieces(n, [BYTE_ORDER_MARK] + text) == SplitAtCr(StripTerminator([BYTE_ORDER_MARK] + text))
  {
    hide SplitAtCr, StripTerminator;
    assert ([BYTE_ORDER_MARK] + text)[1..] == text;
  }

  /** A document of such lines, the first of which opens no frontmatter. */
  ghost predicate Simple(g: Grammar, source: seq<Text>, kinds: seq<Kind>) {
    && |source| == |kinds| && EndStartsNothing(g)
    && (forall n :: 1 <= n <= |source| ==> LineIs(g, source, kinds, n))
    && (source != [] ==> !g.isDelimiter(WithoutByteOrderMark(source[0]), false))
  }

  /** The scan stands where the reading does. */
  ghost predicate Tracks(s: Scan, r: Reading) {
    && s.Blocks() && s.containers == [] && s.outline == r.headings && r.open <= |s.doc|
    && (r.open == 0 ==> s.leaf == NoLeaf)
    && (r.open > 0 ==>
          && s.leaf.Paragraph? && s.leaf.root && s.leaf.definitionText == None
          && s.leaf.lines != [] && s.leaf.lines[0] == r.open)
  }

  lemma PhysicalTracks(s: Scan, r: Reading, line: Text, at: nat, kind: Kind)
    requires s.Working() && Tracks(s, r) && EndStartsNothing(s.g) && IsKind(s.g, line, at, kind, r.open > 0)
    ensures Tracks(s.ScanPhysical(line), Next(r, kind, s.texts, |s.doc|))
  {
    hide Scan.ScanPhysical, StartsAt, NothingEarlier, IsAtx, EndStartsNothing, BeginsItem, Decides, Promotes;
    hide StripTerminator;
    match kind
    case Nil => BlankLine(s, line);
    case Hashes(depth) => AtxIsHeading(s, line, at, depth);
    case Rule(depth) => UnderlineMakesHeading(s, line, at, 0);
    case Prose => if r.open == 0 { TextStarts(s, line, at); } else { TextJoins(s, line, at); }
  }

  lemma ScanLineIs(s: Scan, text: Text)
    requires s.Blocks() && !s.stopped && Plain(|s.doc| + 1, text)
    ensures NewLine(s, text).Working()
    ensures var p := NewLine(s, text).ScanPhysical(s.g.expandTabs(Pieces(|s.doc| + 1, text)[0]));
            s.ScanLine(text) == if p.stopped then p else p.Flush()
  {
    hide Scan.ScanPhysical, Pieces, Scan.Flush;
    var n, pieces := NewLine(s, text), Pieces(|s.doc| + 1, text);
    var p := n.ScanPhysical(s.g.expandTabs(pieces[0]));
    assert pieces[1..] == [] && p.ScanPieces(pieces[1..]) == p;
    assert n.ScanPieces(pieces) == p;
  }

  lemma NewLineTracks(s: Scan, text: Text, r: Reading)
    requires Tracks(s, r)
    ensures Tracks(NewLine(s, text), r)
  {
  }

  lemma LogStarts(s: Scan, text: Text)
    requires LogOk(s)
    ensures LogOk(NewLine(s, text))
  {
  }

  lemma FlushTracks(s: Scan, r: Reading)
    requires Tracks(s, r) && LogOk(s)
    ensures Tracks(s.Flush(), r)
  {
    hide LogOk, Scan.Flush;
    FlushReports(s);
  }

  /** Between two lines of a document that the scan goes on with. */
  ghost predicate Midway(s: Scan, source: seq<Text>, kinds: seq<Kind>, n: nat)
    requires n <= |source| == |kinds|
  {
    && !s.stopped && s.Blocks() && LogOk(s) && |s.doc| == n && s.texts == source[..n]
    && Tracks(s, Read(kinds, source, n))
  }

  lemma LineTracks(s: Scan, source: seq<Text>, kinds: seq<Kind>)
    requires Simple(s.g, source, kinds) && |s.doc| < |source| && Midway(s, source, kinds, |s.doc|)
    ensures var n := |s.doc| + 1;
            var t := s.ScanLine(source[n - 1]);
            t.g == s.g && (!t.stopped ==> Midway(t, source, kinds, n))
  {
    hide LogOk, Scan.ScanPhysical, Scan.Flush, Pieces, Next, Tracks, IsKind, EndStartsNothing, Scan.ScanLine;
    var n := |s.doc| + 1;
    var text, r := source[n - 1], Read(kinds, source, n - 1);
    assert LineIs(s.g, source, kinds, n);
    ScanLineIs(s, text);
    NewLineTracks(s, text, r);
    var begun := NewLine(s, text);
    var line := s.g.expandTabs(Pieces(n, text)[0]);
    var at: nat :| IsKind(s.g, line, at, kinds[n - 1], r.open > 0);
    PhysicalTracks(begun, r, line, at, kinds[n - 1]);
    SameNext(r, kinds[n - 1], begun.texts, source, n);
    var p := begun.ScanPhysical(line);
    assert Tracks(p, Read(kinds, source, n));
    LogStarts(s, text);
    LogFollows(begun, p);
    FlushTracks(p, Read(kinds, source, n));
    FlushReports(p);
  }


  lemma SameNext(r: Reading, kind: Kind, some: seq<Text>, source: seq<Text>, n: nat)
    requires 1 <= n <= |some| && some <= source && r.open <= |some|
    ensures Next(r, kind, some, n) == Next(r, kind, source, n)
  {
  }

  /** The session stands between two lines. */
  ghost predicate Going(ss: Session, source: seq<Text>, kinds: seq<Kind>, n: nat)
    requires n <= |source| == |kinds|
  {
    ss.frontmatter == None && ss.pushed == source[..n] && Midway(ss.scan, source, kinds, n)
  }

  lemma PushTracks(ss: Session, source: seq<Text>, kinds: seq<Kind>, n: nat)
    requires n < |source| && Simple(ss.scan.g, source, kinds) && Going(ss, source, kinds, n)
    ensures var next := ss.Push(source[n]);
            next.scan.g == ss.scan.g && (!next.scan.stopped ==> Going(next, source, kinds, n + 1))
  {
    hide LogOk, Tracks, LineIs, EndStartsNothing, Scan.ScanLine, Read;
    LineTracks(ss.scan, source, kinds);
    assert source[..n] + [source[n]] == source[..n + 1];
  }

  lemma {:induction false} PushAllTracks(ss: Session, source: seq<Text>, kinds: seq<Kind>, n: nat)
    requires n <= |source| && Simple(ss.scan.g, source, kinds) && Going(ss, source, kinds, n) && SessionOk(ss)
    ensures var r := PushAll(ss, source[n..]);
            !r.scan.stopped ==> Going(r, source, kinds, |source|)
    decreases |source| - n
  {
    assert ss.scan.Blocks() && (n == |source| || !ss.scan.stopped);
    hide Going, Settled, Simple, Session.Push;
    if n < |source| {
      var next := ss.Push(source[n]);
      PushTracks(ss, source, kinds, n);
      PushOk(ss, source[n]);
      assert source[n..][0] == source[n] && source[n..][1..] == source[n + 1..];
      if next.scan.stopped {
        assert PushAll(next, source[n + 1..]) == next;
      } else {
        PushAllTracks(next, source, kinds, n + 1);
      }
    }
  }

  lemma StartsGoing(g: Grammar, handlers: Handlers, source: seq<Text>, kinds: seq<Kind>)
    requires |source| == |kinds|
    ensures Going(Start(g, handlers), source, kinds, 0)
  {
    assert source[..0] == [];
  }

  lemma {:induction false} CloseAllKeepsOutline(s: Scan, last: nat)
    ensures s.CloseAll(last).outline == s.outline
    decreases |s.headings|
  {
    if !s.stopped && s.headings != [] {
      CloseAllKeepsOutline(PopLast(s, last), last);
      assert s.CloseAll(last) == PopLast(s, last).CloseAll(last);
    }
  }

  lemma FinishKeepsOutline(s: Scan, last: nat)
    requires s.Blocks() && LogOk(s)
    ensures s.Finish(last).outline == s.outline
  {
    hide Scan.CloseAll, Scan.Flush;
    var c := s.CloseLeaf();
    LogFollows(s, c);
    FlushReports(c);
    CloseAllKeepsOutline(c.Flush(), last);
  }

  lemma EndTracks(ss: Session, source: seq<Text>, kinds: seq<Kind>)
    requires |source| == |kinds| && SessionOk(ss) && (!ss.scan.stopped ==> Going(ss, source, kinds, |source|))
    ensures var s := ss.End().scan; !s.stopped ==> s.outline == Read(kinds, source, |source|).headings
  {
    if !ss.scan.stopped {
      hide Settled, LogOk;
      FinishKeepsOutline(ss.scan, |ss.pushed|);
    }
  }

  /**
   The headings a whole scan of such a document finds are those its lines say, with their depths, lines and
   titles. With `WholeScan` this determines every span and every heading line it reports.
   */
  lemma HeadingsOfDocument(g: Grammar, handlers: Handlers, source: seq<Text>, kinds: seq<Kind>)
    requires Simple(g, source, kinds)
    ensures var s := Scanned(g, handlers, source).scan;
            !s.stopped ==> s.outline == Read(kinds, source, |source|).headings
  {
    assert |source| == |kinds|;
    hide Simple, Going, SessionOk, Session.End;
    StartOk(g, handlers);
    StartsGoing(g, handlers, source, kinds);
    var start := Start(g, handlers);
    assert source[0..] == source;
    PushAllTracks(start, source, kinds, 0);
    EndTracks(PushAll(start, source), source, kinds);
  }
}
