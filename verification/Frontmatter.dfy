/** When the first lines of a document are frontmatter, and what a scan reports of them. */
module Frontmatter {
  import opened Text
  import opened MarkdownSyntax
  import opened Outline
  import opened ScannerModel
  import opened ScannerProofs
  import opened ScannerRuns
  import opened RootLines
  import opened ContainerLines

  // What has been reported stays reported.

  ghost predicate Extends(s: Scan, t: Scan) {
    s.lines <= t.lines && s.spans <= t.spans
  }

  lemma {:induction false} PiecesExtend(s: Scan, pieces: seq<Text>)
    requires s.Working() && Rooted(s)
    ensures var t := s.ScanPieces(pieces); Rooted(t) && Extends(s, t)
    decreases |pieces|
  {
    hide Scan.ScanPhysical, Rooted;
    if !s.stopped && pieces != [] {
      var line := s.g.expandTabs(pieces[0]);
      HeadingsOnlyAtTheRoot(s, line);
      PiecesExtend(s.ScanPhysical(line), pieces[1..]);
      assert s.ScanPieces(pieces) == s.ScanPhysical(line).ScanPieces(pieces[1..]);
    }
  }

  lemma {:induction false} FlushExtends(s: Scan)
    requires s.Blocks()
    ensures var t := s.Flush(); t == s.(lines := t.lines, stopped := t.stopped) && Extends(s, t)
    decreases |s.doc| - |s.lines|
  {
    if !(s.stopped || |s.lines| == |s.doc| || |s.lines| + 1 in s.leaf.Held()) {
      FlushExtends(s.Report());
      assert s.Flush() == s.Report().Flush();
    }
  }

  lemma LineExtends(s: Scan, text: Text)
    requires s.Blocks() && Rooted(s)
    ensures var t := s.ScanLine(text); Rooted(t) && Extends(s, t)
  {
    hide Scan.ScanPieces, Scan.Flush, Pieces;
    var n, pieces := NewLine(s, text), Pieces(|s.doc| + 1, text);
    PiecesExtend(n, pieces);
    FlushExtends(n.ScanPieces(pieces));
  }

  lemma {:induction false} CloseAllExtends(s: Scan, last: nat)
    ensures Extends(s, s.CloseAll(last))
    decreases |s.headings|
  {
    if !s.stopped && s.headings != [] {
      CloseAllExtends(PopLast(s, last), last);
      assert s.CloseAll(last) == PopLast(s, last).CloseAll(last);
    }
  }

  lemma FinishExtends(s: Scan, last: nat)
    requires s.Blocks()
    ensures Extends(s, s.Finish(last))
  {
    hide Scan.CloseAll, Scan.Flush;
    FlushExtends(s.CloseLeaf());
    CloseAllExtends(s.CloseLeaf().Flush(), last);
  }

  // Which lines are frontmatter.

  /** The first line opens frontmatter, and line `m` is the first after it that closes it. */
  ghost predicate Closes(g: Grammar, source: seq<Text>, m: nat) {
    && 2 <= m <= |source| && g.isDelimiter(WithoutByteOrderMark(source[0]), false) && g.isDelimiter(source[m - 1], true)
    && (forall k :: 1 <= k < m - 1 ==> !g.isDelimiter(source[k], true))
  }

  /** The session while it holds back the first `n` lines. */
  function Holding(g: Grammar, handlers: Handlers, source: seq<Text>, n: nat): Session
    requires n <= |source|
  {
    Session(Fresh(g, handlers), Some(source[..n]), source[..n], 0, true)
  }

  lemma HoldsOne(g: Grammar, handlers: Handlers, source: seq<Text>, n: nat)
    requires 1 <= n < |source|
    ensures Holding(g, handlers, source, n).Push(source[n])
         == if g.isDelimiter(source[n], true)
            then Session(CloseFrontmatter(Fresh(g, handlers), source[..n + 1]), None, source[..n + 1], 1, true)
            else Holding(g, handlers, source, n + 1)
  {
    assert source[..n] + [source[n]] == source[..n + 1];
  }

  lemma HoldsFirst(g: Grammar, handlers: Handlers, source: seq<Text>)
    requires source != [] && g.isDelimiter(WithoutByteOrderMark(source[0]), false)
    ensures Start(g, handlers).Push(source[0]) == Holding(g, handlers, source, 1)
  {
    var none: seq<Text> := [];
    assert source[..1] == [source[0]] && none + [source[0]] == [source[0]];
  }

  lemma PushAllOne(ss: Session, source: seq<Text>, n: nat)
    requires SessionOk(ss) && !ss.scan.stopped && n < |source|
    ensures SessionOk(ss.Push(source[n])) && PushAll(ss, source[n..]) == PushAll(ss.Push(source[n]), source[n + 1..])
  {
    hide SessionOk, Session.Push;
    PushOk(ss, source[n]);
    assert source[n..][0] == source[n] && source[n..][1..] == source[n + 1..];
  }

  /** Lines are held back up to the one that closes, or to the end. */
  lemma {:induction false} HoldsUntil(g: Grammar, handlers: Handlers, source: seq<Text>, n: nat, m: nat)
    requires 1 <= n < m && Closes(g, source, m) && SessionOk(Holding(g, handlers, source, n))
    ensures var closed := Session(CloseFrontmatter(Fresh(g, handlers), source[..m]), None, source[..m], 1, true);
            SessionOk(closed) && PushAll(Holding(g, handlers, source, n), source[n..]) == PushAll(closed, source[m..])
    decreases m - n
  {
    hide SessionOk, Session.Push;
    PushAllOne(Holding(g, handlers, source, n), source, n);
    HoldsOne(g, handlers, source, n);
    if n + 1 < m { HoldsUntil(g, handlers, source, n + 1, m); }
  }

  lemma {:induction false} HoldsAll(g: Grammar, handlers: Handlers, source: seq<Text>, n: nat)
    requires 1 <= n <= |source| && SessionOk(Holding(g, handlers, source, n))
    requires forall k :: n <= k < |source| ==> !g.isDelimiter(source[k], true)
    ensures PushAll(Holding(g, handlers, source, n), source[n..]) == Holding(g, handlers, source, |source|)
    decreases |source| - n
  {
    hide SessionOk, Session.Push;
    if n < |source| {
      PushAllOne(Holding(g, handlers, source, n), source, n);
      HoldsOne(g, handlers, source, n);
      HoldsAll(g, handlers, source, n + 1);
    }
  }

  /** A session that scans what is pushed next. */
  predicate Scans(ss: Session, next: Text) {
    !ss.scan.stopped && ss.frontmatter == None
    && (ss.pushed != [] || !ss.scan.g.isDelimiter(WithoutByteOrderMark(next), false))
  }

  lemma ScansOne(ss: Session, line: Text)
    requires SessionOk(ss) && Scans(ss, line)
    ensures ss.scan.Blocks()
    ensures var r := ss.Push(line);
            r.scan == ss.scan.ScanLine(line) && r.frontmatter == None && r.skip == ss.skip
            && r.pushed == ss.pushed + [line]
  {
    hide Scan.ScanLine;
  }

  /** Lines pushed past the frontmatter, or without any, are scanned. */
  lemma {:induction false} PushAllScans(ss: Session, rest: seq<Text>)
    requires SessionOk(ss) && ss.frontmatter == None && ss.scan.Blocks()
    requires rest != [] && !ss.scan.stopped ==> Scans(ss, rest[0])
    ensures var r := PushAll(ss, rest);
            && r.scan == ss.scan.ScanLines(rest) && r.frontmatter == None && r.skip == ss.skip
            && (!r.scan.stopped ==> r.pushed == ss.pushed + rest)
    decreases |rest|
  {
    hide SessionOk, Scan.ScanLine, Session.Push;
    if !ss.scan.stopped && rest != [] {
      ScansOne(ss, rest[0]);
      var next := ss.Push(rest[0]);
      PushOk(ss, rest[0]);
      PushAllScans(next, rest[1..]);
      assert ss.pushed + [rest[0]] + rest[1..] == ss.pushed + rest;
      assert ss.scan.ScanLines(rest) == next.scan.ScanLines(rest[1..]);
    }
  }

  lemma {:induction false} ScanLinesExtend(s: Scan, rest: seq<Text>)
    requires s.Blocks() && Rooted(s)
    ensures var t := s.ScanLines(rest); t.Blocks() && Extends(s, t)
    decreases |rest|
  {
    hide Scan.ScanLine, Rooted;
    if !s.stopped && rest != [] {
      LineExtends(s, rest[0]);
      ScanLinesExtend(s.ScanLine(rest[0]), rest[1..]);
      assert s.ScanLines(rest) == s.ScanLine(rest[0]).ScanLines(rest[1..]);
    }
  }

  /** The lines reported so far are frontmatter. */
  ghost predicate AreFrontmatter(s: Scan, source: seq<Text>) {
    && |s.lines| <= |source|
    && (forall k :: 0 <= k < |s.lines| ==> s.lines[k] == LineEvent(k + 1, source[k], Mark(FrontmatterLine, false)))
  }

  lemma {:induction false} ReportsFrontmatter(s: Scan, rest: seq<Text>, held: seq<Text>)
    requires AreFrontmatter(s, held) && |s.lines| + |rest| == |held| && held[|s.lines|..] == rest && Rooted(s)
    ensures var t := s.ReportFrontmatter(rest);
            && AreFrontmatter(t, held) && t.spans == s.spans && Rooted(t) && t.containers == s.containers
            && (!t.stopped ==> |t.lines| == |held|)
    decreases |rest|
  {
    if !s.stopped && rest != [] {
      var lines := s.lines + [LineEvent(|s.lines| + 1, rest[0], Mark(FrontmatterLine, false))];
      var t := s.(texts := s.texts + [rest[0]], doc := s.doc + [Mark(FrontmatterLine, false)], lines := lines,
                  stopped := !s.handlers.onLine(lines, s.spans));
      ReportsFrontmatter(t, rest[1..], held);
      assert s.ReportFrontmatter(rest) == t.ReportFrontmatter(rest[1..]);
    }
  }

  /** What a scan of `source` reports when its first `m` lines are frontmatter. */
  ghost predicate StartsWithFrontmatter(s: Scan, source: seq<Text>, m: nat)
    requires 1 <= m <= |source|
  {
    && (forall k :: 0 <= k < |s.lines| && k < m ==>
          s.lines[k] == LineEvent(k + 1, source[k], Mark(FrontmatterLine, false)))
    && (s.spans != [] ==> s.spans[0] == Span(true, Heading(0, 1, m, StripTerminator(source[0])), m))
    && (!s.stopped ==> |s.lines| >= m && s.spans != [])
  }

  lemma CloseReports(g: Grammar, handlers: Handlers, source: seq<Text>, m: nat)
    requires 1 <= m <= |source|
    ensures var t := CloseFrontmatter(Fresh(g, handlers), source[..m]);
            StartsWithFrontmatter(t, source, m) && Rooted(t) && |t.lines| <= m && |t.spans| <= 1
            && (!t.stopped ==> |t.lines| == m && |t.spans| == 1)
  {
    hide StripTerminator;
    ReportsFrontmatter(Fresh(g, handlers), source[..m], source[..m]);
  }

  lemma StillStarts(s: Scan, t: Scan, source: seq<Text>, m: nat)
    requires 1 <= m <= |source| && StartsWithFrontmatter(s, source, m) && !s.stopped && Extends(s, t)
    ensures StartsWithFrontmatter(t, source, m)
  {
  }

  lemma EndExtends(ss: Session)
    requires ss.scan.Blocks() && ss.frontmatter == None
    ensures Extends(ss.scan, ss.End().scan) && ss.End().skip == ss.skip
    ensures ss.scan.stopped ==> ss.End() == ss
  {
    hide Scan.Finish;
    FinishExtends(ss.scan, |ss.pushed|);
  }

  /** What is pushed and scanned after the frontmatter leaves its reports as they are. */
  lemma RestKeepsFrontmatter(closed: Session, source: seq<Text>, m: nat)
    requires 1 <= m <= |source| && SessionOk(closed) && closed.frontmatter == None && closed.pushed == source[..m]
    requires StartsWithFrontmatter(closed.scan, source, m) && closed.scan.Blocks() && Rooted(closed.scan)
    ensures var e := PushAll(closed, source[m..]).End();
            e.skip == closed.skip && StartsWithFrontmatter(e.scan, source, m)
  {
    hide SessionOk, Session.Push, Scan.ScanLines, Session.End;
    var r := PushAll(closed, source[m..]);
    PushAllScans(closed, source[m..]);
    ScanLinesExtend(closed.scan, source[m..]);
    EndExtends(r);
    if closed.scan.stopped {
      assert r == closed;
    } else {
      ExtendsOn(closed.scan, r.scan, r.End().scan);
      StillStarts(closed.scan, r.End().scan, source, m);
    }
  }

  lemma ExtendsOn(s: Scan, t: Scan, u: Scan)
    requires Extends(s, t) && Extends(t, u)
    ensures Extends(s, u)
  {
  }

  /**
   A document whose first line opens frontmatter that line `m` closes: its first `m` lines are reported as
   frontmatter and one span covers them, before any other.
   */
  lemma FrontmatterIs(g: Grammar, handlers: Handlers, source: seq<Text>, m: nat)
    requires Closes(g, source, m)
    ensures var e := Scanned(g, handlers, source); e.skip == 1 && StartsWithFrontmatter(e.scan, source, m)
  {
    hide SessionOk, Session.Push, StartsWithFrontmatter, Session.End;
    StartOk(g, handlers);
    assert source[0..] == source;
    Begun(g, handlers, source);
    PushAllOne(Start(g, handlers), source, 0);
    HoldsFirst(g, handlers, source);
    HoldsUntil(g, handlers, source, 1, m);
    var closed := Session(CloseFrontmatter(Fresh(g, handlers), source[..m]), None, source[..m], 1, true);
    CloseReports(g, handlers, source, m);
    SessionBlocks(closed);
    RestKeepsFrontmatter(closed, source, m);
  }

  lemma Begun(g: Grammar, handlers: Handlers, source: seq<Text>)
    ensures !Start(g, handlers).scan.stopped
  {
  }

  lemma SessionBlocks(ss: Session)
    requires SessionOk(ss)
    ensures ss.scan.Blocks()
  {
  }

  /** Without a line that closes it nothing is frontmatter: every line is scanned as Markdown. */
  lemma NoFrontmatter(g: Grammar, handlers: Handlers, source: seq<Text>)
    requires forall m :: !Closes(g, source, m)
    ensures var e := Scanned(g, handlers, source);
            var s := Fresh(g, handlers).ScanLines(source);
            && s.Blocks() && e.skip == 0
            && e.scan.lines == s.Finish(|source|).lines && e.scan.spans == s.Finish(|source|).spans
  {
    hide SessionOk, Session.Push, Scan.ScanLines, Scan.Finish, Closes;
    StartOk(g, handlers);
    SessionBlocks(Start(g, handlers));
    if source == [] || !g.isDelimiter(WithoutByteOrderMark(source[0]), false) {
      ScannedAtOnce(g, handlers, source);
    } else {
      ScannedAtEnd(g, handlers, source);
    }
  }

  lemma ScannedAtOnce(g: Grammar, handlers: Handlers, source: seq<Text>)
    requires source == [] || !g.isDelimiter(WithoutByteOrderMark(source[0]), false)
    requires SessionOk(Start(g, handlers)) && Fresh(g, handlers).Blocks()
    ensures var e := PushAll(Start(g, handlers), source).End();
            var s := Fresh(g, handlers).ScanLines(source);
            && e.skip == 0 && e.scan.lines == s.Finish(|source|).lines && e.scan.spans == s.Finish(|source|).spans
  {
    hide SessionOk, Session.Push, Scan.ScanLines, Scan.Finish;
    PushAllScans(Start(g, handlers), source);
    var none: seq<Text> := [];
    assert none + source == source;
    var s := Fresh(g, handlers).ScanLines(source);
    if s.stopped { StoppedFinish(s, |source|); }
  }

  lemma ScannedAtEnd(g: Grammar, handlers: Handlers, source: seq<Text>)
    requires source != [] && g.isDelimiter(WithoutByteOrderMark(source[0]), false)
    requires SessionOk(Start(g, handlers)) && Fresh(g, handlers).Blocks() && forall m :: !Closes(g, source, m)
    ensures PushAll(Start(g, handlers), source).End()
         == Holding(g, handlers, source, |source|).(
              frontmatter := None, scan := Fresh(g, handlers).ScanLines(source).Finish(|source|),
              plain := Holding(g, handlers, source, |source|).ReplayedPlain())
  {
    hide SessionOk, Session.Push, Scan.ScanLines, Scan.Finish, Closes;
    Begun(g, handlers, source);
    assert source[0..] == source;
    PushAllOne(Start(g, handlers), source, 0);
    HoldsFirst(g, handlers, source);
    NothingCloses(g, source, |source|);
    HoldsAll(g, handlers, source, 1);
    assert source[..|source|] == source;
  }

  lemma {:induction false} NothingCloses(g: Grammar, source: seq<Text>, n: nat)
    requires 1 <= n <= |source| && g.isDelimiter(WithoutByteOrderMark(source[0]), false)
    requires forall m :: !Closes(g, source, m)
    ensures forall k :: 1 <= k < n ==> !g.isDelimiter(source[k], true)
  {
    if n > 1 {
      NothingCloses(g, source, n - 1);
      assert !Closes(g, source, n);
    }
  }

  lemma StoppedFinish(s: Scan, last: nat)
    requires s.Blocks() && s.stopped
    ensures s.Finish(last).lines == s.lines && s.Finish(last).spans == s.spans
  {
  }
}
