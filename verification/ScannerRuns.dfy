/**
 Whole scans: every line is reported once, in order, with its text; every root heading gets one span; and
 without lone CRs a line is a heading line exactly when a root heading covers it.
 */
module ScannerRuns {
  import opened Text
  import opened MarkdownSyntax
  import opened Outline
  import opened ScannerModel
  import opened ScannerProofs

  /** The reported lines are the first scanned lines, as they are now known. */
  ghost predicate LogOk(s: Scan) {
    && |s.lines| <= |s.doc| == |s.texts|
    && (forall k :: 0 <= k < |s.lines| ==> s.lines[k] == LineEvent(k + 1, s.texts[k], s.doc[k]))
  }

  /** The state between two lines. */
  ghost predicate Settled(s: Scan, skip: nat, plain: bool) {
    && s.Blocks() && LogOk(s)
    && (!s.stopped ==>
          && Sound(s, skip, plain)
          && (plain && s.leaf.Held() != [] ==> s.leaf.Held()[|s.leaf.Held()| - 1] == |s.doc|))
  }

  lemma LogFollows(s: Scan, t: Scan)
    requires LogOk(s) && s.SameLog(t)
    ensures LogOk(t)
  {
    forall k | 0 <= k < |t.lines| ensures t.doc[k] == s.doc[k] {
      assert t.doc[..|t.lines|][k] == s.doc[..|t.lines|][k];
    }
  }

  lemma {:induction false} ScanPiecesPlaced(s: Scan, pieces: seq<Text>, skip: nat, plain: bool)
    requires Ready(s, skip, plain) && pieces != []
    ensures Placed(s.ScanPieces(pieces), skip, plain && |pieces| == 1)
    decreases |pieces|
  {
    var line := s.g.expandTabs(pieces[0]);
    ScanPhysicalPlaced(s, line, skip, plain);
    var t := s.ScanPhysical(line);
    assert s.ScanPieces(pieces) == t.ScanPieces(pieces[1..]);
    if !t.stopped && |pieces| > 1 {
      ScanPiecesPlaced(t, pieces[1..], skip, false);
    }
  }

  /** Flushing changes nothing but the reports, and reports everything up to the first line that still waits. */
  lemma {:induction false} FlushReports(s: Scan)
    requires s.Blocks() && LogOk(s)
    ensures var t := s.Flush();
            && t == s.(lines := t.lines, stopped := t.stopped) && LogOk(t)
            && (!t.stopped ==> |t.lines| == |t.doc| || |t.lines| + 1 in s.leaf.Held())
            && (!t.stopped && s.leaf.Held() == [] ==> |t.lines| == |t.doc|)
    decreases |s.doc| - |s.lines|
  {
    if s.stopped || |s.lines| == |s.doc| || |s.lines| + 1 in s.leaf.Held() {
    } else {
      FlushReports(s.Report());
      assert s.Flush() == s.Report().Flush();
    }
  }

  function NewLine(s: Scan, text: Text): Scan {
    s.(texts := s.texts + [text], doc := s.doc + [Mark(Blank, false)])
  }

  lemma NewLineReady(s: Scan, text: Text, skip: nat, plain: bool)
    requires Settled(s, skip, plain) && !s.stopped
    ensures Ready(NewLine(s, text), skip, plain) && LogOk(NewLine(s, text))
  {
    if plain {
      NoOwnerAfter(s.outline, |s.doc| + 1, |s.outline|);
    }
  }

  lemma ScanLineSettled(s: Scan, text: Text, skip: nat, plain: bool)
    requires Settled(s, skip, plain) && !s.stopped
    ensures Settled(s.ScanLine(text), skip, plain && Plain(|s.doc| + 1, text))
    ensures s.ScanLine(text).texts == s.texts + [text]
  {
    hide Scan.ScanPieces, Scan.Flush, LogOk, Ledger.Accounts, OnStack, Reports, InOrder, Owned, SplitAtCr;
    NewLineReady(s, text, skip, plain);
    var n := NewLine(s, text);
    var pieces := Pieces(|s.doc| + 1, text);
    ScanPiecesPlaced(n, pieces, skip, plain);
    var t := n.ScanPieces(pieces);
    LogFollows(n, t);
    FlushReports(t);
    assert s.ScanLine(text) == if t.stopped then t else t.Flush();
  }

  /** Scanning lines one after the other. */
  lemma {:induction false} ScanLinesSettled(s: Scan, rest: seq<Text>, skip: nat, plain: bool)
    requires Settled(s, skip, plain)
    ensures var t := s.ScanLines(rest);
            && Settled(t, skip, plain && AllPlain(rest, |s.texts| + 1))
            && t.texts <= s.texts + rest && (!t.stopped ==> t.texts == s.texts + rest)
    decreases |rest|
  {
    hide Scan.ScanLine, LogOk, Sound, Plain;
    if s.stopped || rest == [] {
      assert s.ScanLines(rest) == s;
    } else {
      ScanLineSettled(s, rest[0], skip, plain);
      ScanRest(s.ScanLine(rest[0]), s.texts, rest, skip, plain && Plain(|s.texts| + 1, rest[0]));
      assert s.ScanLines(rest) == s.ScanLine(rest[0]).ScanLines(rest[1..]);
    }
  }

  lemma {:induction false} ScanRest(t: Scan, before: seq<Text>, rest: seq<Text>, skip: nat, plain: bool)
    requires rest != [] && Settled(t, skip, plain) && t.texts == before + [rest[0]]
    ensures var u := t.ScanLines(rest[1..]);
            && Settled(u, skip, plain && AllPlain(rest[1..], |before| + 2))
            && u.texts <= before + rest && (!u.stopped ==> u.texts == before + rest)
    decreases |rest|, 0
  {
    hide *;
    ScanLinesSettled(t, rest[1..], skip, plain);
    assert before + [rest[0]] + rest[1..] == before + rest;
  }

  // Frontmatter.

  /** Only frontmatter lines so far, all of them reported. */
  ghost predicate OnlyFrontmatter(s: Scan) {
    && LogOk(s) && |s.lines| == |s.doc|
    && s == Fresh(s.g, s.handlers).(texts := s.texts, doc := s.doc, lines := s.lines, stopped := s.stopped)
    && (forall k :: 0 <= k < |s.doc| ==> s.doc[k].Own() == None)
  }

  lemma {:induction false} ReportFrontmatterKeeps(s: Scan, rest: seq<Text>, pushed: seq<Text>)
    requires OnlyFrontmatter(s) && s.texts + rest == pushed
    ensures var t := s.ReportFrontmatter(rest);
            OnlyFrontmatter(t) && t.texts <= pushed && (!t.stopped ==> t.texts == pushed)
    decreases |rest|
  {
    if s.stopped || rest == [] {
    } else {
      var lines := s.lines + [LineEvent(|s.lines| + 1, rest[0], Mark(FrontmatterLine, false))];
      var t := s.(texts := s.texts + [rest[0]], doc := s.doc + [Mark(FrontmatterLine, false)], lines := lines,
                  stopped := !s.handlers.onLine(lines, s.spans));
      assert t.texts + rest[1..] == pushed;
      ReportFrontmatterKeeps(t, rest[1..], pushed);
      assert s.ReportFrontmatter(rest) == t.ReportFrontmatter(rest[1..]);
    }
  }

  lemma CloseFrontmatterSettled(g: Grammar, handlers: Handlers, held: seq<Text>, plain: bool)
    requires held != []
    ensures var t := CloseFrontmatter(Fresh(g, handlers), held);
            Settled(t, 1, plain) && t.texts <= held && (!t.stopped ==> t.texts == held)
  {
    hide Settled, OnlyFrontmatter, Scan.ReportFrontmatter;
    NothingRead(g, handlers);
    ReportFrontmatterKeeps(Fresh(g, handlers), held, held);
    FrontmatterSettled(Fresh(g, handlers).ReportFrontmatter(held), held, plain);
  }

  lemma NothingRead(g: Grammar, handlers: Handlers)
    ensures OnlyFrontmatter(Fresh(g, handlers)) && forall t: seq<Text> :: Fresh(g, handlers).texts + t == t
  {
  }

  /** Reported frontmatter is settled: stopped as it is, or with the span of the whole block. */
  lemma FrontmatterSettled(s: Scan, held: seq<Text>, plain: bool)
    requires OnlyFrontmatter(s) && held != []
    ensures s.stopped ==> Settled(s, 1, plain)
    ensures !s.stopped ==> Settled(s.EmitFrontmatterSpan(held), 1, plain)
  {
  }

  // The run.

  ghost predicate SessionOk(ss: Session) {
    && Settled(ss.scan, ss.skip, ss.plain)
    && ss.scan.texts <= ss.pushed
    && (!ss.scan.stopped ==>
          match ss.frontmatter
          case Some(held) => held == ss.pushed && held != [] && ss.scan == Fresh(ss.scan.g, ss.scan.handlers)
            && ss.skip == 0
          case None =>
            && ss.scan.texts == ss.pushed
            && (ss.pushed == [] ==> ss.scan == Fresh(ss.scan.g, ss.scan.handlers) && ss.skip == 0))
  }

  function Start(g: Grammar, handlers: Handlers): Session {
    Session(Fresh(g, handlers), None, [], 0, true)
  }

  lemma StartOk(g: Grammar, handlers: Handlers)
    ensures SessionOk(Start(g, handlers))
  {
  }

  lemma PushOk(ss: Session, line: Text)
    requires SessionOk(ss)
    ensures SessionOk(ss.Push(line))
    ensures ss.Push(line).pushed == if ss.scan.stopped then ss.pushed else ss.pushed + [line]
  {
    if ss.scan.stopped {
      assert ss.Push(line) == ss;
    } else if ss.frontmatter.Some? {
      PushHeld(ss, line);
    } else {
      PushScanned(ss, line);
    }
  }

  lemma PushHeld(ss: Session, line: Text)
    requires SessionOk(ss) && !ss.scan.stopped && ss.frontmatter.Some?
    ensures SessionOk(ss.Push(line)) && ss.Push(line).pushed == ss.pushed + [line]
  {
    var held := ss.pushed + [line];
    if ss.scan.g.isDelimiter(line, true) {
      CloseFrontmatterSettled(ss.scan.g, ss.scan.handlers, held, ss.plain);
      assert ss.Push(line) == Session(CloseFrontmatter(ss.scan, held), None, held, 1, ss.plain);
    } else {
      assert ss.Push(line) == Session(ss.scan, Some(held), held, 0, ss.plain);
    }
  }

  lemma PushScanned(ss: Session, line: Text)
    requires SessionOk(ss) && !ss.scan.stopped && ss.frontmatter.None?
    ensures SessionOk(ss.Push(line)) && ss.Push(line).pushed == ss.pushed + [line]
  {
    var pushed := ss.pushed + [line];
    if ss.pushed == [] && ss.scan.g.isDelimiter(WithoutByteOrderMark(line), false) {
      assert ss.Push(line) == Session(ss.scan, Some([line]), pushed, ss.skip, ss.plain);
    } else {
      ScanLineSettled(ss.scan, line, ss.skip, ss.plain);
      assert ss.Push(line)
        == Session(ss.scan.ScanLine(line), None, pushed, ss.skip, ss.plain && Plain(|ss.pushed| + 1, line));
    }
  }

  // The end of the run.

  /** The ledger and the spans while the headings still open are reported as ending on line `last`. */
  ghost predicate Ending(s: Scan, skip: nat, last: nat) {
    && s.ledger.Indexes(|s.outline|)
    && (forall j, k :: 0 <= j < k < |s.ledger.stack| ==> s.ledger.stack[j] < s.ledger.stack[k])
    && (forall j, k :: 0 <= j < k < |s.ledger.closed| ==> s.ledger.closed[j] != s.ledger.closed[k])
    && (forall j, k :: 0 <= j < |s.ledger.stack| && 0 <= k < |s.ledger.closed| ==>
          s.ledger.stack[j] != s.ledger.closed[k])
    && (forall k :: 0 <= k < |s.ledger.stack| ==> Closer(s.outline, s.ledger.stack[k]) == |s.outline|)
    && OnStack(s.outline, s.ledger.stack, s.headings)
    && SpansOf(s.outline, s.ledger.closed, s.spans, skip, last)
  }

  /** The spans after the first `skip` are the sections of the listed headings. */
  ghost predicate SpansOf(hs: seq<Heading>, order: seq<nat>, spans: seq<Span>, skip: nat, last: nat) {
    && |spans| == skip + |order|
    && (forall k :: 0 <= k < |order| ==>
          order[k] < |hs| && spans[skip + k] == Span(false, hs[order[k]], SectionEnd(hs, order[k], last)))
  }

  /** `order` lists each of the `n` headings exactly once. */
  ghost predicate EachOnce(order: seq<nat>, n: nat) {
    && |order| == n
    && (forall k :: 0 <= k < |order| ==> order[k] < n)
    && (forall j, k :: 0 <= j < k < |order| ==> order[j] != order[k])
  }

  lemma StartEnding(s: Scan, skip: nat, last: nat)
    requires SpansOk(s, skip)
    ensures Ending(s, skip, last)
  {
  }

  function PopLast(s: Scan, last: nat): Scan
    requires s.headings != []
  {
    s.(headings := s.headings[..|s.headings| - 1], ledger := s.ledger.Pop())
    .EmitHeadingSpan(s.headings[|s.headings| - 1], last)
  }

  lemma PopLastEnding(s: Scan, skip: nat, last: nat)
    requires Ending(s, skip, last) && s.headings != []
    ensures Ending(PopLast(s, last), skip, last)
  {
    hide Closer;
    var i, p := s.ledger.stack[|s.ledger.stack| - 1], s.ledger.Pop();
    assert forall k :: 0 <= k < |p.stack| ==> p.stack[k] == s.ledger.stack[k] && p.stack[k] < i;
    assert forall k :: 0 <= k < |p.closed| ==> p.closed[k] == if k < |s.ledger.closed| then s.ledger.closed[k] else i;
  }

  lemma {:induction false} CloseAllEnds(s: Scan, skip: nat, last: nat)
    requires Ending(s, skip, last)
    ensures var t := s.CloseAll(last);
            && t == s.(headings := t.headings, ledger := t.ledger, spans := t.spans, stopped := t.stopped)
            && (!t.stopped ==>
              SpansOf(t.outline, t.ledger.closed, t.spans, skip, last) && EachOnce(t.ledger.closed, |t.outline|))
    decreases |s.headings|
  {
    if s.stopped || s.headings == [] {
      assert s.CloseAll(last) == s;
    } else {
      PopLastEnding(s, skip, last);
      CloseAllEnds(PopLast(s, last), skip, last);
      assert s.CloseAll(last) == PopLast(s, last).CloseAll(last);
    }
  }

  /** What a finished scan of `source` has reported. */
  ghost predicate Complete(s: Scan, source: seq<Text>, skip: nat, plain: bool) {
    && LogOk(s) && s.texts == source && |s.lines| == |source|
    && SpansOf(s.outline, s.ledger.closed, s.spans, skip, |source|) && EachOnce(s.ledger.closed, |s.outline|)
    && (plain ==> InOrder(s.outline, |source|) && Owned(s.doc, s.outline))
  }

  lemma FinishCompletes(s: Scan, source: seq<Text>, skip: nat, plain: bool)
    requires Settled(s, skip, plain) && (!s.stopped ==> s.texts == source)
    ensures var t := s.Finish(|source|);
            LogOk(t) && t.texts == s.texts && (!t.stopped ==> Complete(t, source, skip, plain))
  {
    var c := s.CloseLeaf();
    LogFollows(s, c);
    FlushReports(c);
    var f := c.Flush();
    if f.stopped {
      assert f.CloseAll(|source|) == f;
    } else {
      CloseLeafSound(s, skip, plain);
      StartEnding(f, skip, |source|);
      CloseAllEnds(f, skip, |source|);
    }
  }

  /**
   Whatever the handlers do, what has been reported is a prefix of the pushed lines; a scan they never stop is
   complete.
   */
  lemma EndCompletes(ss: Session)
    requires SessionOk(ss)
    ensures var e := ss.End();
            && LogOk(e.scan) && e.scan.texts <= ss.pushed
            && (!e.scan.stopped ==> Complete(e.scan, ss.pushed, e.skip, e.plain) && !ss.scan.stopped)
            && (ss.plain && AllPlain(ss.pushed, 1) && !ss.scan.stopped ==> e.plain)
  {
    if ss.scan.stopped {
      assert ss.End() == ss;
    } else {
      ReplayedSettled(ss);
      FinishCompletes(ss.Replayed(), ss.pushed, ss.skip, ss.ReplayedPlain());
    }
  }

  lemma ReplayedSettled(ss: Session)
    requires SessionOk(ss) && !ss.scan.stopped
    ensures var s := ss.Replayed();
            Settled(s, ss.skip, ss.ReplayedPlain()) && s.texts <= ss.pushed && (!s.stopped ==> s.texts == ss.pushed)
  {
    hide LogOk, Sound, Scan.ScanLine, Plain;
    if ss.frontmatter.Some? {
      ScanLinesSettled(ss.scan, ss.frontmatter.value, ss.skip, ss.plain);
      assert ss.scan.texts + ss.frontmatter.value == ss.pushed;
    }
  }

  ghost function PushAll(ss: Session, source: seq<Text>): (r: Session)
    requires SessionOk(ss)
    ensures SessionOk(r)
    decreases |source|
  {
    if ss.scan.stopped || source == [] then ss else PushOk(ss, source[0]); PushAll(ss.Push(source[0]), source[1..])
  }

  /** The session after scanning a whole document. */
  ghost function Scanned(g: Grammar, handlers: Handlers, source: seq<Text>): Session {
    StartOk(g, handlers);
    PushAll(Start(g, handlers), source).End()
  }

  lemma {:induction false} PushAllPushes(ss: Session, source: seq<Text>)
    requires SessionOk(ss)
    ensures Pushes(ss, source, PushAll(ss, source))
    decreases |source|, 1
  {
    if !ss.scan.stopped && source != [] {
      PushOk(ss, source[0]);
      PushRest(ss, ss.Push(source[0]), source);
    }
  }

  ghost predicate Pushes(ss: Session, source: seq<Text>, r: Session) {
    && r.pushed <= ss.pushed + source && (!r.scan.stopped ==> r.pushed == ss.pushed + source)
    && (ss.plain && AllPlain(source, |ss.pushed| + 1) ==> r.plain)
  }

  lemma {:induction false} PushRest(ss: Session, next: Session, source: seq<Text>)
    requires source != [] && SessionOk(next) && next.pushed == ss.pushed + [source[0]]
    requires ss.plain && Plain(|ss.pushed| + 1, source[0]) ==> next.plain
    ensures Pushes(ss, source, PushAll(next, source[1..]))
    decreases |source|, 0
  {
    hide SessionOk, Plain, PushAll;
    PushAllPushes(next, source[1..]);
    assert ss.pushed + [source[0]] + source[1..] == ss.pushed + source;
  }

  /** What a handler-independent reader of a scan of `source` can rely on. */
  ghost predicate Faithful(e: Session, source: seq<Text>) {
    var s := e.scan;
    && |s.lines| <= |source|
    && (forall k :: 0 <= k < |s.lines| ==> s.lines[k].line == k + 1 && s.lines[k].text == source[k])
    && (!s.stopped ==>
          && |s.lines| == |source|
          && SpansOf(s.outline, s.ledger.closed, s.spans, e.skip, |source|)
          && EachOnce(s.ledger.closed, |s.outline|)
          && (AllPlain(source, 1) ==>
                && InOrder(s.outline, |source|)
                && (forall k :: 0 <= k < |s.lines| ==> s.lines[k].mark.Own() == Owner(s.outline, k + 1, |s.outline|))))
  }

  lemma ReadOff(e: Session, pushed: seq<Text>, source: seq<Text>)
    requires LogOk(e.scan) && e.scan.texts <= pushed <= source
    requires !e.scan.stopped ==> Complete(e.scan, pushed, e.skip, e.plain) && pushed == source
    requires !e.scan.stopped && AllPlain(source, 1) ==> e.plain
    ensures Faithful(e, source)
  {
  }

  /**
   The scan of a whole document. Whatever the handlers decide, the reported lines are the first lines of
   the document, in order and with their exact text. A scan they never stop reports every line and one
   span per root heading, ending where its section ends. Without lone CRs the headings occupy disjoint
   line ranges in order, and a line is reported as a heading line of exactly the heading that covers it.
   */
  lemma WholeScan(g: Grammar, handlers: Handlers, source: seq<Text>)
    ensures Faithful(Scanned(g, handlers, source), source)
  {
    StartOk(g, handlers);
    PushAllPushes(Start(g, handlers), source);
    ReadEnd(PushAll(Start(g, handlers), source), source);
  }

  lemma ReadEnd(r: Session, source: seq<Text>)
    requires SessionOk(r) && r.pushed <= source && (!r.scan.stopped ==> r.pushed == source)
    requires AllPlain(source, 1) ==> r.plain
    ensures Faithful(r.End(), source)
  {
    EndCompletes(r);
    ReadOff(r.End(), r.pushed, source);
  }
}
