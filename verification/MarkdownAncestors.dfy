/**
 The ancestor tracker: fed the reported lines in order, it keeps the headings whose sections cover the
 current line, and records that chain for the lines a caller asked about.
 */
module MarkdownAncestors {
  import opened Text
  import opened Outline
  import opened ScannerModel
  import opened ScannerRuns

  // The reference: the headings whose section covers a line.

  /** Those of the first `m` headings whose section covers `line`, in order. */
  function Covering(hs: seq<Heading>, last: nat, line: nat, m: nat): seq<Heading>
    requires m <= |hs|
  {
    if m == 0 then []
    else if hs[m - 1].line <= line <= SectionEnd(hs, m - 1, last) then Covering(hs, last, line, m - 1) + [hs[m - 1]]
    else Covering(hs, last, line, m - 1)
  }

  /** Those of the first `m` headings that none of the first `n` closes. */
  function Unclosed(hs: seq<Heading>, n: nat, m: nat): seq<Heading>
    requires m <= |hs|
  {
    if m == 0 then []
    else if n <= Closer(hs, m - 1) then Unclosed(hs, n, m - 1) + [hs[m - 1]]
    else Unclosed(hs, n, m - 1)
  }

  // The tracker's stack.

  function PopTo(stack: seq<Heading>, depth: nat): seq<Heading> {
    if stack == [] || stack[|stack| - 1].depth < depth then stack else PopTo(stack[..|stack| - 1], depth)
  }

  function Tracked(stack: seq<Heading>, e: LineEvent): seq<Heading> {
    if e.mark.Own().Some? && e.mark.Own().value.line == e.line
    then PopTo(stack, e.mark.Own().value.depth) + [e.mark.Own().value]
    else stack
  }

  function TrackAll(lines: seq<LineEvent>, k: nat): seq<Heading>
    requires k <= |lines|
  {
    if k == 0 then [] else Tracked(TrackAll(lines, k - 1), lines[k - 1])
  }

  class MarkdownAncestorTracker {
    const requestedLines: set<nat>
    var stack: seq<Heading>
    var chains: map<nat, seq<Heading>>
    /** The lines accepted so far. */
    ghost var accepted: seq<LineEvent>

    ghost predicate Valid()
      reads this
    {
      && stack == TrackAll(accepted, |accepted|)
      && (forall line :: line in chains ==> line in requestedLines)
      && (forall k :: 0 <= k < |accepted| ==> accepted[k].line == k + 1)
      && (forall line :: line in requestedLines && 1 <= line <= |accepted| ==>
            line in chains && chains[line] == TrackAll(accepted, line))
    }

    constructor (requestedLines: set<nat>)
      ensures Valid() && this.requestedLines == requestedLines && accepted == []
    {
      this.requestedLines := requestedLines;
      stack, chains, accepted := [], map[], [];
    }

    method Open(heading: Heading)
      requires heading.depth >= 1
      modifies this`stack
      ensures stack == PopTo(old(stack), heading.depth) + [heading]
    {
      while |stack| > 0 && stack[|stack| - 1].depth >= heading.depth
        invariant PopTo(stack, heading.depth) == PopTo(old(stack), heading.depth)
        decreases |stack|
      {
        stack := stack[..|stack| - 1];
      }
      stack := stack + [heading];
    }

    method Accept(line: LineEvent)
      requires Valid() && line.line == |accepted| + 1
      requires line.mark.Own().Some? ==> line.mark.Own().value.depth >= 1
      modifies this`stack, this`chains, this`accepted
      ensures Valid() && accepted == old(accepted) + [line]
    {
      TrackPrefix(accepted, line);
      if line.mark.Own().Some? && line.mark.Own().value.line == line.line { Open(line.mark.Own().value); }
      if line.line in requestedLines { chains := chains[line.line := stack]; }
      accepted := accepted + [line];
    }
  }

  lemma TrackPrefix(lines: seq<LineEvent>, e: LineEvent)
    ensures forall k :: 0 <= k <= |lines| ==> TrackAll(lines + [e], k) == TrackAll(lines, k)
  {
    forall k | 0 <= k <= |lines| ensures TrackAll(lines + [e], k) == TrackAll(lines, k) {
      TrackPrefixAt(lines, e, k);
    }
  }

  lemma {:induction false} TrackPrefixAt(lines: seq<LineEvent>, e: LineEvent, k: nat)
    requires k <= |lines|
    ensures TrackAll(lines + [e], k) == TrackAll(lines, k)
  {
    if k > 0 {
      TrackPrefixAt(lines, e, k - 1);
    }
  }

  // The stack is the chain of covering headings.

  /** When no open heading among the first `m` is as deep as heading `n`, heading `n` closes none of them. */
  lemma {:induction false} ShallowStayOpen(hs: seq<Heading>, n: nat, m: nat)
    requires m <= n < |hs|
    requires forall i :: 0 <= i < m && n <= Closer(hs, i) ==> hs[i].depth < hs[n].depth
    ensures Unclosed(hs, n + 1, m) == Unclosed(hs, n, m)
  {
    hide FirstShallow;
    if m > 0 {
      ShallowStayOpen(hs, n, m - 1);
    }
  }

  /** Popping for heading `n` leaves exactly the headings that it does not close. */
  lemma {:induction false} PopIsClose(hs: seq<Heading>, n: nat, m: nat)
    requires m <= n < |hs|
    ensures PopTo(Unclosed(hs, n, m), hs[n].depth) == Unclosed(hs, n + 1, m)
  {
    if m > 0 {
      if Closer(hs, m - 1) < n {
        PopIsClose(hs, n, m - 1);
      } else if hs[n].depth <= hs[m - 1].depth {
        PopIsClose(hs, n, m - 1);
        var below := Unclosed(hs, n, m - 1);
        assert (below + [hs[m - 1]])[..|below|] == below;
      } else {
        ShallowStayOpen(hs, n, m);
      }
    }
  }

  /** The headings that start by `line` are the first `n`. */
  ghost predicate StartedBy(hs: seq<Heading>, line: nat, n: nat) {
    n <= |hs| && (forall i :: 0 <= i < n ==> hs[i].line <= line) && (forall i :: n <= i < |hs| ==> line < hs[i].line)
  }

  lemma {:induction false} CoveringIsUnclosed(hs: seq<Heading>, last: nat, line: nat, n: nat, m: nat)
    requires InOrder(hs, last) && line <= last && StartedBy(hs, line, n) && m <= |hs|
    ensures Covering(hs, last, line, m) == Unclosed(hs, n, if m < n then m else n)
  {
    if m > 0 {
      CoveringIsUnclosed(hs, last, line, n, m - 1);
      SectionEndsBeforeCloser(hs, m - 1, last);
    }
  }

  ghost predicate Reported(hs: seq<Heading>, lines: seq<LineEvent>) {
    && InOrder(hs, |lines|)
    && (forall k :: 0 <= k < |lines| ==> lines[k].line == k + 1 && lines[k].mark.Own() == Owner(hs, k + 1, |hs|))
  }

  lemma TrackOpens(hs: seq<Heading>, lines: seq<LineEvent>, k: nat, n: nat, stack: seq<Heading>)
    requires Reported(hs, lines) && 1 <= k <= |lines| && StartedBy(hs, k - 1, n) && stack == Unclosed(hs, n, n)
    requires n < |hs| && hs[n].line == k
    ensures StartedBy(hs, k, n + 1) && Tracked(stack, lines[k - 1]) == Unclosed(hs, n + 1, n + 1)
  {
    CovererOwns(hs, |lines|, k, n, |hs|);
    PopIsClose(hs, n, n);
    hide FirstShallow, PopTo, Owner;
  }

  lemma TrackStays(hs: seq<Heading>, lines: seq<LineEvent>, k: nat, n: nat, stack: seq<Heading>)
    requires Reported(hs, lines) && 1 <= k <= |lines| && StartedBy(hs, k - 1, n) && !(n < |hs| && hs[n].line == k)
    ensures StartedBy(hs, k, n) && Tracked(stack, lines[k - 1]) == stack
  {
    hide PopTo;
    if lines[k - 1].mark.Own().Some? {
      var j := OwnerCovers(hs, k, |hs|);
    }
  }

  /** A line opens a heading in the tracker exactly when a heading starts on it. */
  lemma TrackStep(hs: seq<Heading>, lines: seq<LineEvent>, k: nat, n: nat, stack: seq<Heading>)
    requires Reported(hs, lines) && 1 <= k <= |lines| && StartedBy(hs, k - 1, n) && stack == Unclosed(hs, n, n)
    ensures var n' := if n < |hs| && hs[n].line == k then n + 1 else n;
            StartedBy(hs, k, n') && Tracked(stack, lines[k - 1]) == Unclosed(hs, n', n')
  {
    hide Tracked, Unclosed, Reported;
    if n < |hs| && hs[n].line == k { TrackOpens(hs, lines, k, n, stack); } else { TrackStays(hs, lines, k, n, stack); }
  }

  lemma {:induction false} TrackIsUnclosed(hs: seq<Heading>, lines: seq<LineEvent>, k: nat) returns (n: nat)
    requires Reported(hs, lines) && k <= |lines|
    ensures StartedBy(hs, k, n) && TrackAll(lines, k) == Unclosed(hs, n, n)
  {
    if k == 0 {
      n := 0;
    } else {
      var m := TrackIsUnclosed(hs, lines, k - 1);
      TrackStep(hs, lines, k, m, TrackAll(lines, k - 1));
      n := if m < |hs| && hs[m].line == k then m + 1 else m;
    }
  }

  /** After line `k`, the tracker's stack is exactly the headings whose section covers line `k`. */
  lemma TrackIsCovering(hs: seq<Heading>, lines: seq<LineEvent>, k: nat)
    requires Reported(hs, lines) && k <= |lines|
    ensures TrackAll(lines, k) == Covering(hs, |lines|, k, |hs|)
  {
    var n := TrackIsUnclosed(hs, lines, k);
    CoveringIsUnclosed(hs, |lines|, k, n, |hs|);
  }

  /** A complete scan of a document without lone CRs, tracked: the chain at each line is what covers it. */
  lemma AncestorsOfScan(e: Session, source: seq<Text>, k: nat)
    requires Faithful(e, source) && !e.scan.stopped && AllPlain(source, 1) && k <= |source|
    ensures TrackAll(e.scan.lines, k) == Covering(e.scan.outline, |source|, k, |e.scan.outline|)
  {
    TrackIsCovering(e.scan.outline, e.scan.lines, k);
  }
}
