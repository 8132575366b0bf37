/**
 Root headings in source order, and the sections they open: the reference the scanner's open-heading
 stack and the ancestor tracker are compared with.
 */
module Outline {
  import opened Text

  datatype Heading = Heading(depth: nat, line: nat, headEnd: nat, title: Text)

  /** The first heading at or after `from` that is as shallow as `depth`, or the length. */
  function FirstShallow(hs: seq<Heading>, depth: nat, from: nat): (j: nat)
    requires from <= |hs|
    ensures from <= j <= |hs|
    ensures forall k :: from <= k < j ==> hs[k].depth > depth
    ensures j < |hs| ==> hs[j].depth <= depth
    decreases |hs| - from
  {
    if from == |hs| || hs[from].depth <= depth then from else FirstShallow(hs, depth, from + 1)
  }

  /** Where section `i` is closed: by the first later heading that is not deeper, if there is one. */
  function Closer(hs: seq<Heading>, i: nat): (j: nat)
    requires i < |hs|
    ensures i < j <= |hs|
  {
    FirstShallow(hs, hs[i].depth, i + 1)
  }

  /** The last line of section `i` in a document of `last` lines. */
  function SectionEnd(hs: seq<Heading>, i: nat, last: nat): int
    requires i < |hs|
  {
    var j := Closer(hs, i);
    if j == |hs| then last else Max(hs[j].line - 1, hs[i].headEnd)
  }

  /** Headings occupy disjoint line ranges, in order, within lines 1 to `last`. */
  ghost predicate InOrder(hs: seq<Heading>, last: nat) {
    && (forall i :: 0 <= i < |hs| ==> 1 <= hs[i].depth && 1 <= hs[i].line <= hs[i].headEnd <= last)
    && (forall i, j :: 0 <= i < j < |hs| ==> hs[i].headEnd < hs[j].line)
  }

  /** Among disjoint ordered headings a section ends just before the line of the heading that closes it. */
  lemma SectionEndsBeforeCloser(hs: seq<Heading>, i: nat, last: nat)
    requires i < |hs| && InOrder(hs, last)
    ensures var j := Closer(hs, i);
            SectionEnd(hs, i, last) == if j == |hs| then last else hs[j].line - 1
    ensures hs[i].headEnd <= SectionEnd(hs, i, last) <= last
  {
  }

  /** Sections are laminar: a later one lies after an earlier one or inside it. */
  lemma SectionsAreLaminar(hs: seq<Heading>, i: nat, j: nat, last: nat)
    requires i < j < |hs| && InOrder(hs, last)
    ensures SectionEnd(hs, i, last) < hs[j].line || SectionEnd(hs, j, last) <= SectionEnd(hs, i, last)
    ensures SectionEnd(hs, i, last) < hs[j].line <==> Closer(hs, i) <= j
  {
    SectionEndsBeforeCloser(hs, i, last);
    SectionEndsBeforeCloser(hs, j, last);
    var ci, cj := Closer(hs, i), Closer(hs, j);
    if ci <= j {
      assert ci == j || hs[ci].headEnd < hs[j].line;
    } else {
      // Everything from `j` up to the closer of `i` is deeper than `i`, so the closer of `i` closes `j` too.
      assert cj <= ci;
      assert cj < ci && ci < |hs| ==> hs[cj].headEnd < hs[ci].line;
    }
  }

  /** The last heading among the first `n` whose own lines include `line`. */
  function Owner(hs: seq<Heading>, line: nat, n: nat): Option<Heading>
    requires n <= |hs|
  {
    if n == 0 then None
    else if hs[n - 1].line <= line <= hs[n - 1].headEnd then Some(hs[n - 1])
    else Owner(hs, line, n - 1)
  }

  lemma {:induction false} OwnerAfterAppend(hs: seq<Heading>, h: Heading, line: nat, n: nat)
    requires n <= |hs|
    ensures Owner(hs + [h], line, n) == Owner(hs, line, n)
  {
    if n > 0 {
      OwnerAfterAppend(hs, h, line, n - 1);
    }
  }

  /** Among disjoint ordered headings, the one that covers a line owns it. */
  lemma {:induction false} CovererOwns(hs: seq<Heading>, last: nat, line: nat, j: nat, n: nat)
    requires InOrder(hs, last) && j < n <= |hs| && hs[j].line <= line <= hs[j].headEnd
    ensures Owner(hs, line, n) == Some(hs[j])
  {
    if j < n - 1 {
      CovererOwns(hs, last, line, j, n - 1);
    }
  }

  /** An owner is one of the headings, and covers the line. */
  lemma {:induction false} OwnerCovers(hs: seq<Heading>, line: nat, n: nat) returns (j: nat)
    requires n <= |hs| && Owner(hs, line, n).Some?
    ensures j < n && Owner(hs, line, n) == Some(hs[j]) && hs[j].line <= line <= hs[j].headEnd
  {
    if hs[n - 1].line <= line <= hs[n - 1].headEnd {
      j := n - 1;
    } else {
      j := OwnerCovers(hs, line, n - 1);
    }
  }

  /** A line after every heading belongs to none. */
  lemma {:induction false} NoOwnerAfter(hs: seq<Heading>, line: nat, n: nat)
    requires n <= |hs| && forall i :: 0 <= i < |hs| ==> hs[i].headEnd < line
    ensures Owner(hs, line, n) == None
  {
    if n > 0 {
      NoOwnerAfter(hs, line, n - 1);
    }
  }

  /** Appending a heading closes exactly the open headings that are no shallower. */
  lemma CloserAfterAppend(hs: seq<Heading>, h: Heading, i: nat)
    requires i < |hs|
    ensures Closer(hs + [h], i) ==
            if Closer(hs, i) < |hs| then Closer(hs, i)
            else if h.depth <= hs[i].depth then |hs|
            else |hs| + 1
  {
    var hs' := hs + [h];
    assert forall k :: 0 <= k < |hs| ==> hs'[k] == hs[k];
    assert hs'[|hs|] == h;
    var j := Closer(hs, i);
    assert j < |hs| ==> hs'[j].depth <= hs'[i].depth;
  }

  /** An account of `hs`: which headings are on the stack, and which have been closed, in closing order. */
  datatype Ledger = Ledger(stack: seq<nat>, closed: seq<nat>) {

    ghost predicate Indexes(n: nat) {
      && |stack| + |closed| == n
      && (forall k :: 0 <= k < |stack| ==> stack[k] < n)
      && (forall k :: 0 <= k < |closed| ==> closed[k] < n)
    }

    /** Every heading is on the stack or closed, exactly once; the stack is exactly the unclosed ones. */
    ghost predicate Accounts(hs: seq<Heading>) {
      && Indexes(|hs|)
      && (forall j, k :: 0 <= j < k < |stack| ==> stack[j] < stack[k])
      && (forall k :: 0 <= k < |stack| ==> Closer(hs, stack[k]) == |hs|)
      && (forall j, k :: 0 <= j < k < |closed| ==> closed[j] != closed[k])
      && (forall k :: 0 <= k < |closed| ==> Closer(hs, closed[k]) < |hs|)
    }

    /** The account while `h` is being opened: the stack has lost headings that `h` closes. */
    ghost predicate Opening(hs: seq<Heading>, h: Heading) {
      && Indexes(|hs|)
      && (forall j, k :: 0 <= j < k < |stack| ==> stack[j] < stack[k])
      && (forall k :: 0 <= k < |stack| ==> Closer(hs, stack[k]) == |hs|)
      && (forall j, k :: 0 <= j < k < |closed| ==> closed[j] != closed[k])
      && (forall k :: 0 <= k < |closed| ==> Closer(hs + [h], closed[k]) <= |hs|)
      && (forall j, k :: 0 <= j < |stack| && 0 <= k < |closed| ==> stack[j] != closed[k])
    }

    function Pop(): Ledger {
      if stack == [] then this else Ledger(stack[..|stack| - 1], closed + [stack[|stack| - 1]])
    }
  }

  /** The open headings get deeper toward the top of the stack. */
  lemma StackDeepens(l: Ledger, hs: seq<Heading>, j: nat, k: nat)
    requires l.Accounts(hs) && j < k < |l.stack|
    ensures hs[l.stack[j]].depth < hs[l.stack[k]].depth
  {
    assert Closer(hs, l.stack[j]) == |hs|;
  }

  lemma StartOpening(l: Ledger, hs: seq<Heading>, h: Heading)
    requires l.Accounts(hs)
    ensures l.Opening(hs, h)
  {
    forall k | 0 <= k < |l.closed| ensures Closer(hs + [h], l.closed[k]) <= |hs| {
      CloserAfterAppend(hs, h, l.closed[k]);
    }
  }

  lemma PopWhileOpening(l: Ledger, hs: seq<Heading>, h: Heading)
    requires l.Opening(hs, h) && |l.stack| > 0 && h.depth <= hs[l.stack[|l.stack| - 1]].depth
    ensures l.Pop().Opening(hs, h)
    ensures SectionEnd(hs + [h], l.stack[|l.stack| - 1], 0) == Max(h.line - 1, hs[l.stack[|l.stack| - 1]].headEnd)
  {
    var i, p := l.stack[|l.stack| - 1], l.Pop();
    CloserAfterAppend(hs, h, i);
    assert forall k :: 0 <= k < |p.stack| ==> p.stack[k] == l.stack[k] && p.stack[k] < i;
    assert forall k :: 0 <= k < |p.closed| ==> p.closed[k] == if k < |l.closed| then l.closed[k] else i;
  }

  lemma FinishOpening(l: Ledger, hs: seq<Heading>, h: Heading)
    requires l.Opening(hs, h)
    requires |l.stack| == 0 || hs[l.stack[|l.stack| - 1]].depth < h.depth
    ensures Ledger(l.stack + [|hs|], l.closed).Accounts(hs + [h])
  {
    forall k | 0 <= k < |l.stack| ensures Closer(hs + [h], l.stack[k]) == |hs| + 1 {
      StaysOpen(l, hs, h, k);
    }
    hide Closer;
  }

  /** The top is deeper than everything below it, since nothing below it has been closed. */
  lemma StaysOpen(l: Ledger, hs: seq<Heading>, h: Heading, k: nat)
    requires l.Opening(hs, h) && k < |l.stack| && hs[l.stack[|l.stack| - 1]].depth < h.depth
    ensures Closer(hs + [h], l.stack[k]) == |hs| + 1
  {
    var top := l.stack[|l.stack| - 1];
    assert l.stack[k] == top || hs[l.stack[k]].depth < hs[top].depth;
    CloserAfterAppend(hs, h, l.stack[k]);
  }
}
