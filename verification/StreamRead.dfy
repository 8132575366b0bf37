/** The streaming reader: lines assembled from chunks, and one window collected from them. */
module StreamRead {
  import opened Text
  import opened ModelText
  import opened SourceLines

  // Lines from chunks.

  /** The lines that newlines have ended. */
  function Complete(t: Text): seq<Text> {
    if t == [] then []
    else if t[|t| - 1] == LF then Complete(t[..|t| - 1]) + [Tail(t[..|t| - 1]) + [LF]]
    else Complete(t[..|t| - 1])
  }

  /** A line too wide for any result is not kept. */
  function Kept(line: Text): Option<Text> {
    if |line| > MAX_RESULT_CODE_UNITS then None else Some(line)
  }

  function AllKept(lines: seq<Text>): (kept: seq<Option<Text>>)
    ensures |kept| == |lines| && forall k :: 0 <= k < |lines| ==> kept[k] == Kept(lines[k])
  {
    seq(|lines|, k requires 0 <= k < |lines| => Kept(lines[k]))
  }

  function Unfinished(t: Text): seq<Text> {
    if Tail(t) == [] then [] else [Tail(t)]
  }

  lemma {:induction false} FirstLineComplete(line: Text, rest: Text)
    requires line != [] && line[|line| - 1] == LF && LF !in line[..|line| - 1]
    ensures Tail(line + rest) == Tail(rest) && Complete(line + rest) == [line] + Complete(rest)
    decreases |rest|
  {
    if rest == [] {
      assert line + rest == line;
      NoNewline(line[..|line| - 1]);
      assert line == line[..|line| - 1] + [LF];
      assert Complete([]) == [];
    } else {
      var front := rest[..|rest| - 1];
      assert (line + rest)[..|line + rest| - 1] == line + front;
      FirstLineComplete(line, front);
    }
  }

  lemma {:induction false} NoNewline(t: Text)
    requires LF !in t
    ensures Tail(t) == t && Complete(t) == []
    decreases |t|
  {
    if t != [] {
      assert t[|t| - 1] in t;
      NoNewline(t[..|t| - 1]);
    }
  }

  /** The lines of a text are those newlines ended, and what is left. */
  lemma {:induction false} LinesAre(t: Text)
    ensures SplitSourceLines(t) == Complete(t) + Unfinished(t)
    decreases |t|
  {
    if t != [] {
      var at := IndexFrom(t, LF, 0);
      if at < |t| {
        var line, rest := t[..at + 1], t[at + 1..];
        assert line + rest == t;
        FirstLineComplete(line, rest);
        LinesAre(rest);
        assert [line] + (Complete(rest) + Unfinished(rest)) == ([line] + Complete(rest)) + Unfinished(rest);
      } else {
        NoNewline(t);
      }
    }
  }

  predicate Terminated(fragment: Text) {
    fragment != [] && fragment[|fragment| - 1] == LF
  }

  /** At most its last character is a newline. */
  predicate IsFragment(f: Text) {
    f != [] && LF !in f[..|f| - 1]
  }

  lemma {:induction false} FragmentFollows(t: Text, f: Text)
    requires IsFragment(f)
    ensures Tail(t + f) == (if Terminated(f) then [] else Tail(t) + f)
    ensures Complete(t + f) == Complete(t) + if Terminated(f) then [Tail(t) + f] else []
  {
    var front := f[..|f| - 1];
    assert (t + f)[..|t + f| - 1] == t + front;
    PlainFollows(t, front);
    assert f == front + [f[|f| - 1]];
    assert Tail(t) + front + [f[|f| - 1]] == Tail(t) + f;
  }

  lemma {:induction false} PlainFollows(t: Text, f: Text)
    requires LF !in f
    ensures Tail(t + f) == Tail(t) + f && Complete(t + f) == Complete(t)
    decreases |f|
  {
    if f == [] {
      assert t + f == t;
    } else {
      var front := f[..|f| - 1];
      assert (t + f)[..|t + f| - 1] == t + front;
      assert f[|f| - 1] in f;
      PlainFollows(t, front);
      assert Tail(t) + front + [f[|f| - 1]] == Tail(t) + f;
    }
  }

  lemma {:induction false} FragmentsOf(t: Text)
    ensures forall k :: 0 <= k < |SplitSourceLines(t)| ==> IsFragment(SplitSourceLines(t)[k])
    decreases |t|
  {
    if t != [] {
      var at := IndexFrom(t, LF, 0);
      if at < |t| {
        FragmentsOf(t[at + 1..]);
        assert t[..at + 1][..at] == t[..at];
      }
    }
  }

  lemma {:induction false} FragmentsJoin(t: Text)
    ensures Concat(SplitSourceLines(t)) == t
    decreases |t|
  {
    if t == [] {
    } else {
      var at := IndexFrom(t, LF, 0);
      if at < |t| {
        FragmentsJoin(t[at + 1..]);
        ConcatCons(t[..at + 1], SplitSourceLines(t[at + 1..]));
        assert t[..at + 1] + t[at + 1..] == t;
      } else {
        ConcatCons(t, []);
      }
    }
  }

  lemma {:induction false} ConcatCons(first: Text, rest: seq<Text>)
    ensures Concat([first] + rest) == first + Concat(rest)
    decreases |rest|
  {
    var all := [first] + rest;
    if rest == [] {
      assert all[..0] == [] && Concat(all[..0]) == [];
    } else {
      var front := rest[..|rest| - 1];
      assert all[..|all| - 1] == [first] + front;
      ConcatCons(first, front);
    }
  }

  class SourceLineState {
    var partial: Text
    var oversized: bool
    ghost var read: Text

    ghost predicate Valid()
      reads this
    {
      && oversized == (|Tail(read)| > MAX_RESULT_CODE_UNITS)
      && (!oversized ==> partial == Tail(read))
    }

    constructor ()
      ensures Valid() && read == []
    {
      partial, oversized, read := [], false, [];
    }

    method Reset()
      modifies this`partial, this`oversized
      ensures partial == [] && !oversized
    {
      partial, oversized := [], false;
    }

    /** One fragment; a line comes back when the fragment ends it, without its text when it is too wide. */
    method TakeSourceFragment(fragment: Text) returns (line: Option<Option<Text>>)
      requires Valid() && IsFragment(fragment)
      modifies this
      ensures Valid() && read == old(read) + fragment
      ensures AllKept(Complete(read)) == old(AllKept(Complete(read))) + if line.Some? then [line.value] else []
    {
      hide Tail, Complete;
      FragmentFollows(read, fragment);
      KeptFollows(Complete(read), Tail(read) + fragment);
      read := read + fragment;
      assert AllKept(old(Complete(read)) + []) == old(AllKept(Complete(read))) + [];
      if oversized {
        if !Terminated(fragment) { return None; }
        Reset();
        return Some(None);
      }
      if |partial| + |fragment| <= MAX_RESULT_CODE_UNITS {
        partial := partial + fragment;
        if !Terminated(fragment) { return None; }
        line := Some(Some(partial));
        Reset();
        return;
      }
      var body := if Terminated(fragment) then fragment[..|fragment| - 1] else fragment;
      oversized := true;
      partial := (partial + body)[..Min(|partial + body|, MAX_RESULT_CODE_UNITS)];
      if !Terminated(fragment) { return None; }
      Reset();
      return Some(None);
    }
  }

  lemma KeptFollows(lines: seq<Text>, line: Text)
    ensures AllKept(lines + [line]) == AllKept(lines) + [Kept(line)]
  {
  }

  lemma KeptJoin(a: seq<Text>, b: seq<Text>)
    ensures AllKept(a + b) == AllKept(a) + AllKept(b)
  {
  }

  /** However a source is chunked, the stream's lines are the lines of the whole, without those too wide. */
  method SourceLinesOf(chunks: seq<Text>) returns (lines: seq<Option<Text>>)
    ensures lines == AllKept(SplitSourceLines(Concat(chunks)))
  {
    hide Tail, Complete, SplitSourceLines;
    var state := new SourceLineState();
    lines := [];
    assert Complete([]) == [] && AllKept([]) == [] by { NothingComplete(); }
    var k := 0;
    while k < |chunks|
      invariant 0 <= k <= |chunks| && state.Valid() && fresh(state)
      invariant state.read == Concat(chunks[..k]) && lines == AllKept(Complete(state.read))
    {
      assert chunks[..k + 1][..k] == chunks[..k];
      var more := TakeChunk(state, chunks[k]);
      lines := lines + more;
      k := k + 1;
    }
    assert chunks[..k] == chunks;
    LinesAre(state.read);
    KeptJoin(Complete(state.read), Unfinished(state.read));
    if state.oversized {
      lines := lines + [None];
    } else if |state.partial| > 0 {
      lines := lines + [Some(state.partial)];
    }
  }

  lemma NothingComplete()
    ensures Complete([]) == [] && AllKept([]) == []
  {
  }

  method TakeChunk(state: SourceLineState, chunk: Text) returns (lines: seq<Option<Text>>)
    requires state.Valid()
    modifies state
    ensures state.Valid() && state.read == old(state.read) + chunk
    ensures AllKept(Complete(state.read)) == old(AllKept(Complete(state.read))) + lines
  {
    hide Tail, Complete, SplitSourceLines;
    var fragments := SplitSourceLines(chunk);
    FragmentsOf(chunk);
    FragmentsJoin(chunk);
    lines := [];
    var k := 0;
    while k < |fragments|
      invariant 0 <= k <= |fragments| && state.Valid() && state.read == old(state.read) + Concat(fragments[..k])
      invariant AllKept(Complete(state.read)) == old(AllKept(Complete(state.read))) + lines
    {
      assert fragments[..k + 1][..k] == fragments[..k];
      var line := state.TakeSourceFragment(fragments[k]);
      if line.Some? { lines := lines + [line.value]; }
      k := k + 1;
    }
    assert fragments[..k] == fragments;
  }

  // One window.

  /** A window collected from the stream, line by line. */
  function CollectFrom(t: Target, texts: seq<Option<Text>>, page: Page, index: nat): Outcome
    decreases |texts| - index
  {
    if index >= |texts| then
      if t.offset >= |texts| && (|texts| > 0 || t.offset != 0) then InvalidSelector
      else Shown(if texts == [] then page.(requested := None) else page)
    else if index < Start(t) then CollectFrom(t, texts, page, index + 1)
    else if index >= BoundedLast(t) then
      var full := page.(nextOffset := Some(BoundedLast(t)),
        truncated := t.limit == None || RequestedLast(t) > BoundedLast(t));
      Shown(if t.source.raw then full else Append(t, full, texts[index], index).0)
    else
      var r := Append(t, page, texts[index], index);
      if r.1 then CollectFrom(t, texts, r.0, index + 1) else Shown(r.0)
  }

  function Collected(t: Target, texts: seq<Option<Text>>): Outcome {
    var page := EmptyPage(t, RequestedLast(t));
    if page == None then InvalidPath else CollectFrom(t, texts, page.value, 0)
  }

  method CollectWindow(t: Target, texts: seq<Option<Text>>) returns (outcome: Outcome)
    ensures outcome == Collected(t, texts)
  {
    hide Append, EmptyPage;
    var empty := EmptyPage(t, RequestedLast(t));
    if empty == None { return InvalidPath; }
    var page, count := empty.value, 0;
    while count < |texts|
      invariant 0 <= count <= |texts| && Collected(t, texts) == CollectFrom(t, texts, page, count)
    {
      var index, text := count, texts[count];
      count := count + 1;
      if index >= Start(t) {
        if index >= BoundedLast(t) {
          page := page.(nextOffset := Some(BoundedLast(t)),
            truncated := t.limit == None || RequestedLast(t) > BoundedLast(t));
          if !t.source.raw { page := Append(t, page, text, index).0; }
          return Shown(page);
        }
        var r := Append(t, page, text, index);
        page := r.0;
        if !r.1 { return Shown(page); }
      }
    }
    if t.offset >= count && (count > 0 || t.offset != 0) { return InvalidSelector; }
    if count == 0 { page := page.(requested := None); }
    return Shown(page);
  }

  /** What is known of a page's end from the start changes nothing about the lines it takes. */
  lemma AppendIgnores(t: Target, page: Page, text: Option<Text>, index: nat, truncated: bool, next: Option<nat>)
    ensures var p := page.(truncated := truncated, nextOffset := next);
            var r, q := Append(t, page, text, index), Append(t, p, text, index);
            && q.1 == r.1
            && q.0 == if r.1 then r.0.(truncated := truncated, nextOffset := next) else r.0
  {
    hide Width, RetryOffset;
    if text.Some? {
      var p := page.(truncated := truncated, nextOffset := next);
      assert Candidate(t, p, text.value, index)
        == Candidate(t, page, text.value, index).(truncated := truncated, nextOffset := next);
      WidthIgnores(t, Candidate(t, page, text.value, index), truncated, next, RetryOffset(t, index + 1));
    }
  }

  lemma AppendLeaves(t: Target, page: Page, text: Option<Text>, index: nat)
    ensures Append(t, page, text, index).1 ==>
              Append(t, page, text, index).0.truncated == page.truncated
                && Append(t, page, text, index).0.nextOffset == page.nextOffset
  {
  }

  lemma {:induction false} SkipsToStart(t: Target, texts: seq<Option<Text>>, page: Page, index: nat)
    requires index <= Start(t) <= |texts|
    ensures CollectFrom(t, texts, page, index) == CollectFrom(t, texts, page, Start(t))
    decreases Start(t) - index
  {
    hide Append;
    if index < Start(t) {
      SkipsToStart(t, texts, page, index + 1);
    }
  }

  /** From the window's first line on, the stream takes the lines the in-memory read takes. */
  lemma {:induction false} SameLines(t: Target, lines: seq<Text>, texts: seq<Option<Text>>, page: Page, index: nat)
    requires t.offset < |lines| && |texts| == |lines| && (forall k :: 0 <= k < |lines| ==> texts[k] == Some(lines[k]))
    requires Start(t) <= index <= Min(|lines|, BoundedLast(t)) && !page.truncated && page.nextOffset == None
    ensures CollectFrom(t, texts, page, index)
      == Shown(AppendFrom(t, lines, Opened(t, page, lines), index, WindowEnd(t, lines)))
    decreases |lines| - index
  {
    hide Append;
    var o := Opened(t, page, lines);
    if index == |lines| {
    } else if index == BoundedLast(t) {
      if !t.source.raw {
        LastAppend(t, lines, o, index);
      }
    } else {
      var r := Append(t, page, texts[index], index);
      AppendIgnores(t, page, texts[index], index, o.truncated, o.nextOffset);
      AppendLeaves(t, page, texts[index], index);
      if r.1 {
        SameLines(t, lines, texts, r.0, index + 1);
        OpenedAfter(t, page, r.0, lines);
      }
    }
  }

  lemma OpenedAfter(t: Target, page: Page, later: Page, lines: seq<Text>)
    ensures Opened(t, later, lines)
      == later.(truncated := Opened(t, page, lines).truncated, nextOffset := Opened(t, page, lines).nextOffset)
  {
  }

  lemma LastAppend(t: Target, lines: seq<Text>, page: Page, index: nat)
    requires index < |lines|
    ensures AppendFrom(t, lines, page, index, index + 1) == Append(t, page, Some(lines[index]), index).0
  {
  }

  /** The streamed window is the in-memory page, or both reads refuse. */
  lemma StreamMatchesMemory(t: Target, lines: seq<Text>)
    requires lines != [] && t.source.lineCount == Some(|lines|)
    requires forall k :: 0 <= k < |lines| ==> |lines[k]| <= MAX_RESULT_CODE_UNITS
    ensures var streamed, inMemory := Collected(t, AllKept(lines)), SelectSourceLines(t, lines);
            streamed == inMemory || (!streamed.Shown? && !inMemory.Shown?)
  {
    hide Append, EmptyPage, AppendFrom;
    assert Placed(t, lines) == t;
    var texts := AllKept(lines);
    var page := EmptyPage(t, RequestedLast(t));
    EmptyIsOpen(t, RequestedLast(t));
    if page.Some? {
      if t.offset < |lines| {
        SkipsToStart(t, texts, page.value, 0);
        SameLines(t, lines, texts, page.value, Start(t));
      } else {
        PastTheEnd(t, texts, page.value, 0);
      }
    }
  }

  lemma EmptyIsOpen(t: Target, endLine: nat)
    ensures EmptyPage(t, endLine).Some? ==>
              var page := EmptyPage(t, endLine).value;
              !page.truncated && page.nextOffset == None && page.content == []
  {
  }

  lemma ContextNeverEnds(t: Target, page: Page, text: Option<Text>, index: nat)
    requires page.content == [] && index < t.offset
    ensures Append(t, page, text, index).1
  {
  }

  /** A read that starts past the last line is refused, though the line before it may be looked at. */
  lemma {:induction false} PastTheEnd(t: Target, texts: seq<Option<Text>>, page: Page, index: nat)
    requires t.offset >= |texts| > 0 && index <= |texts| && (index <= Start(t) ==> page.content == [])
    ensures CollectFrom(t, texts, page, index) == InvalidSelector
    decreases |texts| - index
  {
    hide Append;
    if index < |texts| {
      if index < Start(t) {
        PastTheEnd(t, texts, page, index + 1);
      } else {
        ContextNeverEnds(t, page, texts[index], index);
        PastTheEnd(t, texts, Append(t, page, texts[index], index).0, index + 1);
      }
    }
  }
}
