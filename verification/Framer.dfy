/** Splitting the wire's text into lines, under a byte bound, whatever the chunks it arrives in. */
module Framer {
  import opened Text
  import opened OutputBound

  datatype FramerEvent = Line(line: Text) | Oversize

  // What the text alone says.

  function EventOf(line: Text, max: nat): FramerEvent {
    if ByteLength(line) > max then Oversize else Line(line)
  }

  /** The lines that newlines have ended, without them. */
  function EndedLines(t: Text): seq<Text> {
    if t == [] then []
    else if t[|t| - 1] == LF then EndedLines(t[..|t| - 1]) + [Tail(t[..|t| - 1])]
    else EndedLines(t[..|t| - 1])
  }

  function EventsOf(lines: seq<Text>, max: nat): (events: seq<FramerEvent>)
    ensures |events| == |lines| && forall k :: 0 <= k < |lines| ==> events[k] == EventOf(lines[k], max)
  {
    seq(|lines|, k requires 0 <= k < |lines| => EventOf(lines[k], max))
  }

  /** One event for every newline, and one for an unfinished line as soon as it is too long. */
  function Events(t: Text, max: nat): seq<FramerEvent> {
    EventsOf(EndedLines(t), max) + if ByteLength(Tail(t)) > max then [Oversize] else []
  }

  lemma {:induction false} BodyFollows(t: Text, body: Text)
    requires LF !in body
    ensures Tail(t + body) == Tail(t) + body && EndedLines(t + body) == EndedLines(t)
    decreases |body|
  {
    if body == [] {
      assert t + body == t;
    } else {
      var front := body[..|body| - 1];
      assert (t + body)[..|t + body| - 1] == t + front;
      assert body[|body| - 1] in body;
      BodyFollows(t, front);
      assert Tail(t) + front + [body[|body| - 1]] == Tail(t) + body;
    }
  }

  lemma NewlineFollows(t: Text)
    ensures Tail(t + [LF]) == [] && EndedLines(t + [LF]) == EndedLines(t) + [Tail(t)]
  {
    assert (t + [LF])[..|t|] == t;
  }

  // What the framer counts.

  /** A line, and how many of its surrogate pairs arrived in two chunks; the halves count two bytes more apart. */
  datatype Counted = Counted(text: Text, splits: nat) {
    function Weight(): nat { ByteLength(text) + 2 * splits }

    /** What the framer counts leads to what the text alone says. */
    predicate Exact(max: nat) {
      ByteLength(text) > max || Weight() <= max
    }
  }

  /** The lines that arrived whole, and the unfinished one. */
  datatype Log = Log(done: seq<Counted>, tail: Counted)

  const NewLog := Log([], Counted([], 0))

  function AfterPiece(log: Log, body: Text, terminated: bool): Log {
    var line := Counted(log.tail.text + body, log.tail.splits + if Joins(log.tail.text, body) then 1 else 0);
    if terminated then Log(log.done + [line], Counted([], 0)) else log.(tail := line)
  }

  function AfterChunk(log: Log, chunk: Text): Log
    decreases |chunk|
  {
    if chunk == [] then log
    else
      var at := IndexFrom(chunk, LF, 0);
      if at == |chunk| then AfterPiece(log, chunk, false)
      else AfterChunk(AfterPiece(log, chunk[..at], true), chunk[at + 1..])
  }

  function AfterChunks(chunks: seq<Text>): Log {
    if chunks == [] then NewLog else AfterChunk(AfterChunks(chunks[..|chunks| - 1]), chunks[|chunks| - 1])
  }

  function Report(line: Counted, max: nat): FramerEvent {
    if line.Weight() > max then Oversize else Line(line.text)
  }

  function ReportsOf(lines: seq<Counted>, max: nat): (events: seq<FramerEvent>)
    ensures |events| == |lines| && forall k :: 0 <= k < |lines| ==> events[k] == Report(lines[k], max)
  {
    seq(|lines|, k requires 0 <= k < |lines| => Report(lines[k], max))
  }

  /** All the framer has reported of what it has read. */
  function Reports(log: Log, max: nat): seq<FramerEvent> {
    ReportsOf(log.done, max) + if log.tail.Weight() > max then [Oversize] else []
  }

  /** A piece adds exactly its own bytes to the weight of its line. */
  lemma PieceWeighs(line: Counted, body: Text)
    ensures Counted(line.text + body, line.splits + if Joins(line.text, body) then 1 else 0).Weight()
         == line.Weight() + ByteLength(body)
  {
    BytesJoin(line.text, body);
  }

  datatype Held = Held(pending: Text, bytes: nat, skipping: bool)

  /** What is held of the unfinished line: nothing, once it was reported. */
  function HeldOf(line: Counted, max: nat): Held {
    if line.Weight() > max then Held([], 0, true) else Held(line.text, line.Weight(), false)
  }

  /** What is held after a piece, and what the piece reports. */
  function Next(h: Held, body: Text, terminated: bool, max: nat): (Held, Option<FramerEvent>) {
    var line, bytes := h.pending + body, h.bytes + ByteLength(body);
    if h.skipping then (h.(skipping := !terminated), None)
    else if bytes > max then (Held([], 0, !terminated), Some(Oversize))
    else if terminated then (Held([], 0, false), Some(Line(line)))
    else (Held(line, bytes, false), None)
  }

  /**
   One piece: nothing more of a line already reported, one report of a line grown too long, the line a newline
   ends.
   */
  lemma PieceReports(log: Log, body: Text, terminated: bool, max: nat)
    ensures var after, n := AfterPiece(log, body, terminated), Next(HeldOf(log.tail, max), body, terminated, max);
            && n.0 == HeldOf(after.tail, max)
            && Reports(after, max) == Reports(log, max) + if n.1.Some? then [n.1.value] else []
  {
    PieceWeighs(log.tail, body);
    hide ByteLength, Joins;
    var after := AfterPiece(log, body, terminated);
    assert Counted([], 0).Weight() == 0 by { NoBytes(); }
    if terminated {
      var line := after.done[|log.done|];
      assert ReportsOf(after.done, max) == ReportsOf(log.done, max) + [Report(line, max)];
    }
  }

  lemma NoBytes()
    ensures ByteLength([]) == 0
  {
  }

  class LineFramer {
    const max: nat
    var pending: Text
    var pendingBytes: nat
    var skipping: bool
    /** The lines as they arrived. */
    ghost var log: Log

    /** The object holds what is to be held; never more than the bound. */
    ghost predicate Valid()
      reads this
    {
      Held(pending, pendingBytes, skipping) == HeldOf(log.tail, max) && ByteLength(pending) <= pendingBytes <= max
    }

    constructor (max: nat)
      ensures Valid() && log == NewLog && this.max == max
    {
      NoBytes();
      this.max := max;
      pending, pendingBytes, skipping, log := [], 0, false, NewLog;
    }

    /** A chunk's lines are counted as they arrive, and what comes back is what is newly reported of them. */
    method Push(chunk: Text) returns (events: seq<FramerEvent>)
      requires Valid()
      modifies this
      ensures Valid() && log == AfterChunk(old(log), chunk)
      ensures Reports(log, max) == old(Reports(log, max)) + events
    {
      hide Reports, ByteLength, Joins, AfterPiece;
      events := [];
      var rest := chunk;
      assert Reports(log, max) == old(Reports(log, max)) + events;
      while rest != []
        invariant Valid() && AfterChunk(log, rest) == AfterChunk(old(log), chunk)
        invariant Reports(log, max) == old(Reports(log, max)) + events
        decreases |rest|
      {
        var at := IndexFrom(rest, LF, 0);
        var body, terminated := rest[..at], at < |rest|;
        assert at == |rest| ==> body == rest;
        var event := Take(body, terminated);
        if event.Some? { events := events + [event.value]; }
        rest := if terminated then rest[at + 1..] else [];
      }
    }

    /** One piece: the end of a line, or more of an unfinished one. */
    method Take(body: Text, terminated: bool) returns (event: Option<FramerEvent>)
      requires Valid()
      modifies this
      ensures Valid() && log == AfterPiece(old(log), body, terminated)
      ensures Reports(log, max) == old(Reports(log, max)) + if event.Some? then [event.value] else []
    {
      hide Reports, ByteLength, Joins, AfterPiece, HeldOf;
      PieceReports(log, body, terminated, max);
      HeldWeighs(AfterPiece(log, body, terminated).tail, max);
      event := None;
      log := AfterPiece(log, body, terminated);
      if skipping {
        if terminated { skipping := false; }
        return;
      }
      pending, pendingBytes := pending + body, pendingBytes + ByteLength(body);
      if pendingBytes > max {
        pending, pendingBytes, skipping := [], 0, !terminated;
        return Some(Oversize);
      }
      if !terminated { return; }
      event := Some(Line(pending));
      pending, pendingBytes := [], 0;
    }
  }

  lemma HeldWeighs(line: Counted, max: nat)
    ensures ByteLength(HeldOf(line, max).pending) <= HeldOf(line, max).bytes <= max
  {
    NoBytes();
  }

  // When the chunks make no difference.

  function Texts(lines: seq<Counted>): (texts: seq<Text>)
    ensures |texts| == |lines| && forall k :: 0 <= k < |lines| ==> texts[k] == lines[k].text
  {
    seq(|lines|, k requires 0 <= k < |lines| => lines[k].text)
  }

  /** The log holds the lines of `t`. */
  ghost predicate Logs(log: Log, t: Text) {
    Texts(log.done) == EndedLines(t) && log.tail.text == Tail(t)
  }

  lemma PieceLogs(log: Log, t: Text, body: Text, terminated: bool)
    requires Logs(log, t) && LF !in body
    ensures Logs(AfterPiece(log, body, terminated), t + (body + if terminated then [LF] else []))
  {
    hide Tail, EndedLines, Joins;
    BodyFollows(t, body);
    if terminated {
      NewlineFollows(t + body);
      assert t + (body + [LF]) == t + body + [LF];
      var after := AfterPiece(log, body, terminated);
      assert Texts(after.done) == Texts(log.done) + [after.done[|log.done|].text];
    } else {
      assert body + [] == body;
    }
  }

  lemma {:induction false} ChunkLogs(log: Log, t: Text, chunk: Text)
    requires Logs(log, t)
    ensures Logs(AfterChunk(log, chunk), t + chunk)
    decreases |chunk|
  {
    hide Logs, AfterPiece;
    if chunk == [] {
      assert t + chunk == t;
    } else {
      var at := IndexFrom(chunk, LF, 0);
      var body := chunk[..at];
      if at == |chunk| {
        PieceLogs(log, t, chunk, false);
        assert chunk + [] == chunk;
      } else {
        PieceLogs(log, t, body, true);
        ChunkLogs(AfterPiece(log, body, true), t + (body + [LF]), chunk[at + 1..]);
        assert t + (body + [LF]) + chunk[at + 1..] == t + chunk;
      }
    }
  }

  lemma {:induction false} ChunksLog(chunks: seq<Text>)
    ensures Logs(AfterChunks(chunks), Concat(chunks))
    decreases |chunks|
  {
    if chunks != [] {
      ChunksLog(chunks[..|chunks| - 1]);
      hide Logs;
      ChunkLogs(AfterChunks(chunks[..|chunks| - 1]), Concat(chunks[..|chunks| - 1]), chunks[|chunks| - 1]);
    }
  }

  /**
   One line: the framer reports what its text says exactly when it is too long anyway, or fits with its halves
   apart.
   */
  lemma LineExactly(line: Counted, max: nat)
    ensures Report(line, max) == EventOf(line.text, max) <==> line.Exact(max)
    ensures line.splits == 0 ==> line.Exact(max)
  {
  }

  /** All that was reported of a text is what the text alone says exactly when that is so of every line. */
  lemma ChunksMakeNoDifference(chunks: seq<Text>, max: nat)
    ensures var log := AfterChunks(chunks);
            Reports(log, max) == Events(Concat(chunks), max)
            <==> log.tail.Exact(max) && forall k :: 0 <= k < |log.done| ==> log.done[k].Exact(max)
  {
    ChunksLog(chunks);
    var log, t := AfterChunks(chunks), Concat(chunks);
    hide AfterChunks, Concat, Tail, EndedLines, ByteLength;
    var n, lines := |log.done|, EndedLines(t);
    assert |lines| == |Texts(log.done)| == n;
    forall k | 0 <= k < n ensures Reports(log, max)[k] == Events(t, max)[k] <==> log.done[k].Exact(max) {
      assert lines[k] == Texts(log.done)[k];
      LineExactly(log.done[k], max);
    }
    LineExactly(log.tail, max);
    if Reports(log, max) == Events(t, max) {
      assert |Reports(log, max)| == |Events(t, max)|;
    }
  }

  /** No chunk starts inside a surrogate pair. */
  ghost predicate Unsplit(chunks: seq<Text>) {
    forall k :: 0 <= k < |chunks| ==> !Joins(Tail(Concat(chunks[..k])), chunks[k])
  }

  ghost predicate NoSplits(log: Log) {
    log.tail.splits == 0 && forall k :: 0 <= k < |log.done| ==> log.done[k].splits == 0
  }

  lemma {:induction false} UnsplitChunk(log: Log, chunk: Text)
    requires NoSplits(log) && !Joins(log.tail.text, chunk)
    ensures NoSplits(AfterChunk(log, chunk))
    decreases |chunk|
  {
    if chunk != [] {
      var at := IndexFrom(chunk, LF, 0);
      if at < |chunk| {
        assert !Joins(log.tail.text, chunk[..at]);
        UnsplitChunk(AfterPiece(log, chunk[..at], true), chunk[at + 1..]);
      }
    }
  }

  /** A decoder never splits a pair; then the events depend on the text alone. */
  lemma {:induction false} UnsplitLog(chunks: seq<Text>)
    requires Unsplit(chunks)
    ensures NoSplits(AfterChunks(chunks))
    decreases |chunks|
  {
    if chunks != [] {
      var n, front := |chunks| - 1, chunks[..|chunks| - 1];
      assert forall k :: 0 <= k < n ==> front[..k] == chunks[..k];
      UnsplitLog(front);
      ChunksLog(front);
      assert !Joins(Tail(Concat(chunks[..n])), chunks[n]);
      UnsplitChunk(AfterChunks(front), chunks[n]);
    }
  }

  lemma HalvesLog(high: Text, low: Text)
    requires high == [0xD83D] && low == [0xDE00]
    ensures AfterChunks([high, low]) == Log([], Counted([0xD83D, 0xDE00], 1))
  {
    hide ByteLength;
    var one, two := [high], [high, low];
    assert two[..1] == one && one[..0] == [];
    assert AfterChunks([]) == NewLog;
    PairBytes();
    assert [] + high == high && AfterChunks(one) == Log([], Counted(high, 0));
    assert high + low == [0xD83D, 0xDE00];
  }

  lemma SplitLog(chunks: seq<Text>)
    requires chunks == [[0xD83D], [0xDE00], [LF, 0x61, LF]]
    ensures AfterChunks(chunks) == Log([Counted([0xD83D, 0xDE00], 1), Counted([0x61], 0)], Counted([], 0))
  {
    hide AfterChunk;
    assert chunks[..2] == [[0xD83D], [0xDE00]];
    HalvesLog(chunks[0], chunks[1]);
    LastChunk(AfterChunks(chunks[..2]), chunks[2]);
  }

  lemma TwoReports(a: Counted, b: Counted, max: nat)
    requires a.Weight() > max >= b.Weight()
    ensures Reports(Log([a, b], Counted([], 0)), max) == [Oversize, Line(b.text)]
  {
    hide Counted.Weight;
    var done := [a, b];
    assert Reports(Log(done, Counted([], 0)), max) == ReportsOf(done, max) by { EmptyTail(done, max); }
  }

  lemma EmptyTail(done: seq<Counted>, max: nat)
    ensures Reports(Log(done, Counted([], 0)), max) == ReportsOf(done, max)
  {
    NoBytes();
  }

  /** A pair in two chunks: the framer reports a line that fits as too long, and is exact again on the next line. */
  lemma SplitPairIsMiscounted()
    ensures var chunks: seq<Text> := [[0xD83D], [0xDE00], [LF, 0x61, LF]];
            && Reports(AfterChunks(chunks), 5) == [Oversize, Line([0x61])]
            && Events(Concat(chunks), 5) == [Line([0xD83D, 0xDE00]), Line([0x61])]
  {
    hide AfterChunks, Reports, Concat, EndedLines, Tail;
    var chunks: seq<Text> := [[0xD83D], [0xDE00], [LF, 0x61, LF]];
    SplitLog(chunks);
    ChunksLog(chunks);
    PairBytes();
    NoBytes();
    TwoReports(Counted([0xD83D, 0xDE00], 1), Counted([0x61], 0), 5);
    assert EndedLines(Concat(chunks)) == [[0xD83D, 0xDE00], [0x61]];
  }

  lemma PairBytes()
    ensures ByteLength([0xD83D]) == 3 && ByteLength([0xDE00]) == 3 && ByteLength([0xD83D, 0xDE00]) == 4
      && ByteLength([0x61]) == 1
  {
    var high: Text, low: Text, a: Text := [0xD83D], [0xDE00], [0x61];
    assert high[1..] == [] && low[1..] == [] && a[1..] == [];
    BytesJoin(high, low);
    assert high + low == [0xD83D, 0xDE00];
  }

  lemma LastChunk(log: Log, chunk: Text)
    requires chunk == [LF, 0x61, LF] && log.done == []
    ensures AfterChunk(log, chunk) == Log([log.tail, Counted([0x61], 0)], Counted([], 0))
  {
    var empty: Text, rest: Text := [], [0x61, LF];
    assert IndexFrom(chunk, LF, 0) == 0 && chunk[..0] == empty && chunk[1..] == rest;
    var first := AfterPiece(log, empty, true);
    assert log.tail.text + empty == log.tail.text;
    assert first == Log([log.tail], Counted([], 0));
    assert AfterChunk(log, chunk) == AfterChunk(first, rest);
    assert IndexFrom(rest, LF, 0) == 1 && rest[..1] == [0x61] && rest[2..] == empty;
    assert empty + [0x61] == [0x61];
    var second := AfterPiece(first, [0x61], true);
    assert second == Log([log.tail, Counted([0x61], 0)], Counted([], 0));
    assert AfterChunk(first, rest) == AfterChunk(second, empty);
  }
}
