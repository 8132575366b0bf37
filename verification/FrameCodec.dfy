/**
 Frames as lines of JSON: JSON-RPC 2.0 messages (sections 4, 4.1, 5 and 5.1 of its specification) inside a
 wrapper that names their stream. The text form of JSON is a pair of functions with stated laws.
 */
module FrameCodec {
  import opened Text
  import opened OutputBound
  import opened Framer

  const MAX_MESSAGE_BYTES: nat := 1024 * 1024
  const MAX_FRAME_BYTES: nat := MAX_MESSAGE_BYTES + 512

  datatype Json =
    | Null
    | Bool(b: bool)
    | Whole(n: int)
    /** A number that is not whole, by its decimal text. */
    | Fraction(decimal: string)
    | Str(s: string)
    | Arr(items: seq<Json>)
    | Obj(fields: map<string, Json>)

  datatype RpcId = IdNumber(n: int) | IdText(s: string)

  datatype Rpc =
    | Call(id: Option<RpcId>, name: string, params: Option<Json>)
    | Success(resultId: RpcId, result: Json)
    | Failure(errorId: Option<RpcId>, code: int, message: string, data: Option<Json>)

  datatype Frame = Frame(s: nat, m: Rpc)

  datatype Decoded = Ok(frame: Frame) | Malformed(named: Option<nat>) | OversizeMessage(stream: nat)

  // Reading.

  function Field(record: Json, name: string): Option<Json> {
    if record.Obj? && name in record.fields then Some(record.fields[name]) else None
  }

  function ToId(v: Json): Option<RpcId> {
    match v
    case Whole(n) => Some(IdNumber(n))
    case Str(s) => Some(IdText(s))
    case _ => None
  }

  function ToError(record: Json, error: Json): Option<Rpc> {
    var code, message := Field(error, "code"), Field(error, "message");
    if code.Some? && code.value.Whole? && message.Some? && message.value.Str? then
      var raw := Field(record, "id");
      if raw == None || raw == Some(Null) then Some(Failure(None, code.value.n, message.value.s, Field(error, "data")))
      else if ToId(raw.value) == None then None
      else Some(Failure(ToId(raw.value), code.value.n, message.value.s, Field(error, "data")))
    else None
  }

  function ToCall(record: Json, name: string): Option<Rpc> {
    var raw := Field(record, "id");
    if raw == None then Some(Call(None, name, Field(record, "params")))
    else if ToId(raw.value) == None then None
    else Some(Call(ToId(raw.value), name, Field(record, "params")))
  }

  function ToSuccess(record: Json): Option<Rpc> {
    var id, result := Field(record, "id"), Field(record, "result");
    if id == None || ToId(id.value) == None || result == None then None
    else Some(Success(ToId(id.value).value, result.value))
  }

  function ToJsonRpcMessage(v: Json): Option<Rpc> {
    if !v.Obj? || Field(v, "jsonrpc") != Some(Str("2.0")) then None
    else if Field(v, "error").Some? then ToError(v, Field(v, "error").value)
    else if Field(v, "method").Some? then
      if Field(v, "method").value.Str? && Field(v, "result") == None then ToCall(v, Field(v, "method").value.s)
      else None
    else ToSuccess(v)
  }

  // Writing.

  function FromId(id: RpcId): Json {
    match id
    case IdNumber(n) => Whole(n)
    case IdText(s) => Str(s)
  }

  /** A property that is written only when there is a value for it. */
  function With(fields: map<string, Json>, name: string, v: Option<Json>): map<string, Json> {
    if v.Some? then fields[name := v.value] else fields
  }

  function FromOptionalId(id: Option<RpcId>): Option<Json> {
    if id.Some? then Some(FromId(id.value)) else None
  }

  function FromMessage(m: Rpc): Json {
    var version := map["jsonrpc" := Str("2.0")];
    match m
    case Call(id, name, params) =>
      Obj(With(With(version["method" := Str(name)], "id", FromOptionalId(id)), "params", params))
    case Success(id, result) => Obj(version["id" := FromId(id)]["result" := result])
    case Failure(id, code, message, data) =>
      Obj(version["id" := if id.Some? then FromId(id.value) else Null]
          ["error" := Obj(With(map["code" := Whole(code), "message" := Str(message)], "data", data))])
  }

  /** What is written is read back as it was. */
  lemma MessageRoundTrip(m: Rpc)
    ensures ToJsonRpcMessage(FromMessage(m)) == Some(m)
  {
    match m
    case Call(id, name, params) =>
      var v := FromMessage(m);
      assert Field(v, "id") == FromOptionalId(id) && Field(v, "params") == params;
    case Success(id, result) =>
    case Failure(id, code, message, data) =>
      var e := Field(FromMessage(m), "error").value;
      assert Field(e, "data") == data;
  }

  /** A record with an error is never read as anything else, and one with a result never as a call. */
  lemma OneKindOfMessage(v: Json)
    requires ToJsonRpcMessage(v).Some?
    ensures ToJsonRpcMessage(v).value.Failure? <==> Field(v, "error").Some?
    ensures ToJsonRpcMessage(v).value.Call? <==> Field(v, "error") == None && Field(v, "method").Some?
    ensures ToJsonRpcMessage(v).value.Call? ==> Field(v, "result") == None
  {
  }

  // Frames on lines.

  /** `isNumber`: which texts are the decimal text of a number that is not whole. */
  datatype Codec = Codec(stringify: Json -> Text, parse: Text -> Option<Json>, isNumber: string -> bool)

  const SAFE_INTEGERS: nat := 0x20_0000_0000_0000

  predicate IsSafe(n: int) { n < SAFE_INTEGERS && -n < SAFE_INTEGERS }

  /** A value the codec's language has. */
  ghost predicate IsValue(c: Codec, v: Json) {
    match v
    case Whole(n) => IsSafe(n)
    case Fraction(decimal) => c.isNumber(decimal)
    case Arr(items) => forall k :: 0 <= k < |items| ==> IsValue(c, items[k])
    case Obj(fields) => forall k :: k in fields ==> IsValue(c, fields[k])
    case _ => true
  }

  ghost predicate AreValues(c: Codec, v: Option<Json>) {
    v.Some? ==> IsValue(c, v.value)
  }

  predicate IsSafeId(id: RpcId) {
    id.IdNumber? ==> IsSafe(id.n)
  }

  /** A message of such values. */
  ghost predicate IsMessage(c: Codec, m: Rpc) {
    match m
    case Call(id, _, params) => (id.Some? ==> IsSafeId(id.value)) && AreValues(c, params)
    case Success(id, result) => IsSafeId(id) && IsValue(c, result)
    case Failure(id, code, _, data) => (id.Some? ==> IsSafeId(id.value)) && IsSafe(code) && AreValues(c, data)
  }

  lemma MessageIsValue(c: Codec, m: Rpc)
    requires IsMessage(c, m)
    ensures IsValue(c, FromMessage(m))
  {
    if m.Failure? {
      assert IsValue(c, FromMessage(m).fields["error"]);
    }
  }

  function Wrapper(s: nat, m: Json): Json {
    Obj(map["s" := Whole(s), "m" := m])
  }

  /** Of every value: parsing undoes writing, no raw newline is written, and a stream's wrapper adds little. */
  ghost predicate Lawful(c: Codec) {
    && (forall v :: IsValue(c, v) ==> c.parse(c.stringify(v)) == Some(v) && LF !in c.stringify(v))
    && (forall s: nat, m :: s < SAFE_INTEGERS && IsValue(c, m) ==>
          ByteLength(c.stringify(Wrapper(s, m))) <= ByteLength(c.stringify(m)) + 512)
  }

  /** The line of a frame, or nothing when its message is over the bound. */
  function EncodeFrame(c: Codec, f: Frame): Option<Text> {
    if ByteLength(c.stringify(FromMessage(f.m))) > MAX_MESSAGE_BYTES then None
    else Some(c.stringify(Wrapper(f.s, FromMessage(f.m))) + [LF])
  }

  function DecodeFrame(c: Codec, line: Text): Decoded {
    var parsed := c.parse(line);
    if parsed == None || !parsed.value.Obj? then Malformed(None)
    else
      var stream, message := Field(parsed.value, "s"), Field(parsed.value, "m");
      if stream == None || !stream.value.Whole? || stream.value.n < 0 then Malformed(None)
      else if message == None then Malformed(Some(stream.value.n))
      else if ByteLength(c.stringify(message.value)) > MAX_MESSAGE_BYTES then OversizeMessage(stream.value.n)
      else if ToJsonRpcMessage(message.value) == None then Malformed(Some(stream.value.n))
      else Ok(Frame(stream.value.n, ToJsonRpcMessage(message.value).value))
  }

  ghost predicate IsFrame(c: Codec, f: Frame) {
    f.s < SAFE_INTEGERS && IsMessage(c, f.m)
  }

  /** A frame within the bound is a line without a newline in it, within the line bound, that decodes to it. */
  lemma FrameRoundTrip(c: Codec, f: Frame)
    requires Lawful(c) && IsFrame(c, f) && EncodeFrame(c, f).Some?
    ensures var line := c.stringify(Wrapper(f.s, FromMessage(f.m)));
            && EncodeFrame(c, f) == Some(line + [LF]) && LF !in line && ByteLength(line) <= MAX_FRAME_BYTES
            && DecodeFrame(c, line) == Ok(f)
  {
    MessageRoundTrip(f.m);
    MessageIsValue(c, f.m);
    WrapperReads(c, f.s, FromMessage(f.m));
    hide FromMessage, ToJsonRpcMessage, ByteLength, IsMessage, Lawful, IsValue, Wrapper, Field;
  }

  /** A wrapped value is written as one line, little longer, and parses to a record of its two fields. */
  lemma WrapperReads(c: Codec, s: nat, m: Json)
    requires Lawful(c) && s < SAFE_INTEGERS && IsValue(c, m)
    ensures var line := c.stringify(Wrapper(s, m));
            && LF !in line && ByteLength(line) <= ByteLength(c.stringify(m)) + 512
            && c.parse(line) == Some(Wrapper(s, m)) && Wrapper(s, m).Obj?
            && Field(Wrapper(s, m), "s") == Some(Whole(s)) && Field(Wrapper(s, m), "m") == Some(m)
  {
    hide ByteLength;
    assert IsValue(c, Wrapper(s, m));
  }

  /** The decoder tells an oversize message apart from every other bad line, by the stream it names. */
  lemma OversizeNamesItsStream(c: Codec, s: nat, m: Json)
    requires Lawful(c) && s < SAFE_INTEGERS && IsValue(c, m) && ByteLength(c.stringify(m)) > MAX_MESSAGE_BYTES
    ensures DecodeFrame(c, c.stringify(Wrapper(s, m))) == OversizeMessage(s)
  {
    WrapperReads(c, s, m);
    hide ToJsonRpcMessage, ByteLength, Lawful, IsValue, Wrapper, Field;
  }

  // Whole streams of frames.

  function LineOf(c: Codec, f: Frame): Text {
    c.stringify(Wrapper(f.s, FromMessage(f.m)))
  }

  function LinesOf(c: Codec, frames: seq<Frame>): (lines: seq<Text>)
    ensures |lines| == |frames| && forall k :: 0 <= k < |frames| ==> lines[k] == LineOf(c, frames[k])
  {
    seq(|frames|, k requires 0 <= k < |frames| => LineOf(c, frames[k]))
  }

  /** What a sender writes for a sequence of frames. */
  function Encoded(c: Codec, frames: seq<Frame>): Text {
    if frames == [] then [] else Encoded(c, frames[..|frames| - 1]) + (LineOf(c, frames[|frames| - 1]) + [LF])
  }

  ghost predicate Sendable(c: Codec, frames: seq<Frame>) {
    forall k :: 0 <= k < |frames| ==> IsFrame(c, frames[k]) && EncodeFrame(c, frames[k]).Some?
  }

  /** The frames a receiver takes from the framer's events. */
  function DecodedAll(c: Codec, events: seq<FramerEvent>): seq<Decoded> {
    if events == [] then []
    else
      var last := events[|events| - 1];
      DecodedAll(c, events[..|events| - 1]) + if last.Line? then [DecodeFrame(c, last.line)] else []
  }

  function AllOk(frames: seq<Frame>): seq<Decoded> {
    seq(|frames|, k requires 0 <= k < |frames| => Ok(frames[k]))
  }

  /** The lines of what was written are the frames' lines, and nothing is unfinished. */
  lemma {:induction false} EncodedLines(c: Codec, frames: seq<Frame>)
    requires Lawful(c) && Sendable(c, frames)
    ensures EndedLines(Encoded(c, frames)) == LinesOf(c, frames) && Tail(Encoded(c, frames)) == []
    decreases |frames|
  {
    hide LineOf, EncodeFrame, IsFrame, Lawful;
    if frames == [] {
    } else {
      var front, last := frames[..|frames| - 1], frames[|frames| - 1];
      EncodedLines(c, front);
      var t, line := Encoded(c, front), LineOf(c, last);
      LineHasNoNewline(c, last);
      hide Tail, EndedLines;
      BodyFollows(t, line);
      NewlineFollows(t + line);
      assert t + line + [LF] == t + (line + [LF]) && [] + line == line;
      assert LinesOf(c, frames) == LinesOf(c, front) + [line];
    }
  }

  lemma LineHasNoNewline(c: Codec, f: Frame)
    requires Lawful(c) && IsFrame(c, f) && EncodeFrame(c, f).Some?
    ensures LF !in LineOf(c, f)
  {
    hide Lawful;
    FrameRoundTrip(c, f);
  }

  /** The events that report the frames' lines decode to the frames. */
  lemma {:induction false} LinesDecode(c: Codec, frames: seq<Frame>, events: seq<FramerEvent>)
    requires Lawful(c) && Sendable(c, frames) && |events| == |frames|
    requires forall k :: 0 <= k < |frames| ==> events[k] == Line(LineOf(c, frames[k]))
    ensures DecodedAll(c, events) == AllOk(frames)
    decreases |frames|
  {
    hide Lawful, EncodeFrame, IsFrame, DecodeFrame;
    if frames != [] {
      var n := |frames| - 1;
      LinesDecode(c, frames[..n], events[..n]);
      FrameRoundTrip(c, frames[n]);
      assert AllOk(frames) == AllOk(frames[..n]) + [Ok(frames[n])];
    }
  }

  /** Fewer lines than events decode to fewer frames. */
  lemma {:induction false} OversizeIsMissed(c: Codec, events: seq<FramerEvent>, k: nat)
    requires k < |events| && events[k] == Oversize
    ensures |DecodedAll(c, events)| < |events|
    decreases |events|
  {
    hide DecodeFrame;
    var n := |events| - 1;
    if k < n {
      OversizeIsMissed(c, events[..n], k);
    } else {
      AtMostOneEach(c, events[..n]);
    }
  }

  lemma {:induction false} AtMostOneEach(c: Codec, events: seq<FramerEvent>)
    ensures |DecodedAll(c, events)| <= |events|
    decreases |events|
  {
    hide DecodeFrame;
    if events != [] {
      AtMostOneEach(c, events[..|events| - 1]);
    }
  }

  /** Every frame's line fits the bound as the framer counts it. */
  ghost predicate AllFit(log: Log) {
    forall k :: 0 <= k < |log.done| ==> log.done[k].Weight() <= MAX_FRAME_BYTES
  }

  /**
   However the text is chunked on its way, the receiver decodes exactly the frames that were sent if and only
   if every line fits the bound with its split pairs counted as halves; chunks that split none always do.
   */
  lemma ChunkedFrames(c: Codec, frames: seq<Frame>, chunks: seq<Text>)
    requires Lawful(c) && Sendable(c, frames) && Concat(chunks) == Encoded(c, frames)
    ensures var log := AfterChunks(chunks);
            && (DecodedAll(c, Reports(log, MAX_FRAME_BYTES)) == AllOk(frames) <==> AllFit(log))
            && (Unsplit(chunks) ==> AllFit(log))
  {
    hide Lawful, EncodeFrame, IsFrame, DecodeFrame, DecodedAll, AfterChunks, Concat, ByteLength, Tail, EndedLines;
    var log, events := AfterChunks(chunks), Reports(AfterChunks(chunks), MAX_FRAME_BYTES);
    ChunksLog(chunks);
    EncodedLines(c, frames);
    NothingUnfinished(log, chunks);
    assert |log.done| == |Texts(log.done)| == |frames|;
    assert events == ReportsOf(log.done, MAX_FRAME_BYTES) + [];
    forall k | 0 <= k < |frames|
      ensures log.done[k].text == LineOf(c, frames[k]) && ByteLength(log.done[k].text) <= MAX_FRAME_BYTES
    {
      assert Texts(log.done)[k] == LinesOf(c, frames)[k];
      FrameRoundTrip(c, frames[k]);
    }
    if AllFit(log) {
      LinesDecode(c, frames, events);
    } else {
      var k :| 0 <= k < |log.done| && log.done[k].Weight() > MAX_FRAME_BYTES;
      OversizeIsMissed(c, events, k);
    }
    if Unsplit(chunks) {
      UnsplitLog(chunks);
    }
  }

  /** A text that ends in a newline leaves nothing unfinished, and no split counted. */
  lemma NothingUnfinished(log: Log, chunks: seq<Text>)
    requires log == AfterChunks(chunks) && Logs(log, Concat(chunks)) && Tail(Concat(chunks)) == []
    ensures log.tail.Weight() == 0
  {
    NoBytes();
    EmptyTailUnsplit(chunks);
  }

  lemma {:induction false} EmptyTailUnsplit(chunks: seq<Text>)
    ensures AfterChunks(chunks).tail.text == [] ==> AfterChunks(chunks).tail.splits == 0
    decreases |chunks|
  {
    if chunks != [] {
      EmptyTailUnsplit(chunks[..|chunks| - 1]);
      EmptyTailAfter(AfterChunks(chunks[..|chunks| - 1]), chunks[|chunks| - 1]);
    }
  }

  lemma {:induction false} EmptyTailAfter(log: Log, chunk: Text)
    requires log.tail.text == [] ==> log.tail.splits == 0
    ensures AfterChunk(log, chunk).tail.text == [] ==> AfterChunk(log, chunk).tail.splits == 0
    decreases |chunk|
  {
    if chunk != [] {
      var at := IndexFrom(chunk, LF, 0);
      if at < |chunk| {
        EmptyTailAfter(AfterPiece(log, chunk[..at], true), chunk[at + 1..]);
      }
    }
  }

  /** A receiver: every chunk through the framer, every line through the decoder. */
  method Receive(c: Codec, chunks: seq<Text>) returns (events: seq<FramerEvent>, decoded: seq<Decoded>)
    ensures events == Reports(AfterChunks(chunks), MAX_FRAME_BYTES)
    ensures decoded == DecodedAll(c, events)
  {
    hide Reports, DecodeFrame;
    var framer := new LineFramer(MAX_FRAME_BYTES);
    events, decoded := [], [];
    assert Reports(NewLog, MAX_FRAME_BYTES) == [] by { NothingReported(); }
    var k := 0;
    while k < |chunks|
      invariant 0 <= k <= |chunks| && framer.Valid() && framer.max == MAX_FRAME_BYTES && fresh(framer)
      invariant framer.log == AfterChunks(chunks[..k])
      invariant events == Reports(framer.log, MAX_FRAME_BYTES) && decoded == DecodedAll(c, events)
    {
      assert chunks[..k + 1][..k] == chunks[..k];
      var more := framer.Push(chunks[k]);
      decoded := DecodeMore(c, events, decoded, more);
      events := events + more;
      k := k + 1;
    }
    assert chunks[..k] == chunks;
  }

  method DecodeMore(c: Codec, events: seq<FramerEvent>, decoded: seq<Decoded>,
      more: seq<FramerEvent>) returns (all: seq<Decoded>)
    requires decoded == DecodedAll(c, events)
    ensures all == DecodedAll(c, events + more)
  {
    hide DecodeFrame;
    all := decoded;
    assert events + more[..0] == events;
    for j := 0 to |more|
      invariant all == DecodedAll(c, events + more[..j])
    {
      assert (events + more[..j + 1])[..|events| + j] == events + more[..j];
      if more[j].Line? { all := all + [DecodeFrame(c, more[j].line)]; }
    }
    assert more[..|more|] == more;
  }

  lemma NothingReported()
    ensures Reports(NewLog, MAX_FRAME_BYTES) == []
  {
    NoBytes();
  }
}
