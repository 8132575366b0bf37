/**
 The frames of an endpoint on the wire: its messages as JSON-RPC, through the codec and the framer to the
 other side, and what becomes of an answer that is too large to be written.
 */
module Wire {
  import opened Text
  import opened Multiplexer
  import opened OutputBound
  import Framer
  import FrameCodec
  import Daemon
  import Decoding

  /** What an endpoint passes through: a result or parameters, or an error. */
  datatype Payload = Data(json: FrameCodec.Json) | Problem(code: int, message: string, data: Option<FrameCodec.Json>)

  function ToRpcId(id: Id): FrameCodec.RpcId {
    match id
    case Number(n) => FrameCodec.IdNumber(n)
    case Name(s) => FrameCodec.IdText(s)
  }

  function FromRpcId(id: FrameCodec.RpcId): Id {
    match id
    case IdNumber(n) => Number(n)
    case IdText(s) => Name(s)
  }

  /** A message as an endpoint makes it: an error is an error, and everything else is data. */
  predicate WellFormed(m: Message<Payload>) {
    match m
    case Request(_, _, params) => params.Some? ==> params.value.Data?
    case Notification(_, params) => params.Some? ==> params.value.Data?
    case Success(_, result) => result.Data?
    case Failure(_, error) => error.Problem?
  }

  function Params(params: Option<Payload>): Option<FrameCodec.Json>
    requires params.Some? ==> params.value.Data?
  {
    if params.Some? then Some(params.value.json) else None
  }

  function ToRpc(m: Message<Payload>): FrameCodec.Rpc
    requires WellFormed(m)
  {
    match m
    case Request(id, name, params) => FrameCodec.Call(Some(ToRpcId(id)), name, Params(params))
    case Notification(name, params) => FrameCodec.Call(None, name, Params(params))
    case Success(id, result) => FrameCodec.Success(ToRpcId(id), result.json)
    case Failure(id, error) =>
      FrameCodec.Failure(if id.Some? then Some(ToRpcId(id.value)) else None, error.code, error.message, error.data)
  }

  function FromRpc(m: FrameCodec.Rpc): Message<Payload> {
    match m
    case Call(id, name, params) =>
      var data := if params.Some? then Some(Data(params.value)) else None;
      if id.Some? then Request(FromRpcId(id.value), name, data) else Notification(name, data)
    case Success(id, result) => Success(FromRpcId(id), Data(result))
    case Failure(id, code, message, data) =>
      Failure(if id.Some? then Some(FromRpcId(id.value)) else None, Problem(code, message, data))
  }

  /** An endpoint's messages and the codec's are the same, one for one. */
  lemma SameMessages(m: Message<Payload>, r: FrameCodec.Rpc)
    ensures WellFormed(m) ==> FromRpc(ToRpc(m)) == m
    ensures WellFormed(FromRpc(r)) && ToRpc(FromRpc(r)) == r
  {
  }

  function ToFrame(f: Frame<Payload>): FrameCodec.Frame
    requires WellFormed(f.m)
  {
    FrameCodec.Frame(f.s, ToRpc(f.m))
  }

  function FromFrame(f: FrameCodec.Frame): Frame<Payload> {
    Frame(f.s, FromRpc(f.m))
  }

  // From one endpoint to the other.

  ghost predicate AllWellFormed(sent: seq<Frame<Payload>>) {
    forall k :: 0 <= k < |sent| ==> WellFormed(sent[k].m)
  }

  function ToFrames(sent: seq<Frame<Payload>>): (frames: seq<FrameCodec.Frame>)
    requires AllWellFormed(sent)
    ensures |frames| == |sent| && forall k :: 0 <= k < |sent| ==> frames[k] == ToFrame(sent[k])
  {
    seq(|sent|, k requires 0 <= k < |sent| => ToFrame(sent[k]))
  }

  /** An endpoint takes what the decoder gives: a frame, or the refusal of the stream a bad line names. */
  function TakeDecoded(m: Mux<Payload>, d: FrameCodec.Decoded, badFrame: Payload): Mux<Payload> {
    match d
    case Ok(frame) => m.HandleFrame(FromFrame(frame)).mux
    case Malformed(named) => if named.Some? then m.RefuseStream(named.value, badFrame) else m
    case OversizeMessage(sid) => m.RefuseStream(sid, badFrame)
  }

  function TakeAllDecoded(m: Mux<Payload>, ds: seq<FrameCodec.Decoded>, badFrame: Payload): Mux<Payload> {
    if ds == [] then m else TakeDecoded(TakeAllDecoded(m, ds[..|ds| - 1], badFrame), ds[|ds| - 1], badFrame)
  }

  /** The same endpoint, handed the sender's frames themselves. */
  function TakeAll(m: Mux<Payload>, frames: seq<Frame<Payload>>): Mux<Payload> {
    if frames == [] then m else TakeAll(m, frames[..|frames| - 1]).HandleFrame(frames[|frames| - 1]).mux
  }

  lemma {:induction false} TakenAsSent(m: Mux<Payload>, sent: seq<Frame<Payload>>, badFrame: Payload)
    requires AllWellFormed(sent)
    ensures TakeAllDecoded(m, FrameCodec.AllOk(ToFrames(sent)), badFrame) == TakeAll(m, sent)
    decreases |sent|
  {
    hide Mux.HandleFrame;
    if sent != [] {
      var n := |sent| - 1;
      TakenAsSent(m, sent[..n], badFrame);
      var ds := FrameCodec.AllOk(ToFrames(sent));
      assert ds[..n] == FrameCodec.AllOk(ToFrames(sent[..n]));
      SameMessages(sent[n].m, ToRpc(sent[n].m));
    }
  }

  /**
   What an endpoint sends, encoded, cut into any chunks that keep every line within the framer's bound,
   framed and decoded, leaves the other endpoint as if it had been handed the frames themselves; chunks
   that split no surrogate pair always do.
   */
  lemma EndToEnd(c: FrameCodec.Codec, sent: seq<Frame<Payload>>, chunks: seq<Text>, receiver: Mux<Payload>,
      badFrame: Payload)
    requires FrameCodec.Lawful(c) && AllWellFormed(sent) && FrameCodec.Sendable(c, ToFrames(sent))
    requires Concat(chunks) == FrameCodec.Encoded(c, ToFrames(sent))
    requires FrameCodec.AllFit(Framer.AfterChunks(chunks)) || Framer.Unsplit(chunks)
    ensures var events := Framer.Reports(Framer.AfterChunks(chunks), FrameCodec.MAX_FRAME_BYTES);
            TakeAllDecoded(receiver, FrameCodec.DecodedAll(c, events), badFrame) == TakeAll(receiver, sent)
  {
    hide FrameCodec.Lawful, FrameCodec.Sendable, FrameCodec.Encoded, FrameCodec.DecodedAll, FrameCodec.AllFit;
    hide Framer.AfterChunks, Framer.Reports, Framer.Unsplit, Concat;
    FrameCodec.ChunkedFrames(c, ToFrames(sent), chunks);
    TakenAsSent(receiver, sent, badFrame);
  }

  // Chunks of bytes.

  /** What a decoder gives for each of the chunks. */
  function Texts(d: Decoding.Decoder, chunks: seq<seq<Decoding.Byte>>): (texts: seq<Text>)
    requires Decoding.Lawful(d)
    ensures |texts| == |chunks|
  {
    if chunks == [] then []
    else
      var before, chunk := Concat(chunks[..|chunks| - 1]), chunks[|chunks| - 1];
      Decoding.AddedFollows(d, before, chunk);
      Texts(d, chunks[..|chunks| - 1]) + [Decoding.AddedText(d, before, chunk)]
  }

  lemma {:induction false} TextsTogether(d: Decoding.Decoder, chunks: seq<seq<Decoding.Byte>>)
    requires Decoding.Lawful(d)
    ensures Concat(Texts(d, chunks)) == d.text(Concat(chunks))
    decreases |chunks|
  {
    if chunks != [] {
      var front, chunk := chunks[..|chunks| - 1], chunks[|chunks| - 1];
      TextsTogether(d, front);
      Decoding.AddedFollows(d, Concat(front), chunk);
      var texts := Texts(d, chunks);
      assert texts[..|texts| - 1] == Texts(d, front);
    }
  }

  lemma {:induction false} TextsBefore(d: Decoding.Decoder, chunks: seq<seq<Decoding.Byte>>, k: nat)
    requires Decoding.Lawful(d) && k < |chunks|
    ensures Decoding.EndsWhole(Concat(Texts(d, chunks)[..k]))
      && !Joins(Concat(Texts(d, chunks)[..k]), Texts(d, chunks)[k])
    decreases |chunks|
  {
    hide Concat;
    var n := |chunks| - 1;
    assert Texts(d, chunks)[..n] == Texts(d, chunks[..n]);
    if k < n {
      TextsBefore(d, chunks[..n], k);
      assert Texts(d, chunks)[..k] == Texts(d, chunks[..n])[..k];
    } else {
      TextsTogether(d, chunks[..n]);
      Decoding.AddedFollows(d, Concat(chunks[..n]), chunks[n]);
    }
  }

  lemma {:induction false} TailEnds(t: Text)
    ensures Tail(t) == [] || (t != [] && Tail(t)[|Tail(t)| - 1] == t[|t| - 1])
  {
  }

  /** Bytes, however chunked, never reach the framer as a split pair. */
  lemma BytesNeverSplit(d: Decoding.Decoder, chunks: seq<seq<Decoding.Byte>>)
    requires Decoding.Lawful(d)
    ensures Framer.Unsplit(Texts(d, chunks)) && Concat(Texts(d, chunks)) == d.text(Concat(chunks))
  {
    hide Concat, Texts, Decoding.Lawful, Tail;
    TextsTogether(d, chunks);
    var texts := Texts(d, chunks);
    forall k | 0 <= k < |texts| ensures !Joins(Tail(Concat(texts[..k])), texts[k]) {
      TextsBefore(d, chunks, k);
      TailEnds(Concat(texts[..k]));
    }
  }

  /** So bytes that decode to what was sent leave the other endpoint as if handed the frames, however they are cut. */
  lemma BytesEndToEnd(c: FrameCodec.Codec, sent: seq<Frame<Payload>>, d: Decoding.Decoder,
      chunks: seq<seq<Decoding.Byte>>, receiver: Mux<Payload>, badFrame: Payload)
    requires FrameCodec.Lawful(c) && AllWellFormed(sent) && FrameCodec.Sendable(c, ToFrames(sent))
    requires Decoding.Lawful(d) && d.text(Concat(chunks)) == FrameCodec.Encoded(c, ToFrames(sent))
    ensures var events := Framer.Reports(Framer.AfterChunks(Texts(d, chunks)), FrameCodec.MAX_FRAME_BYTES);
            TakeAllDecoded(receiver, FrameCodec.DecodedAll(c, events), badFrame) == TakeAll(receiver, sent)
  {
    hide FrameCodec.Lawful, FrameCodec.Sendable, Decoding.Lawful, Framer.Unsplit;
    BytesNeverSplit(d, chunks);
    EndToEnd(c, sent, Texts(d, chunks), receiver, badFrame);
  }

  // Answers that are too large.

  /** The refusal of a stream that is open: under the id of its request, or the stream's number. */
  function Refusal<J>(m: Mux<J>, sid: nat, error: J): Message<J>
    requires m.IsOpen(sid)
  {
    var st := m.Get(sid).value;
    Failure(Some(if st.replyId.Some? then st.replyId.value else Number(sid)), error)
  }

  /**
   Writing a frame: one that does not fit makes its stream be refused, and the refusal is written the same
   way, before the stream closes. `depth` is how many such calls the stack holds; nothing comes of more.
   */
  function WriteFrame<J>(m: Mux<J>, fits: Frame<J> -> bool, sid: nat, message: Message<J>, tooLarge: J,
      depth: nat): Option<Mux<J>>
    decreases depth
  {
    if depth == 0 then None
    else if fits(Frame(sid, message)) then Some(m.Send(sid, message))
    else if !m.IsOpen(sid) then Some(m)
    else
      var refused := WriteFrame(m, fits, sid, Refusal(m, sid, tooLarge), tooLarge, depth - 1);
      if refused == None then None else Some(refused.value.CloseStream(sid, Closed))
  }

  /** The frame fits, or its stream is closed already, or the refusal under the request's own id fits. */
  predicate CanWrite<J>(m: Mux<J>, fits: Frame<J> -> bool, sid: nat, message: Message<J>, tooLarge: J) {
    fits(Frame(sid, message)) || !m.IsOpen(sid) || fits(Frame(sid, Refusal(m, sid, tooLarge)))
  }

  /** A refusal that does not fit is refused in turn, and so on, however deep the stack. */
  lemma {:induction false} RefusedForever<J>(m: Mux<J>, fits: Frame<J> -> bool, sid: nat, message: Message<J>,
      tooLarge: J, depth: nat)
    requires !CanWrite(m, fits, sid, message, tooLarge)
    ensures WriteFrame(m, fits, sid, message, tooLarge, depth) == None
    decreases depth
  {
    if depth > 0 {
      RefusedForever(m, fits, sid, Refusal(m, sid, tooLarge), tooLarge, depth - 1);
    }
  }

  /**
   Writing ends exactly when the frame or its refusal fits, or the stream is not open. Then two calls are
   enough, and leave the frame written, or its stream refused and closed; on a stream that is not open a
   frame that does not fit is dropped.
   */
  lemma WriteEnds<J>(m: Mux<J>, fits: Frame<J> -> bool, sid: nat, message: Message<J>, tooLarge: J)
    ensures (exists depth: nat :: WriteFrame(m, fits, sid, message, tooLarge, depth).Some?) <==>
      CanWrite(m, fits, sid, message, tooLarge)
    ensures m.IsOpen(sid) && CanWrite(m, fits, sid, message, tooLarge) ==>
              forall depth: nat :: depth >= 2 ==>
                WriteFrame(m, fits, sid, message, tooLarge, depth)
                == Some(Daemon.Written(m, sid, message, fits(Frame(sid, message)), tooLarge))
    ensures !m.IsOpen(sid) ==>
              forall depth: nat :: depth >= 1 ==>
                WriteFrame(m, fits, sid, message, tooLarge, depth)
                == Some(if fits(Frame(sid, message)) then m.Send(sid, message) else m)
  {
    if CanWrite(m, fits, sid, message, tooLarge) {
      assert WriteFrame(m, fits, sid, message, tooLarge, 2).Some?;
    } else {
      forall depth: nat ensures WriteFrame(m, fits, sid, message, tooLarge, depth) == None {
        RefusedForever(m, fits, sid, message, tooLarge, depth);
      }
    }
  }

  /**
   The refusal at the stream cap, written so: when it does not fit it is dropped, and the id is spent all the
   same.
   */
  lemma CapRefusal<J>(m: Mux<J>, fits: Frame<J> -> bool, sid: nat, id: Id, name: string, params: Option<J>, tooLarge: J)
    requires m.accepts && !m.closed && sid != CONTROL_STREAM_ID && sid !in m.streams && sid !in m.closedIds
    requires |m.streams| >= m.maxOpenStreams
    ensures var refused := m.(closedIds := m.closedIds + {sid});
            var message := Failure(Some(id), m.capError);
            && WriteFrame(refused, fits, sid, message, tooLarge, 1)
               == Some(if fits(Frame(sid, message)) then m.HandleFrame(Frame(sid, Request(id, name, params))).mux
                 else refused)
            && (!fits(Frame(sid, message)) ==> refused.sent == m.sent)
  {
  }

  /** Whether an endpoint's frame is within the message bound. */
  function FitsBound(c: FrameCodec.Codec): Frame<Payload> -> bool {
    (f: Frame<Payload>) => WellFormed(f.m) && FrameCodec.EncodeFrame(c, ToFrame(f)).Some?
  }

  /**
   On the wire: an answer too large for the bound is refused in its place exactly when the error, written
   under the id the peer chose, is itself within the bound.
   */
  lemma RefusalNeedsRoom(c: FrameCodec.Codec, m: Mux<Payload>, sid: nat, message: Message<Payload>, tooLarge: Payload)
    requires m.IsOpen(sid) && WellFormed(message) && tooLarge.Problem? && !FitsBound(c)(Frame(sid, message))
    ensures (exists depth: nat :: WriteFrame(m, FitsBound(c), sid, message, tooLarge, depth).Some?)
       <==> ByteLength(c.stringify(FrameCodec.FromMessage(ToRpc(Refusal(m, sid, tooLarge)))))
            <= FrameCodec.MAX_MESSAGE_BYTES
  {
    WriteEnds(m, FitsBound(c), sid, message, tooLarge);
    hide ByteLength, FrameCodec.FromMessage, WriteFrame;
  }
}
