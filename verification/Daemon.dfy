/**
 The daemon's session over its multiplexer: the handshake gate, the operations it runs, and the answers it
 writes. `mux.sent` holds the frames written; a frame over the byte bound is not written but refused.
 */
module Daemon {
  import opened Text
  import opened Multiplexer

  const PROTOCOL_VERSION := 1

  datatype EndReason = Stopped | InputEnded | HeartbeatLost | IncompatibleVersion | ProtocolError

  /** The answers the session itself gives, and what it reads out of a request. */
  datatype Config<!J> = Config(
    readVersion: Option<J> -> Option<int>,
    readBudget: Option<J> -> Option<int>,
    isOperation: string -> bool,
    keepsOpen: string -> bool,
    hello: J,
    badParams: J,
    incompatible: J,
    noHandshake: J,
    unknownMethod: J,
    exhausted: J,
    badFrame: J,
    tooLarge: J)

  datatype Session<J> = Session(
    mux: Mux<J>,
    helloed: bool,
    ended: Option<EndReason>,
    /** Operations in flight: the stream each answers on, and whether its stream outlives the answer. */
    running: map<nat, bool>,
    /** History: the streams an operation started on, and those whose operation keeps its stream. */
    started: set<nat>,
    keepers: set<nat>)

  /** How an operation ended; `expired` is whether its budget ran out first. */
  datatype Ending<J> = Returned(value: J) | Threw(error: J)

  datatype Input<J> =
    | OversizeLine
    | Decoded(frame: Frame<J>)
    /** A line that is no frame; a stream it names is refused. */
    | Undecoded(named: Option<nat>)

  datatype Event<J> =
    /** `fits`: whether the answer given while the line is handled is within the byte bound. */
    | Line(input: Input<J>, fits: bool)
    | Finished(stream: nat, ending: Ending<J>, expired: bool, fits: bool)
    | Says(stream: nat, name: string, params: Option<J>, fits: bool)
    | Closes(stream: nat)
    | Ends(reason: EndReason)

  function SuccessOf<J>(v: J): Id -> Message<J> { (id: Id) => Success(id, v) }

  function FailureOf<J>(e: J): Id -> Message<J> { (id: Id) => Failure(Some(id), e) }

  /** A frame goes out, or its stream is refused for it when it is too large. */
  function Written<J>(m: Mux<J>, sid: nat, message: Message<J>, fits: bool, tooLarge: J): Mux<J> {
    if fits then m.SendOnStream(sid, message) else m.RefuseStream(sid, tooLarge)
  }

  /** Answers the request `sid` carries, if it still carries one. */
  function Reply<J>(m: Mux<J>, sid: nat, build: Id -> Message<J>, fits: bool, tooLarge: J): Mux<J> {
    if m.Get(sid) == None || m.Get(sid).value.replyId == None then m
    else
      var st := m.Get(sid).value;
      Written(if sid == CONTROL_STREAM_ID then m.Put(sid, st.(replyId := None)) else m, sid, build(st.replyId.value),
        fits, tooLarge)
  }

  /** Answers with an error and closes the stream; the control stream stays. */
  function RefuseOn<J>(m: Mux<J>, sid: nat, error: J, fits: bool, tooLarge: J): Mux<J> {
    Reply(m, sid, FailureOf(error), fits, tooLarge).CloseStream(sid, Closed)
  }

  function EndWith<J>(s: Session<J>, reason: EndReason): Session<J> {
    if s.ended.Some? then s else s.(ended := Some(reason), mux := s.mux.CloseSession())
  }

  function Hello<J>(c: Config<J>, s: Session<J>, params: Option<J>, fits: bool): Session<J> {
    var version := c.readVersion(params);
    if version == None then s.(mux := RefuseOn(s.mux, CONTROL_STREAM_ID, c.badParams, fits, c.tooLarge))
    else if version.value != PROTOCOL_VERSION then
      EndWith(s.(mux := Reply(s.mux, CONTROL_STREAM_ID, FailureOf(c.incompatible), fits, c.tooLarge)),
        IncompatibleVersion)
    else s.(helloed := true, mux := Reply(s.mux, CONTROL_STREAM_ID, SuccessOf(c.hello), fits, c.tooLarge))
  }

  function RunOperation<J>(c: Config<J>, s: Session<J>, sid: nat, name: string, params: Option<J>,
      fits: bool): Session<J> {
    var budget := c.readBudget(params);
    if budget == None then s.(mux := RefuseOn(s.mux, sid, c.badParams, fits, c.tooLarge))
    else if budget.value <= 0 then s.(mux := RefuseOn(s.mux, sid, c.exhausted, fits, c.tooLarge))
    else s.(running := s.running[sid := c.keepsOpen(name)], started := s.started + {sid},
            keepers := if c.keepsOpen(name) then s.keepers + {sid} else s.keepers)
  }

  function HandleRequest<J>(c: Config<J>, s: Session<J>, sid: nat, name: string, params: Option<J>,
      fits: bool): Session<J> {
    if sid == CONTROL_STREAM_ID then Hello(c, s, params, fits)
    else if !s.helloed then s.(mux := RefuseOn(s.mux, sid, c.noHandshake, fits, c.tooLarge))
    else if !c.isOperation(name) then s.(mux := RefuseOn(s.mux, sid, c.unknownMethod, fits, c.tooLarge))
    else RunOperation(c, s, sid, name, params, fits)
  }

  function HandleLine<J>(c: Config<J>, s: Session<J>, input: Input<J>, fits: bool): Session<J> {
    match input
    case OversizeLine => EndWith(s, ProtocolError)
    case Undecoded(named) => if named == None then s else s.(mux := s.mux.RefuseStream(named.value, c.badFrame))
    case Decoded(frame) =>
      var r := s.mux.HandleFrame(frame);
      var s' := s.(mux := r.mux);
      if r.delivery.Handled? && r.delivery.request.Request?
      then HandleRequest(c, s', r.delivery.stream, r.delivery.request.name, r.delivery.request.params, fits)
      else s'
  }

  /** The answer of an operation and, unless it keeps its stream, the end of the stream. */
  function FinishOperation<J>(c: Config<J>, s: Session<J>, sid: nat, ending: Ending<J>, expired: bool,
      fits: bool): Session<J> {
    if sid !in s.running then s
    else
      var m :=
        if expired then RefuseOn(s.mux, sid, c.exhausted, fits, c.tooLarge)
        else if ending.Threw? then RefuseOn(s.mux, sid, ending.error, fits, c.tooLarge)
        else Reply(s.mux, sid, SuccessOf(ending.value), fits, c.tooLarge);
      s.(running := s.running - {sid}, mux := if s.running[sid] then m else m.CloseStream(sid, Closed))
  }

  function Happens<J>(c: Config<J>, s: Session<J>, event: Event<J>): Session<J> {
    match event
    case Line(input, fits) => HandleLine(c, s, input, fits)
    case Finished(sid, ending, expired, fits) => FinishOperation(c, s, sid, ending, expired, fits)
    case Says(sid, name, params, fits) => s.(mux := Written(s.mux, sid, Notification(name, params), fits, c.tooLarge))
    case Closes(sid) => s.(mux := s.mux.CloseStream(sid, Closed))
    case Ends(reason) => EndWith(s, reason)
  }

  function NewSession<J>(capError: J): Session<J> {
    Session(NewMux(true, MAX_CONCURRENT_STREAMS, capError), false, None, map[], {}, {})
  }
}
