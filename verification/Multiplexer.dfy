/**
 One endpoint of the Machine wire protocol: numbered streams over one session, each carrying a single
 request, beside a control stream that carries many. `J` is the type of JSON values, which the
 multiplexer passes through.
 */
module Multiplexer {
  import opened Text

  const CONTROL_STREAM_ID: nat := 0
  const MAX_CONCURRENT_STREAMS: nat := 64
  const CANCEL_NOTIFICATION := "cancel"

  datatype Id = Number(n: int) | Name(s: string)

  datatype Message<J> =
    | Request(id: Id, name: string, params: Option<J>)
    | Notification(name: string, params: Option<J>)
    | Success(id: Id, result: J)
    | Failure(errorId: Option<Id>, error: J)
  {
    /** The id a response echoes; a request's or a notification's is of no interest to `Settle`. */
    function ResponseId(): Option<Id> {
      match this
      case Success(id, _) => Some(id)
      case Failure(id, _) => id
      case _ => None
    }
  }

  datatype Frame<J> = Frame(s: nat, m: Message<J>)

  datatype Reason = Closed | Cancelled

  /** How a request's promise was settled. */
  datatype Outcome<J> =
    | Resolved(value: J)
    | Failed(error: J)
    | StreamEnded(reason: Reason)
    | NotSent

  /** A request that waits for its answer: the id to match, and the number of the call it belongs to. */
  datatype Pending = Pending(id: Id, call: nat)

  datatype Stream = Stream(closed: bool, replyId: Option<Id>, pending: Option<Pending>, requests: nat)

  const NewStream := Stream(false, None, None, 0)

  /** What a received frame leads to beyond the state change. */
  datatype Delivery<J> =
    | Nothing
    | Handled(stream: nat, request: Message<J>)
    | Notified(stream: nat, notification: Message<J>)
    | Unknown

  datatype Received<J> = Received(mux: Mux<J>, delivery: Delivery<J>)

  datatype Mux<J> = Mux(
    /** The daemon passes a request handler; the hub does not. */
    accepts: bool,
    maxOpenStreams: nat,
    capError: J,
    streams: map<nat, Stream>,
    closedIds: set<nat>,
    control: Stream,
    nextId: nat,
    closed: bool,
    /** History: every frame handed to the sender, every request call, and how calls were settled. */
    sent: seq<Frame<J>>,
    calls: nat,
    settled: map<nat, Outcome<J>>)
  {
    /** The state of an open stream; a stream that is not open has none that matters. */
    function Get(sid: nat): Option<Stream> {
      if sid == CONTROL_STREAM_ID then Some(control)
      else if sid in streams then Some(streams[sid])
      else None
    }

    predicate IsOpen(sid: nat) {
      Get(sid).Some? && !Get(sid).value.closed
    }

    function Put(sid: nat, st: Stream): Mux<J> {
      if sid == CONTROL_STREAM_ID then this.(control := st) else this.(streams := streams[sid := st])
    }

    function Settled(pending: Option<Pending>, outcome: Outcome<J>): map<nat, Outcome<J>> {
      if pending.Some? then settled[pending.value.call := outcome] else settled
    }

    /** Ends an open numbered stream: its id is spent, and a request on it fails. */
    function CloseStream(sid: nat, reason: Reason): Mux<J> {
      if sid == CONTROL_STREAM_ID || sid !in streams then this
      else this.(streams := streams - {sid}, closedIds := closedIds + {sid},
                 settled := Settled(streams[sid].pending, StreamEnded(reason)))
    }

    /** A cancellation closes a numbered stream; the control stream only drops its request. */
    function CancelStream(sid: nat): Mux<J> {
      if sid != CONTROL_STREAM_ID then CloseStream(sid, Cancelled)
      else this.(control := control.(replyId := None, pending := None),
                 settled := Settled(control.pending, StreamEnded(Cancelled)))
    }

    function SettleStream(sid: nat, m: Message<J>): Mux<J> {
      if Get(sid) == None || Get(sid).value.pending == None then this
      else
        var st := Get(sid).value;
        var id := m.ResponseId();
        if id != Some(st.pending.value.id) then this
        else
          var st' := st.(pending := None, replyId := if sid == CONTROL_STREAM_ID then None else st.replyId);
          var outcome := if m.Success? then Resolved(m.result) else if m.Failure? then Failed(m.error) else NotSent;
          Put(sid, st').(settled := Settled(st.pending, outcome))
    }

    function ReceiveMessage(sid: nat, m: Message<J>): Received<J>
      requires Get(sid).Some?
    {
      if m.Request? || m.Notification? then
        if m.name == CANCEL_NOTIFICATION then Received(CancelStream(sid), Nothing)
        else if m.Notification? then Received(this, Notified(sid, m))
        else if sid == CONTROL_STREAM_ID && accepts then
          Received(this.(control := control.(replyId := Some(m.id))), Handled(sid, m))
        else Received(this, Nothing)
      else Received(SettleStream(sid, m), Nothing)
    }

    function HandleFrame(frame: Frame<J>): Received<J> {
      if closed then Received(this, Nothing)
      else if frame.s in streams || frame.s == CONTROL_STREAM_ID then ReceiveMessage(frame.s, frame.m)
      else if frame.s in closedIds || !accepts || !frame.m.Request? then Received(this, Unknown)
      else if |streams| >= maxOpenStreams then
        Received(this.(closedIds := closedIds + {frame.s}).Send(frame.s, Failure(Some(frame.m.id), capError)), Nothing)
      else
        Received(this.(streams := streams[frame.s := NewStream.(replyId := Some(frame.m.id))]),
          Handled(frame.s, frame.m))
    }

    function Send(sid: nat, m: Message<J>): Mux<J> {
      this.(sent := sent + [Frame(sid, m)])
    }

    function SendOnStream(sid: nat, m: Message<J>): Mux<J> {
      if IsOpen(sid) then Send(sid, m) else this
    }

    /** Answers the request a stream carries; the control stream answers each request once. */
    function Respond(sid: nat, build: Id -> Message<J>): Mux<J> {
      if Get(sid) == None || Get(sid).value.replyId == None then this
      else
        var st := Get(sid).value;
        (if sid == CONTROL_STREAM_ID then Put(sid, st.(replyId := None)) else this).SendOnStream(sid,
          build(st.replyId.value))
    }

    /** Whether a request on this stream is turned down. */
    predicate Refuses(sid: nat) {
      closed || !IsOpen(sid) || Get(sid).value.replyId.Some?
    }

    function RequestId(sid: nat): Id
      requires Get(sid).Some?
    {
      Number(if sid == CONTROL_STREAM_ID then Get(sid).value.requests else sid)
    }

    /**
     Sends a request. `aborted`: the caller's signal had already aborted. `oversize`: the sender refuses
     the message. A refused call settles at once and is not counted among the calls.
     */
    function RequestOn(sid: nat, name: string, params: Option<J>, aborted: bool, oversize: bool): Mux<J> {
      if closed || !IsOpen(sid) then this
      else if aborted then CancelStream(sid)
      else if Refuses(sid) then this
      else
        var st, id := Get(sid).value, RequestId(sid);
        if oversize
          then Put(sid, st.(requests := st.requests + 1)).(calls := calls + 1, settled := settled[calls := NotSent])
        else Put(sid, st.(requests := st.requests + 1, replyId := Some(id), pending := Some(Pending(id, calls))))
             .(calls := calls + 1).SendOnStream(sid, Request(id, name, params))
    }

    /** The signal of the request pending on a stream aborts. */
    function Abort(sid: nat): Mux<J> {
      if Get(sid) == None || Get(sid).value.pending == None then this
      else SendOnStream(sid, Notification(CANCEL_NOTIFICATION, None)).CancelStream(sid)
    }

    /** A new numbered stream; unchanged when the session is closed or full. */
    function OpenStream(): Mux<J> {
      if closed || |streams| >= maxOpenStreams then this
      else this.(streams := streams[nextId := NewStream], nextId := nextId + 1)
    }

    function RefuseStream(sid: nat, error: J): Mux<J> {
      if !IsOpen(sid) then this
      else
        var st := Get(sid).value;
        Send(sid, Failure(Some(if st.replyId.Some? then st.replyId.value else Number(sid)), error)).CloseStream(sid,
          Closed)
    }

    /** Every pending request fails, every open stream ends, and the session takes nothing more. */
    function CloseSession(): Mux<J> {
      if control.closed then this.(closed := true, streams := map[], closedIds := closedIds + streams.Keys,
                                   settled := FailAll(streams, settled))
      else this.(closed := true, streams := map[], closedIds := closedIds + streams.Keys,
                 control := control.(closed := true, pending := None),
                 settled := FailAll(streams, Settled(control.pending, StreamEnded(Closed))))
    }
  }

  /** The calls pending on numbered streams. */
  function PendingCalls(streams: map<nat, Stream>): set<nat> {
    set sid | sid in streams && streams[sid].pending.Some? :: streams[sid].pending.value.call
  }

  /** `settled` with every call pending on a stream failed by the session's end. */
  function FailAll<J>(streams: map<nat, Stream>, settled: map<nat, Outcome<J>>): map<nat, Outcome<J>> {
    map c | c in settled.Keys + PendingCalls(streams) :: if c in PendingCalls(streams) then StreamEnded(Closed)
      else settled[c]
  }

  function NewMux<J>(accepts: bool, maxOpenStreams: nat, capError: J): Mux<J> {
    Mux(accepts, maxOpenStreams, capError, map[], {}, NewStream, 1, false, [], 0, map[])
  }

  /** Everything that can happen at one endpoint. */
  datatype Step<!J> =
    | Open
    | Handle(frame: Frame<J>)
    | Call(stream: nat, name: string, params: Option<J>, aborted: bool, oversize: bool)
    | AbortCall(stream: nat)
    | Tell(stream: nat, name: string, params: Option<J>)
    | Answer(stream: nat, build: Id -> Message<J>)
    | CloseOne(stream: nat)
    | Refuse(stream: nat, error: J)
    | CloseAll

  function Apply<J>(m: Mux<J>, step: Step<J>): Mux<J> {
    match step
    case Open => m.OpenStream()
    case Handle(frame) => m.HandleFrame(frame).mux
    case Call(sid, name, params, aborted, oversize) => m.RequestOn(sid, name, params, aborted, oversize)
    case AbortCall(sid) => m.Abort(sid)
    case Tell(sid, name, params) => m.SendOnStream(sid, Notification(name, params))
    case Answer(sid, build) => m.Respond(sid, build)
    case CloseOne(sid) => m.CloseStream(sid, Closed)
    case Refuse(sid, error) => m.RefuseStream(sid, error)
    case CloseAll => m.CloseSession()
  }

  /**
   A fixed role. The hub opens streams and sends requests, and is given no request handler; the daemon
   accepts and answers requests, and neither opens a stream nor sends a request.
   */
  predicate InRole<J>(m: Mux<J>, step: Step<J>) {
    if m.accepts then !step.Open? && !step.Call? else !step.Answer?
  }
}
