/** The multiplexer as an object whose maps and stream records every call updates in place. */
module FrameMultiplexer {
  import opened Text
  import opened Multiplexer
  import opened MultiplexerProofs

  class FrameMultiplexer<J> {
    const accepts: bool
    const maxOpenStreams: nat
    const capError: J

    var streams: map<nat, Stream>
    var closedIds: set<nat>
    var control: Stream
    var nextId: nat
    var closed: bool

    /** What was handed to the sender, and the promises of the calls made. */
    var sent: seq<Frame<J>>
    var calls: nat
    var settled: map<nat, Outcome<J>>

    ghost function State(): Mux<J>
      reads this
    {
      Mux(accepts, maxOpenStreams, capError, streams, closedIds, control, nextId, closed, sent, calls, settled)
    }

    ghost predicate Valid()
      reads this
    {
      Inv(State())
    }

    constructor (accepts: bool, maxOpenStreams: nat, capError: J)
      ensures Valid() && State() == NewMux(accepts, maxOpenStreams, capError)
    {
      this.accepts, this.maxOpenStreams, this.capError := accepts, maxOpenStreams, capError;
      streams, closedIds, control, nextId, closed := map[], {}, NewStream, 1, false;
      sent, calls, settled := [], 0, map[];
      new;
      NewMuxOk(accepts, maxOpenStreams, capError);
    }

    function Get(sid: nat): (st: Option<Stream>)
      reads this
      ensures st == State().Get(sid)
    {
      if sid == CONTROL_STREAM_ID then Some(control)
      else if sid in streams then Some(streams[sid])
      else None
    }

    method Put(sid: nat, st: Stream)
      modifies this`control, this`streams
      ensures State() == old(State()).Put(sid, st)
    {
      if sid == CONTROL_STREAM_ID { control := st; } else { streams := streams[sid := st]; }
    }

    method Settle(pending: Option<Pending>, outcome: Outcome<J>)
      modifies this`settled
      ensures settled == old(State()).Settled(pending, outcome)
    {
      if pending.Some? { settled := settled[pending.value.call := outcome]; }
    }

    method Send(sid: nat, m: Message<J>)
      modifies this`sent
      ensures State() == old(State()).SendOnStream(sid, m)
    {
      var st := Get(sid);
      if st == None || st.value.closed { return; }
      sent := sent + [Frame(sid, m)];
    }

    method CloseStream(sid: nat, reason: Reason)
      modifies this`streams, this`closedIds, this`settled
      ensures State() == old(State()).CloseStream(sid, reason)
    {
      if sid == CONTROL_STREAM_ID || sid !in streams { return; }
      var pending := streams[sid].pending;
      streams, closedIds := streams - {sid}, closedIds + {sid};
      Settle(pending, StreamEnded(reason));
    }

    method CancelStream(sid: nat)
      modifies this`streams, this`closedIds, this`settled, this`control
      ensures State() == old(State()).CancelStream(sid)
    {
      if sid != CONTROL_STREAM_ID {
        CloseStream(sid, Cancelled);
        return;
      }
      var pending := control.pending;
      control := control.(replyId := None, pending := None);
      Settle(pending, StreamEnded(Cancelled));
    }

    method SettleStream(sid: nat, m: Message<J>)
      modifies this`streams, this`settled, this`control
      ensures State() == old(State()).SettleStream(sid, m)
    {
      var st := Get(sid);
      if st == None || st.value.pending == None || m.ResponseId() != Some(st.value.pending.value.id) { return; }
      Put(sid, st.value.(pending := None, replyId := if sid == CONTROL_STREAM_ID then None else st.value.replyId));
      Settle(st.value.pending,
        if m.Success? then Resolved(m.result) else if m.Failure? then Failed(m.error) else NotSent);
    }

    /** Routes one received frame; what a handler has to be told comes back to the caller. */
    method Handle(frame: Frame<J>) returns (delivery: Delivery<J>)
      requires Valid()
      modifies this`streams, this`closedIds, this`settled, this`control, this`sent
      ensures Valid() && Received(State(), delivery) == old(State()).HandleFrame(frame)
    {
      HandleFrameKeeps(State(), frame);
      hide Inv;
      if closed { return Nothing; }
      if frame.s in streams || frame.s == CONTROL_STREAM_ID {
        delivery := Receive(frame.s, frame.m);
        return;
      }
      if frame.s in closedIds || !accepts || !frame.m.Request? { return Unknown; }
      if |streams| >= maxOpenStreams {
        closedIds := closedIds + {frame.s};
        sent := sent + [Frame(frame.s, Failure(Some(frame.m.id), capError))];
        return Nothing;
      }
      streams := streams[frame.s := NewStream.(replyId := Some(frame.m.id))];
      return Handled(frame.s, frame.m);
    }

    method Receive(sid: nat, m: Message<J>) returns (delivery: Delivery<J>)
      requires Get(sid).Some?
      modifies this`streams, this`closedIds, this`settled, this`control
      ensures Received(State(), delivery) == old(State()).ReceiveMessage(sid, m)
    {
      if m.Success? || m.Failure? {
        SettleStream(sid, m);
        return Nothing;
      }
      if m.name == CANCEL_NOTIFICATION {
        CancelStream(sid);
        return Nothing;
      }
      if m.Notification? { return Notified(sid, m); }
      if sid == CONTROL_STREAM_ID && accepts {
        control := control.(replyId := Some(m.id));
        return Handled(sid, m);
      }
      return Nothing;
    }

    method Respond(sid: nat, build: Id -> Message<J>)
      requires Valid() && accepts
      modifies this`streams, this`control, this`sent
      ensures Valid() && State() == old(State()).Respond(sid, build)
    {
      RespondKeeps(State(), sid, build);
      hide Inv;
      var st := Get(sid);
      if st == None || st.value.replyId == None { return; }
      if sid == CONTROL_STREAM_ID { control := control.(replyId := None); }
      Send(sid, build(st.value.replyId.value));
    }

    /** The control stream owes no reply any more. */
    method ClearReply()
      requires Valid() && accepts
      modifies this`control
      ensures Valid() && State() == old(State()).(control := old(control).(replyId := None))
    {
      ReplyIdKeeps(State(), None);
      hide Inv;
      control := control.(replyId := None);
    }

    method SendValid(sid: nat, m: Message<J>)
      requires Valid()
      modifies this`sent
      ensures Valid() && State() == old(State()).SendOnStream(sid, m)
    {
      SendKeeps(State(), sid, m);
      hide Inv;
      Send(sid, m);
    }

    /** A stream's owner closes it; the control stream stays. */
    method CloseOwn(sid: nat)
      requires Valid()
      modifies this`streams, this`closedIds, this`settled
      ensures Valid() && State() == old(State()).CloseStream(sid, Closed)
    {
      CloseStreamKeeps(State(), sid, Closed);
      hide Inv;
      CloseStream(sid, Closed);
    }

    /** Sends a request on a stream; `call` numbers its promise when one was made. */
    method Request(sid: nat, name: string, params: Option<J>, aborted: bool, oversize: bool)
      returns (call: Option<nat>)
      requires Valid() && !accepts
      modifies this`streams, this`closedIds, this`settled, this`control, this`sent, this`calls
      ensures Valid() && State() == old(State()).RequestOn(sid, name, params, aborted, oversize)
      ensures call == if calls == old(calls) then None else Some(old(calls))
    {
      RequestKeeps(State(), sid, name, params, aborted, oversize);
      hide Inv, Mux.CancelStream;
      var st := Get(sid);
      if closed || st == None || st.value.closed { return None; }
      if aborted {
        CancelStream(sid);
        return None;
      }
      if st.value.replyId.Some? { return None; }
      call := Some(calls);
      Issue(sid, name, params, oversize);
    }

    /** The request itself, on a stream that can carry one. */
    method Issue(sid: nat, name: string, params: Option<J>, oversize: bool)
      requires !State().Refuses(sid)
      modifies this`streams, this`settled, this`control, this`sent, this`calls
      ensures State() == old(State()).RequestOn(sid, name, params, false, oversize) && calls == old(calls) + 1
    {
      hide Mux.CancelStream;
      var st, call := Get(sid).value, calls;
      var id := Number(if sid == CONTROL_STREAM_ID then st.requests else sid);
      calls := calls + 1;
      if oversize {
        Put(sid, st.(requests := st.requests + 1));
        settled := settled[call := NotSent];
      } else {
        Put(sid, st.(requests := st.requests + 1, replyId := Some(id), pending := Some(Pending(id, call))));
        Send(sid, Multiplexer.Request(id, name, params));
      }
    }

    method Abort(sid: nat)
      requires Valid()
      modifies this`streams, this`closedIds, this`settled, this`control, this`sent
      ensures Valid() && State() == old(State()).Abort(sid)
    {
      AbortKeeps(State(), sid);
      hide Inv;
      var st := Get(sid);
      if st == None || st.value.pending == None { return; }
      Send(sid, Notification(CANCEL_NOTIFICATION, None));
      CancelStream(sid);
    }

    /** Opens a numbered stream, unless the session is closed or full. */
    method Open() returns (id: Option<nat>)
      requires Valid() && !accepts
      modifies this`streams, this`nextId
      ensures Valid() && State() == old(State()).OpenStream()
      ensures id.Some? ==> id.value !in old(streams) && id.value !in closedIds && id.value in streams
      ensures id == None <==> closed || |old(streams)| >= maxOpenStreams
    {
      hide CallsOk, StreamsOk;
      StepKeeps(State(), Step<J>.Open);
      if closed || |streams| >= maxOpenStreams { return None; }
      id := Some(nextId);
      nextId := nextId + 1;
      streams := streams[id.value := NewStream];
    }

    method RefuseStream(sid: nat, error: J)
      requires Valid()
      modifies this`streams, this`closedIds, this`settled, this`sent
      ensures Valid() && State() == old(State()).RefuseStream(sid, error)
    {
      RefuseKeeps(State(), sid, error);
      hide Inv;
      var st := Get(sid);
      if st == None || st.value.closed { return; }
      sent := sent
        + [Frame(sid, Failure(Some(if st.value.replyId.Some? then st.value.replyId.value else Number(sid)), error))];
      CloseStream(sid, Closed);
    }

    method CloseStreams()
      requires CONTROL_STREAM_ID !in streams
      modifies this`streams, this`closedIds, this`settled
      ensures streams == map[] && State().CloseSession() == old(State()).CloseSession()
    {
      hide Mux.CloseSession, Mux.CloseStream;
      while streams != map[]
        invariant CONTROL_STREAM_ID !in streams
        invariant State().CloseSession() == old(State()).CloseSession()
        decreases |streams|
      {
        var sid :| sid in streams;
        CloseOneFirst(State(), sid);
        CloseAnother(sid);
      }
    }

    method CloseAnother(sid: nat)
      requires sid in streams && CONTROL_STREAM_ID !in streams
      modifies this`streams, this`closedIds, this`settled
      ensures State() == old(State()).CloseStream(sid, Closed)
      ensures CONTROL_STREAM_ID !in streams && |streams| < old(|streams|)
    {
      assert streams.Keys == (streams - {sid}).Keys + {sid};
      CloseStream(sid, Closed);
    }

    method CloseControl()
      requires streams == map[]
      modifies this`control, this`settled, this`closed
      ensures State() == old(State()).CloseSession()
    {
      FailNone(settled);
      FailNone(State().Settled(control.pending, StreamEnded(Closed)));
      hide FailAll;
      closed := true;
      if control.closed { return; }
      var pending := control.pending;
      control := control.(closed := true, pending := None);
      Settle(pending, StreamEnded(Closed));
    }

    /** Ends the session: every pending request fails and nothing stays open. */
    method Close()
      requires Valid()
      modifies this
      ensures Valid() && State() == old(State()).CloseSession()
      ensures closed && streams == map[] && forall sid: nat, c: nat :: !Waits(State(), sid, c)
    {
      CloseSessionKeeps(State());
      EndedCalls(State());
      ControlIsApart(State());
      hide Inv, FailAll;
      CloseStreams();
      CloseControl();
    }
  }

  lemma FailNone<J>(settled: map<nat, Outcome<J>>)
    ensures FailAll(map[], settled) == settled
  {
  }
}
