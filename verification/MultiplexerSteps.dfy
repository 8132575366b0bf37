/** What each step of an endpoint puts on the wire, delivers, and does to the calls that wait. */
module MultiplexerSteps {
  import opened Text
  import opened Multiplexer
  import opened MultiplexerProofs

  /** Nothing but the frames goes out, and no stream but `sid` changes. */
  ghost predicate Puts<J>(m: Mux<J>, t: Mux<J>, sid: nat, frames: seq<Message<J>>) {
    && |t.sent| == |m.sent| + |frames| && m.sent <= t.sent
    && (forall k :: 0 <= k < |frames| ==> t.sent[|m.sent| + k] == Frame(sid, frames[k]))
    && (forall r: nat :: r != sid ==> t.Get(r) == m.Get(r))
  }

  /**
   The signal of a waiting call aborts: the peer is told on the call's stream, and the call ends as cancelled.
   A numbered stream is spent with it. Where nothing waits, nothing happens.
   */
  lemma AbortTells<J>(m: Mux<J>, sid: nat)
    requires Inv(m)
    ensures var t, waiting := m.Abort(sid), PendingAt(m, sid);
            if waiting.Some? then
              && Puts(m, t, sid, [Notification("cancel", None)])
              && t.settled == m.settled[waiting.value.call := StreamEnded(Cancelled)] && PendingAt(t, sid) == None
              && (sid != 0 ==> t.Get(sid) == None && sid in t.closedIds)
            else t == m
  {
    hide CallsOk;
  }

  /** A request goes out once, under the stream's number, or on the control stream under how many it carried before. */
  lemma CallSends<J>(m: Mux<J>, sid: nat, name: string, params: Option<J>)
    requires Inv(m) && !m.closed && m.IsOpen(sid) && m.Get(sid).value.replyId == None
    ensures var t := m.RequestOn(sid, name, params, false, false);
            var id := Number(if sid == 0 then m.control.requests else sid);
            && Puts(m, t, sid, [Request(id, name, params)])
            && PendingAt(t, sid) == Some(Pending(id, m.calls)) && t.calls == m.calls + 1 && t.settled == m.settled
            && t.control.requests == m.control.requests + (if sid == 0 then 1 else 0)
  {
    hide CallsOk;
  }

  /** A request too large to send is a call that fails; the stream can carry another. */
  lemma OversizeCallFails<J>(m: Mux<J>, sid: nat, name: string, params: Option<J>)
    requires Inv(m) && !m.closed && m.IsOpen(sid) && m.Get(sid).value.replyId == None
    ensures var t := m.RequestOn(sid, name, params, false, true);
            && Puts(m, t, sid, []) && t.calls == m.calls + 1 && t.settled == m.settled[m.calls := NotSent]
            && !t.Refuses(sid) && PendingAt(t, sid) == None
  {
    hide CallsOk;
  }

  /** A stream that is closed, or carries a request, takes no other; nothing is sent and no call is made. */
  lemma CallRefused<J>(m: Mux<J>, sid: nat, name: string, params: Option<J>, oversize: bool)
    requires m.closed || !m.IsOpen(sid) || m.Get(sid).value.replyId.Some?
    ensures m.RequestOn(sid, name, params, false, oversize) == m
  {
  }

  /** A call whose signal aborted before it is not sent, and its numbered stream is spent. */
  lemma AbortedCall<J>(m: Mux<J>, sid: nat, name: string, params: Option<J>, oversize: bool)
    requires Inv(m) && !m.closed && m.IsOpen(sid)
    ensures var t := m.RequestOn(sid, name, params, true, oversize);
            && EndsOnly(m, t, sid, StreamEnded(Cancelled)) && (sid != 0 ==> t.Get(sid) == None && sid in t.closedIds)
            && (sid == 0 ==> t.control == m.control.(replyId := None, pending := None))
  {
    CancelStreamKeeps(m, sid);
    hide CallsOk;
  }

  /** A new stream is open under the next number, and says nothing yet. */
  lemma OpensNext<J>(m: Mux<J>)
    requires Inv(m) && !m.accepts && !m.closed && |m.streams| < m.maxOpenStreams
    ensures var t := m.OpenStream();
            && Puts(m, t, m.nextId, []) && m.Get(m.nextId) == None && t.IsOpen(m.nextId) && t.nextId == m.nextId + 1
            && t.Get(m.nextId).value.replyId == None && t.calls == m.calls
  {
    hide CallsOk;
  }

  /** A notification goes out on an open stream, and nowhere else. */
  lemma TellsOnce<J>(m: Mux<J>, sid: nat, name: string, params: Option<J>)
    ensures var t := m.SendOnStream(sid, Notification(name, params));
            && Puts(m, t, sid, if m.IsOpen(sid) then [Notification(name, params)] else [])
            && t.Get(sid) == m.Get(sid) && t.settled == m.settled
  {
  }

  /** An answer goes out under the id of the request its stream carries; on the control stream once. */
  lemma AnswersUnderItsId<J>(m: Mux<J>, sid: nat, build: Id -> Message<J>)
    requires Inv(m) && m.accepts && !m.closed
    ensures var t := m.Respond(sid, build);
            if m.Get(sid).Some? && m.Get(sid).value.replyId.Some?
            then Puts(m, t, sid, [build(m.Get(sid).value.replyId.value)]) && (sid == 0 ==> t.control.replyId == None)
            else t == m
  {
    hide CallsOk, IdsOk;
  }

  /** A refusal is one error under the id of the stream's request, or its number; a numbered stream is then spent. */
  lemma RefusesOnce<J>(m: Mux<J>, sid: nat, error: J)
    requires Inv(m)
    ensures var t := m.RefuseStream(sid, error);
            if !m.IsOpen(sid) then t == m
            else
              var carried := m.Get(sid).value.replyId;
              && Puts(m, t, sid, [Failure(Some(if carried.Some? then carried.value else Number(sid)), error)])
              && (sid != 0 ==> t.Get(sid) == None && sid in t.closedIds)
  {
    hide CallsOk;
  }

  // What a received frame does.

  /** A notification for an open stream, but for a cancellation, reaches its handler and changes nothing. */
  lemma NotificationDelivered<J>(m: Mux<J>, sid: nat, name: string, params: Option<J>)
    requires !m.closed && (sid == 0 || sid in m.streams) && name != "cancel"
    ensures m.HandleFrame(Frame(sid, Notification(name, params)))
      == Received(m, Notified(sid, Notification(name, params)))
  {
  }

  /** A cancellation spends a numbered stream, or drops what the control stream carries; no handler sees it. */
  lemma CancelReceived<J>(m: Mux<J>, sid: nat, message: Message<J>)
    requires Inv(m) && !m.closed && (sid == 0 || sid in m.streams)
    requires (message.Request? || message.Notification?) && message.name == "cancel"
    ensures var r := m.HandleFrame(Frame(sid, message));
            && r.delivery == Nothing && EndsOnly(m, r.mux, sid, StreamEnded(Cancelled))
            && (sid != 0 ==> r.mux.Get(sid) == None && sid in r.mux.closedIds)
            && (sid == 0 ==> r.mux.control == m.control.(replyId := None, pending := None))
  {
    CancelStreamKeeps(m, sid);
    hide CallsOk;
  }

  /** A request opens its stream, answers under its id, and reaches the handler. */
  lemma RequestOpens<J>(m: Mux<J>, sid: nat, id: Id, name: string, params: Option<J>)
    requires Inv(m) && m.accepts && !m.closed && sid != 0 && sid !in m.streams && sid !in m.closedIds
    requires |m.streams| < m.maxOpenStreams
    ensures var r := m.HandleFrame(Frame(sid, Request(id, name, params)));
            && r.delivery == Handled(sid, Request(id, name, params)) && Puts(m, r.mux, sid, [])
            && r.mux.IsOpen(sid) && r.mux.Get(sid).value.replyId == Some(id) && r.mux.closedIds == m.closedIds
  {
    hide CallsOk;
  }

  /** At the cap a request is refused under its id, and its stream number is spent. */
  lemma RequestAtTheCap<J>(m: Mux<J>, sid: nat, id: Id, name: string, params: Option<J>)
    requires Inv(m) && m.accepts && !m.closed && sid != 0 && sid !in m.streams && sid !in m.closedIds
    requires |m.streams| >= m.maxOpenStreams
    ensures var r := m.HandleFrame(Frame(sid, Request(id, name, params)));
            && r.delivery == Nothing && Puts(m, r.mux, sid, [Failure(Some(id), m.capError)])
            && r.mux.Get(sid) == None && r.mux.closedIds == m.closedIds + {sid}
  {
    hide CallsOk;
  }

  /** The control stream takes request after request; a numbered stream takes no second one. */
  lemma RequestOnOpenStream<J>(m: Mux<J>, sid: nat, id: Id, name: string, params: Option<J>)
    requires !m.closed && (sid == 0 || sid in m.streams) && name != "cancel"
    ensures var r := m.HandleFrame(Frame(sid, Request(id, name, params)));
            if sid == 0 && m.accepts
            then r == Received(m.(control := m.control.(replyId := Some(id))), Handled(0, Request(id, name, params)))
            else r == Received(m, Nothing)
  {
  }

  /** Whatever else names a stream that is not open is reported as unknown and changes nothing. */
  lemma UnknownFrame<J>(m: Mux<J>, frame: Frame<J>)
    requires !m.closed && frame.s != 0 && frame.s !in m.streams
    requires frame.s in m.closedIds || !m.accepts || !frame.m.Request?
    ensures m.HandleFrame(frame) == Received(m, Unknown)
  {
  }

  /** The session's end says nothing, spends every open stream, and ends every call that waits as closed. */
  lemma ClosingEnds<J>(m: Mux<J>)
    requires Inv(m)
    ensures var t := m.CloseSession();
            && t.closed && t.sent == m.sent && !t.IsOpen(0) && t.streams == map[]
            && (forall sid :: sid in t.closedIds <==> sid in m.closedIds || sid in m.streams)
            && (forall c :: c in m.settled ==> c in t.settled && t.settled[c] == m.settled[c])
            && (forall sid: nat, c: nat :: Waits(m, sid, c) ==> c in t.settled && t.settled[c] == StreamEnded(Closed))
  {
    var t := m.CloseSession();
    forall c | c in m.settled ensures c in t.settled && t.settled[c] == m.settled[c] {
      SettledStays(m, c);
    }
    forall sid: nat, c: nat | Waits(m, sid, c) ensures c in t.settled && t.settled[c] == StreamEnded(Closed) {
      WaitingEnds(m, sid, c);
    }
  }

  lemma SettledStays<J>(m: Mux<J>, c: nat)
    requires Inv(m) && c in m.settled
    ensures var t := m.CloseSession(); c in t.settled && t.settled[c] == m.settled[c]
  {
    assert !Waits(m, 0, c);
    if c in PendingCalls(m.streams) {
      var sid := PendingCallWaits(m, c);
    }
  }

  lemma WaitingEnds<J>(m: Mux<J>, sid: nat, c: nat)
    requires Inv(m) && Waits(m, sid, c)
    ensures var t := m.CloseSession(); c in t.settled && t.settled[c] == StreamEnded(Closed)
  {
    if sid != 0 { WaitsIsPendingCall(m, sid, c); }
    hide CallsOk, IdsOk;
  }

  /** A closed session takes nothing. */
  lemma ClosedTakesNothing<J>(m: Mux<J>, frame: Frame<J>)
    requires m.closed
    ensures m.HandleFrame(frame) == Received(m, Nothing)
  {
  }

  /** A cap of 64 streams, and an endpoint that has said and heard nothing. */
  lemma FirstState<J>(accepts: bool, capError: J, sid: nat)
    ensures var m := NewMux(accepts, MAX_CONCURRENT_STREAMS, capError);
            && m.maxOpenStreams == 64 && m.sent == [] && !m.closed && m.nextId == 1 && m.IsOpen(0)
            && (sid != 0 ==> m.Get(sid) == None) && m.control.requests == 0
  {
  }
}
