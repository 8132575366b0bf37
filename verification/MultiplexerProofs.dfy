/** What every step of an endpoint in a fixed role keeps. */
module MultiplexerProofs {
  import opened Text
  import opened Multiplexer

  /** The request that waits on stream `sid`. */
  function PendingAt<J>(m: Mux<J>, sid: nat): Option<Pending> {
    if m.Get(sid).Some? then m.Get(sid).value.pending else None
  }

  /** Call `c` waits on stream `sid`. */
  ghost predicate Waits<J>(m: Mux<J>, sid: nat, c: nat) {
    PendingAt(m, sid).Some? && PendingAt(m, sid).value.call == c
  }

  /** Ids: open and spent ids are disjoint, the cap holds, and the hub's ids are the ones it handed out. */
  ghost predicate IdsOk<J>(m: Mux<J>) {
    && CONTROL_STREAM_ID !in m.streams && CONTROL_STREAM_ID !in m.closedIds
    && m.streams.Keys !! m.closedIds
    && |m.streams| <= m.maxOpenStreams
    && m.nextId >= 1
    && (!m.accepts ==> forall sid :: sid in m.streams ==> sid < m.nextId)
    && (!m.accepts ==> forall sid :: sid in m.closedIds ==> sid < m.nextId)
  }

  /**
   Streams: an open session's streams are open; a closed one has none, and nothing pending. Only the hub
   waits for answers, and a stream that waits takes no second request.
   */
  ghost predicate StreamsOk<J>(m: Mux<J>) {
    && (forall sid :: sid in m.streams ==> !m.streams[sid].closed && PendingOk(m.accepts, m.streams[sid]))
    && m.control.closed == m.closed && PendingOk(m.accepts, m.control)
    && (m.closed ==> m.streams == map[] && m.control.pending == None)
  }

  predicate PendingOk(accepts: bool, st: Stream) {
    st.pending.Some? ==> !accepts && st.replyId == Some(st.pending.value.id)
  }

  /** Calls: every call made is settled or waits on exactly one stream, and never both. */
  ghost predicate CallsOk<J>(m: Mux<J>) {
    && (forall c :: c in m.settled ==> c < m.calls)
    && (forall sid: nat, c: nat :: Waits(m, sid, c) ==> c < m.calls && c !in m.settled)
    && (forall r: nat, s: nat, c: nat :: Waits(m, r, c) && Waits(m, s, c) ==> r == s)
    && (forall c: nat :: c < m.calls && c !in m.settled ==> exists sid: nat :: Waits(m, sid, c))
  }

  ghost predicate Inv<J>(m: Mux<J>) {
    IdsOk(m) && StreamsOk(m) && CallsOk(m)
  }

  lemma NewMuxOk<J>(accepts: bool, maxOpenStreams: nat, capError: J)
    ensures Inv(NewMux(accepts, maxOpenStreams, capError))
  {
  }

  lemma SizeAfterPut(streams: map<nat, Stream>, sid: nat, st: Stream)
    ensures |streams[sid := st]| == if sid in streams then |streams| else |streams| + 1
  {
    assert streams[sid := st].Keys == streams.Keys + {sid};
  }

  lemma SizeAfterClose(streams: map<nat, Stream>, sid: nat)
    ensures |streams - {sid}| <= |streams|
  {
    assert (streams - {sid}).Keys == streams.Keys - {sid};
    assert streams.Keys == (streams - {sid}).Keys + (streams.Keys * {sid});
  }

  /** Settling what waits on one stream, and nothing else, keeps the account of calls. */
  lemma SettledOne<J>(m: Mux<J>, t: Mux<J>, sid: nat, outcome: Outcome<J>)
    requires CallsOk(m) && t.calls == m.calls && t.settled == m.Settled(PendingAt(m, sid), outcome)
    requires PendingAt(t, sid) == None && forall r: nat :: r != sid ==> PendingAt(t, r) == PendingAt(m, r)
    ensures CallsOk(t)
  {
    forall c: nat | c < t.calls && c !in t.settled ensures exists r: nat :: Waits(t, r, c) {
      var r: nat :| Waits(m, r, c);
      assert Waits(t, r, c);
    }
    assert forall r: nat, c: nat :: Waits(t, r, c) ==> Waits(m, r, c) && r != sid;
    assert forall c: nat :: c in t.settled && c !in m.settled ==> Waits(m, sid, c);
  }

  /** What waited on stream `sid` ended so; no other stream and no other call is touched, and nothing is sent. */
  ghost predicate EndsOnly<J>(m: Mux<J>, t: Mux<J>, sid: nat, outcome: Outcome<J>) {
    && PendingAt(t, sid) == None && (forall r: nat :: r != sid ==> t.Get(r) == m.Get(r))
    && (forall c: nat :: c in t.settled <==> c in m.settled || Waits(m, sid, c))
    && (forall c: nat :: c in t.settled ==> t.settled[c] == if Waits(m, sid, c) then outcome else m.settled[c])
    && t.calls == m.calls && t.sent == m.sent
  }

  /** A stream that closes spends its id and fails what waited on it; the control stream is never closed so. */
  lemma CloseStreamKeeps<J>(m: Mux<J>, sid: nat, reason: Reason)
    requires Inv(m)
    ensures var t := m.CloseStream(sid, reason);
            && Inv(t) && (sid == CONTROL_STREAM_ID ==> t == m)
            && (sid != CONTROL_STREAM_ID ==> EndsOnly(m, t, sid, StreamEnded(reason)) && t.Get(sid) == None)
            && (forall r :: r in t.closedIds <==> r in m.closedIds || (r == sid && sid in m.streams))
  {
    if sid in m.streams {
      SizeAfterClose(m.streams, sid);
      SettledOne(m, m.CloseStream(sid, reason), sid, StreamEnded(reason));
    }
  }

  /** A cancelled stream ends what waited on it: a numbered one closes, the control stream stays. */
  lemma CancelStreamKeeps<J>(m: Mux<J>, sid: nat)
    requires Inv(m)
    ensures var t := m.CancelStream(sid);
            && Inv(t) && EndsOnly(m, t, sid, StreamEnded(Cancelled))
            && (sid != CONTROL_STREAM_ID ==> t.Get(sid) == None)
            && (sid == CONTROL_STREAM_ID ==> t.IsOpen(sid) == m.IsOpen(sid) && t.closedIds == m.closedIds)
  {
    if sid != CONTROL_STREAM_ID {
      CloseStreamKeeps(m, sid, Cancelled);
    } else {
      SettledOne(m, m.CancelStream(sid), sid, StreamEnded(Cancelled));
    }
  }

  /** The one call an answer can settle is the one that waits on its stream under the id it echoes. */
  lemma SettleStreamKeeps<J>(m: Mux<J>, sid: nat, message: Message<J>)
    requires Inv(m)
    ensures var t := m.SettleStream(sid, message);
            && Inv(t) && t.IsOpen(sid) == m.IsOpen(sid) && t.closedIds == m.closedIds
            && if PendingAt(m, sid).Some? && message.ResponseId() == Some(PendingAt(m, sid).value.id)
               then EndsOnly(m, t, sid, if message.Success? then Resolved(message.result) else Failed(message.error))
               else t == m
  {
    hide IdsOk, StreamsOk, CallsOk, EndsOnly;
    var t := m.SettleStream(sid, message);
    SettleKeepsStreams(m, sid, message);
    if PendingAt(m, sid).Some? && message.ResponseId() == Some(PendingAt(m, sid).value.id) {
      var outcome := if message.Success? then Resolved(message.result) else Failed(message.error);
      SettleEndsOnly(m, sid, message, outcome);
      SettledOne(m, t, sid, outcome);
    }
  }

  lemma SettleKeepsStreams<J>(m: Mux<J>, sid: nat, message: Message<J>)
    requires IdsOk(m) && StreamsOk(m)
    ensures var t := m.SettleStream(sid, message); IdsOk(t) && StreamsOk(t) && CONTROL_STREAM_ID !in m.streams
  {
    if PendingAt(m, sid).Some? {
      SizeAfterPut(m.streams, sid, m.Get(sid).value.(pending := None));
    }
  }

  lemma SettleEndsOnly<J>(m: Mux<J>, sid: nat, message: Message<J>, outcome: Outcome<J>)
    requires PendingAt(m, sid).Some? && message.ResponseId() == Some(PendingAt(m, sid).value.id)
    requires outcome == if message.Success? then Resolved(message.result) else Failed(message.error)
    requires CONTROL_STREAM_ID !in m.streams
    ensures EndsOnly(m, m.SettleStream(sid, message), sid, outcome)
    ensures PendingAt(m.SettleStream(sid, message), sid) == None
    ensures forall r: nat :: r != sid ==> PendingAt(m.SettleStream(sid, message), r) == PendingAt(m, r)
  {
  }

  /** An answer to what waits settles that call with what it carries; any other answer changes nothing. */
  lemma AnswerSettles<J>(m: Mux<J>, sid: nat, message: Message<J>)
    requires message.Success? || message.Failure?
    ensures var t, p := m.SettleStream(sid, message), PendingAt(m, sid);
            if p.Some? && message.ResponseId() == Some(p.value.id)
            then t.settled
              == m.settled[p.value.call := if message.Success? then Resolved(message.result) else Failed(message.error)]
                 && PendingAt(t, sid) == None && t.sent == m.sent && forall r: nat :: r != sid ==> t.Get(r) == m.Get(r)
            else t == m
  {
  }

  /** Nothing waits differently and nothing new is settled. */
  lemma SameCalls<J>(m: Mux<J>, t: Mux<J>)
    requires CallsOk(m) && t.calls == m.calls && t.settled == m.settled
    requires forall r: nat :: PendingAt(t, r) == PendingAt(m, r)
    ensures CallsOk(t)
  {
    forall c: nat | c < t.calls && c !in t.settled ensures exists r: nat :: Waits(t, r, c) {
      var r: nat :| Waits(m, r, c);
      assert Waits(t, r, c);
    }
    assert forall r: nat, c: nat :: Waits(t, r, c) ==> Waits(m, r, c);
  }

  lemma HandleFrameKeeps<J>(m: Mux<J>, frame: Frame<J>)
    requires Inv(m)
    ensures Inv(m.HandleFrame(frame).mux)
  {
    hide CallsOk, Mux.SettleStream, Mux.CancelStream;
    var t := m.HandleFrame(frame).mux;
    if m.closed {
    } else if frame.s in m.streams || frame.s == CONTROL_STREAM_ID {
      if frame.m.Success? || frame.m.Failure? {
        SettleStreamKeeps(m, frame.s, frame.m);
      } else if frame.m.name == CANCEL_NOTIFICATION {
        CancelStreamKeeps(m, frame.s);
      } else {
        SameCalls(m, t);
      }
    } else {
      SizeAfterPut(m.streams, frame.s, NewStream);
      SameCalls(m, t);
    }
  }

  lemma RequestKeeps<J>(m: Mux<J>, sid: nat, name: string, params: Option<J>, aborted: bool, oversize: bool)
    requires Inv(m) && !m.accepts
    ensures Inv(m.RequestOn(sid, name, params, aborted, oversize))
  {
    hide CallsOk, IdsOk, StreamsOk, Mux.CancelStream;
    if m.closed || !m.IsOpen(sid) {
    } else if aborted {
      CancelStreamKeeps(m, sid);
    } else if !m.Refuses(sid) {
      IssueKeepsStreams(m, sid, name, params, oversize);
      IssueKeepsCalls(m, sid, name, params, oversize);
    }
  }

  lemma IssueKeepsStreams<J>(m: Mux<J>, sid: nat, name: string, params: Option<J>, oversize: bool)
    requires IdsOk(m) && StreamsOk(m) && !m.accepts && !m.Refuses(sid)
    ensures var t := m.RequestOn(sid, name, params, false, oversize); IdsOk(t) && StreamsOk(t)
  {
    SizeAfterPut(m.streams, sid, m.Get(sid).value);
    SizeAfterPut(m.streams, sid, m.RequestOn(sid, name, params, false, oversize).Get(sid).value);
  }

  lemma IssueKeepsCalls<J>(m: Mux<J>, sid: nat, name: string, params: Option<J>, oversize: bool)
    requires Inv(m) && !m.Refuses(sid)
    ensures CallsOk(m.RequestOn(sid, name, params, false, oversize))
  {
    hide CallsOk, IdsOk;
    var t := m.RequestOn(sid, name, params, false, oversize);
    assert forall r: nat :: r != sid ==> PendingAt(t, r) == PendingAt(m, r);
    assert PendingAt(m, sid) == None;
    NewCall(m, t, sid);
  }

  lemma NewCall<J>(m: Mux<J>, t: Mux<J>, sid: nat)
    requires CallsOk(m) && t.calls == m.calls + 1 && PendingAt(m, sid) == None
    requires forall r: nat :: r != sid ==> PendingAt(t, r) == PendingAt(m, r)
    requires if PendingAt(t, sid) == None then t.settled == m.settled[m.calls := NotSent]
             else PendingAt(t, sid).value.call == m.calls && t.settled == m.settled
    ensures CallsOk(t)
  {
    assert forall r: nat, c: nat :: Waits(t, r, c) && r != sid ==> Waits(m, r, c);
    forall c: nat | c < t.calls && c !in t.settled ensures exists r: nat :: Waits(t, r, c) {
      if c == m.calls {
        assert Waits(t, sid, c);
      } else {
        var r: nat :| Waits(m, r, c);
        assert Waits(t, r, c);
      }
    }
  }

  /** A call in `PendingCalls` is one that waits on some numbered stream. */
  lemma PendingCallWaits<J>(m: Mux<J>, c: nat) returns (sid: nat)
    requires c in PendingCalls(m.streams) && CONTROL_STREAM_ID !in m.streams
    ensures sid in m.streams && Waits(m, sid, c)
  {
    sid :| sid in m.streams && m.streams[sid].pending.Some? && m.streams[sid].pending.value.call == c;
  }

  lemma WaitsIsPendingCall<J>(m: Mux<J>, sid: nat, c: nat)
    requires Waits(m, sid, c) && sid != CONTROL_STREAM_ID
    ensures c in PendingCalls(m.streams)
  {
  }

  /** What is settled once the session is closed: what was, and whatever waited. */
  lemma SettledAtClose<J>(m: Mux<J>, c: nat)
    requires Inv(m)
    ensures c in m.CloseSession().settled <==>
      c in m.settled || c in PendingCalls(m.streams) || Waits(m, CONTROL_STREAM_ID, c)
  {
    hide PendingCalls, CallsOk, IdsOk;
  }

  lemma EndedCall<J>(m: Mux<J>, c: nat)
    requires Inv(m)
    ensures c in m.CloseSession().settled <==> c < m.calls
  {
    hide FailAll, PendingCalls, IdsOk, StreamsOk, Mux.CloseSession;
    SettledAtClose(m, c);
    if c in PendingCalls(m.streams) {
      assert CONTROL_STREAM_ID !in m.streams by { ControlIsApart(m); }
      var sid := PendingCallWaits(m, c);
    }
    if c < m.calls && c !in m.settled {
      var sid: nat :| Waits(m, sid, c);
      if sid != CONTROL_STREAM_ID {
        WaitsIsPendingCall(m, sid, c);
      }
    }
  }

  lemma ControlIsApart<J>(m: Mux<J>)
    requires Inv(m)
    ensures CONTROL_STREAM_ID !in m.streams
  {
  }

  /** Closing the session leaves nothing waiting: every call made is settled. */
  lemma EndedCalls<J>(m: Mux<J>)
    requires Inv(m)
    ensures var t := m.CloseSession();
            && (forall sid: nat, c: nat :: !Waits(t, sid, c))
            && (forall c: nat :: c in t.settled <==> c < m.calls)
  {
    hide FailAll, PendingCalls, CallsOk, IdsOk;
    forall c: nat ensures c in m.CloseSession().settled <==> c < m.calls {
      EndedCall(m, c);
    }
  }

  lemma CloseSessionKeeps<J>(m: Mux<J>)
    requires Inv(m)
    ensures Inv(m.CloseSession())
  {
    hide FailAll, PendingCalls, IdsOk;
    EndedCalls(m);
    CloseSessionIds(m);
  }

  lemma CloseSessionIds<J>(m: Mux<J>)
    requires Inv(m)
    ensures IdsOk(m.CloseSession())
  {
    hide FailAll, PendingCalls, CallsOk;
  }

  lemma AbortKeeps<J>(m: Mux<J>, sid: nat)
    requires Inv(m)
    ensures Inv(m.Abort(sid))
  {
    var t := m.SendOnStream(sid, Notification(CANCEL_NOTIFICATION, None));
    SameCalls(m, t);
    CancelStreamKeeps(t, sid);
  }

  lemma RefuseKeeps<J>(m: Mux<J>, sid: nat, error: J)
    requires Inv(m)
    ensures Inv(m.RefuseStream(sid, error))
  {
    if m.IsOpen(sid) {
      var st := m.Get(sid).value;
      var t := m.Send(sid, Failure(Some(if st.replyId.Some? then st.replyId.value else Number(sid)), error));
      SameCalls(m, t);
      CloseStreamKeeps(t, sid, Closed);
    }
  }

  lemma RespondKeeps<J>(m: Mux<J>, sid: nat, build: Id -> Message<J>)
    requires Inv(m) && m.accepts
    ensures Inv(m.Respond(sid, build))
  {
    SizeAfterPut(m.streams, sid, NewStream);
    SameCalls(m, m.Respond(sid, build));
  }

  lemma SendKeeps<J>(m: Mux<J>, sid: nat, message: Message<J>)
    requires Inv(m)
    ensures Inv(m.SendOnStream(sid, message))
  {
    SameCalls(m, m.SendOnStream(sid, message));
    hide CallsOk;
  }

  lemma ReplyIdKeeps<J>(m: Mux<J>, id: Option<Id>)
    requires Inv(m) && m.accepts
    ensures Inv(m.(control := m.control.(replyId := id)))
  {
    SameCalls(m, m.(control := m.control.(replyId := id)));
    hide CallsOk;
  }

  lemma OpenKeeps<J>(m: Mux<J>)
    requires Inv(m) && !m.accepts
    ensures Inv(m.OpenStream())
  {
    SizeAfterPut(m.streams, m.nextId, NewStream);
    SameCalls(m, m.OpenStream());
    hide CallsOk;
  }

  /** Every step in role keeps the invariant. */
  lemma StepKeeps<J>(m: Mux<J>, step: Step<J>)
    requires Inv(m) && InRole(m, step)
    ensures Inv(Apply(m, step))
  {
    hide Inv, EndsOnly, Mux.OpenStream, Mux.HandleFrame, Mux.RequestOn, Mux.Abort, Mux.SendOnStream, Mux.Respond;
    hide Mux.CloseStream, Mux.RefuseStream, Mux.CloseSession;
    match step
    case Open => OpenKeeps(m);
    case Handle(frame) => HandleFrameKeeps(m, frame);
    case Call(sid, name, params, aborted, oversize) => RequestKeeps(m, sid, name, params, aborted, oversize);
    case AbortCall(sid) => AbortKeeps(m, sid);
    case Tell(sid, name, params) => SendKeeps(m, sid, Notification(name, params));
    case Answer(sid, build) => RespondKeeps(m, sid, build);
    case CloseOne(sid) => CloseStreamKeeps(m, sid, Closed);
    case Refuse(sid, error) => RefuseKeeps(m, sid, error);
    case CloseAll => CloseSessionKeeps(m);
  }

  // Whole runs.

  function Run<J>(m: Mux<J>, steps: seq<Step<J>>): Mux<J>
    decreases |steps|
  {
    if steps == [] then m else Run(Apply(m, steps[0]), steps[1..])
  }

  ghost predicate AllInRole<J>(accepts: bool, steps: seq<Step<J>>) {
    forall k :: 0 <= k < |steps| ==> if accepts then !steps[k].Open? && !steps[k].Call? else !steps[k].Answer?
  }

  /** What has happened stays so: spent ids stay spent, and a settled call keeps its outcome. */
  ghost predicate Grows<J>(m: Mux<J>, t: Mux<J>) {
    && t.accepts == m.accepts && m.calls <= t.calls && m.nextId <= t.nextId
    && m.closedIds <= t.closedIds && (m.closed ==> t.closed)
    && (forall c :: c in m.settled ==> c in t.settled && t.settled[c] == m.settled[c])
    && m.sent <= t.sent
  }

  /** A call that waits has no outcome yet. */
  lemma WaitingIsUnsettled<J>(m: Mux<J>, sid: nat)
    requires Inv(m) && PendingAt(m, sid).Some?
    ensures PendingAt(m, sid).value.call !in m.settled
  {
    assert Waits(m, sid, PendingAt(m, sid).value.call);
  }

  lemma StepGrows<J>(m: Mux<J>, step: Step<J>)
    requires Inv(m) && InRole(m, step)
    ensures Grows(m, Apply(m, step))
  {
    if step.CloseAll? {
      CloseSessionGrows(m);
    } else {
      var sid := if step.Open? then m.nextId else if step.Handle? then step.frame.s else step.stream;
      if PendingAt(m, sid).Some? {
        WaitingIsUnsettled(m, sid);
      }
      if step.Handle? {
        HandleGrows(m, step.frame);
      } else {
        OtherGrows(m, step);
      }
    }
  }

  lemma HandleGrows<J>(m: Mux<J>, frame: Frame<J>)
    requires Unsettled(m, frame.s)
    ensures Grows(m, m.HandleFrame(frame).mux)
  {
    hide Mux.CancelStream, Mux.SettleStream;
    CancelGrows(m, frame.s, Cancelled);
    SettleGrows(m, frame.s, frame.m);
  }

  lemma SettleGrows<J>(m: Mux<J>, sid: nat, message: Message<J>)
    requires Unsettled(m, sid)
    ensures Grows(m, m.SettleStream(sid, message))
  {
  }

  ghost predicate Unsettled<J>(m: Mux<J>, sid: nat) {
    PendingAt(m, sid).Some? ==> PendingAt(m, sid).value.call !in m.settled
  }

  lemma CancelGrows<J>(m: Mux<J>, sid: nat, reason: Reason)
    requires Unsettled(m, sid)
    ensures Grows(m, m.CancelStream(sid)) && Grows(m, m.CloseStream(sid, reason))
  {
  }

  lemma GrowsThrough<J>(m: Mux<J>, t: Mux<J>, u: Mux<J>)
    requires Grows(m, t) && Grows(t, u)
    ensures Grows(m, u)
  {
  }

  lemma CallGrows<J>(m: Mux<J>, sid: nat, name: string, params: Option<J>, aborted: bool, oversize: bool)
    requires Unsettled(m, sid) && forall c :: c in m.settled ==> c < m.calls
    ensures Grows(m, m.RequestOn(sid, name, params, aborted, oversize))
  {
    CancelGrows(m, sid, Cancelled);
    hide Mux.CancelStream;
  }

  lemma AbortGrows<J>(m: Mux<J>, sid: nat)
    requires Unsettled(m, sid)
    ensures Grows(m, m.Abort(sid))
  {
    var t := m.SendOnStream(sid, Notification(CANCEL_NOTIFICATION, None));
    assert Grows(m, t) && Unsettled(t, sid);
    hide Mux.CancelStream, Grows;
    CancelGrows(t, sid, Cancelled);
    GrowsThrough(m, t, t.CancelStream(sid));
    assert Grows(m, m) by { StaysAsItIs(m); }
  }

  lemma StaysAsItIs<J>(m: Mux<J>)
    ensures Grows(m, m)
  {
  }

  lemma RefuseGrows<J>(m: Mux<J>, sid: nat, error: J)
    requires Unsettled(m, sid)
    ensures Grows(m, m.RefuseStream(sid, error))
  {
    StaysAsItIs(m);
    if m.IsOpen(sid) {
      var st := m.Get(sid).value;
      var t := m.Send(sid, Failure(Some(if st.replyId.Some? then st.replyId.value else Number(sid)), error));
      assert Grows(m, t) && Unsettled(t, sid);
      hide Mux.CloseStream, Grows;
      CancelGrows(t, sid, Closed);
      GrowsThrough(m, t, t.CloseStream(sid, Closed));
    }
  }

  lemma OtherGrows<J>(m: Mux<J>, step: Step<J>)
    requires !step.Handle? && !step.CloseAll? && (forall c :: c in m.settled ==> c < m.calls)
    requires !step.Open? ==> Unsettled(m, step.stream)
    ensures Grows(m, Apply(m, step))
  {
    hide Mux.CancelStream, Mux.CloseStream, Mux.RequestOn, Mux.Abort, Mux.RefuseStream;
    match step
    case Call(sid, name, params, aborted, oversize) => CallGrows(m, sid, name, params, aborted, oversize);
    case AbortCall(sid) => AbortGrows(m, sid);
    case CloseOne(sid) => CancelGrows(m, sid, Closed);
    case Refuse(sid, error) => RefuseGrows(m, sid, error);
    case _ =>
  }

  lemma CloseSessionGrows<J>(m: Mux<J>)
    requires Inv(m)
    ensures Grows(m, m.CloseSession())
  {
    if m.control.pending.Some? {
      WaitingIsUnsettled(m, CONTROL_STREAM_ID);
    }
    forall sid: nat | sid in m.streams && m.streams[sid].pending.Some?
      ensures m.streams[sid].pending.value.call !in m.settled
    {
      WaitingIsUnsettled(m, sid);
    }
  }

  /**
   Every reachable state of an endpoint in a fixed role: ids are never reused, the cap holds, no call is
   settled twice or lost, and once the session is closed nothing waits.
   */
  lemma {:induction false} RunKeeps<J>(m: Mux<J>, steps: seq<Step<J>>)
    requires Inv(m) && AllInRole(m.accepts, steps)
    ensures Inv(Run(m, steps)) && Grows(m, Run(m, steps))
    decreases |steps|
  {
    if steps != [] {
      assert InRole(m, steps[0]);
      StepKeeps(m, steps[0]);
      StepGrows(m, steps[0]);
      var t := Apply(m, steps[0]);
      assert AllInRole(t.accepts, steps[1..]);
      RunKeeps(t, steps[1..]);
    }
  }

  /** An id that was ever spent is never open again. */
  lemma NeverReopened<J>(m: Mux<J>, steps: seq<Step<J>>, sid: nat)
    requires Inv(m) && AllInRole(m.accepts, steps) && sid in m.closedIds
    ensures sid !in Run(m, steps).streams
  {
    RunKeeps(m, steps);
  }

  // Without a fixed role.

  /** An id that was ever used: open, or spent. */
  predicate Used<J>(m: Mux<J>, sid: nat) {
    sid in m.streams || sid in m.closedIds
  }

  /** The id a peer's request takes: it opens that stream, or is spent at the cap. */
  predicate Takes<J>(step: Step<J>, sid: nat) {
    step.Handle? && step.frame.m.Request? && step.frame.s == sid != CONTROL_STREAM_ID
  }

  ghost predicate Taken<J>(steps: seq<Step<J>>, sid: nat) {
    exists k :: 0 <= k < |steps| && Takes(steps[k], sid)
  }

  /** The endpoint is of the same kind, hands out ids in order, and is never open again. */
  ghost predicate GoesOn<J>(m: Mux<J>, t: Mux<J>) {
    t.accepts == m.accepts && (m.closed ==> t.closed) && m.nextId <= t.nextId
  }

  /** The same ids are used, those newly handed out included. */
  ghost predicate SameUse<J>(m: Mux<J>, t: Mux<J>) {
    forall sid: nat :: Used(t, sid) <==> Used(m, sid) || m.nextId <= sid < t.nextId
  }

  lemma EndUses<J>(m: Mux<J>, sid: nat, reason: Reason)
    ensures GoesOn(m, m.CloseStream(sid, reason)) && SameUse(m, m.CloseStream(sid, reason))
    ensures GoesOn(m, m.CancelStream(sid)) && SameUse(m, m.CancelStream(sid))
    ensures m.CloseStream(sid, reason).nextId == m.nextId == m.CancelStream(sid).nextId
  {
  }

  lemma SettleUses<J>(m: Mux<J>, sid: nat, message: Message<J>)
    ensures GoesOn(m, m.SettleStream(sid, message)) && SameUse(m, m.SettleStream(sid, message))
    ensures m.SettleStream(sid, message).nextId == m.nextId
  {
  }

  lemma HandleUses<J>(m: Mux<J>, frame: Frame<J>, sid: nat)
    requires !m.closed
    ensures var t := m.HandleFrame(frame).mux;
            && GoesOn(m, t) && t.nextId == m.nextId
            && (Used(t, sid) <==> Used(m, sid) || (m.accepts && Takes(Handle(frame), sid)))
  {
    hide Mux.CancelStream, Mux.SettleStream;
    if frame.s in m.streams || frame.s == CONTROL_STREAM_ID {
      EndUses(m, frame.s, Cancelled);
      SettleUses(m, frame.s, frame.m);
    }
  }

  lemma CallUses<J>(m: Mux<J>, sid: nat, name: string, params: Option<J>, aborted: bool, oversize: bool)
    ensures var t := m.RequestOn(sid, name, params, aborted, oversize); GoesOn(m, t) && SameUse(m, t)
  {
    EndUses(m, sid, Cancelled);
    hide Mux.CancelStream;
  }

  lemma RefuseUses<J>(m: Mux<J>, sid: nat, error: J)
    ensures var t := m.RefuseStream(sid, error); GoesOn(m, t) && SameUse(m, t) && t.nextId == m.nextId
  {
    if m.IsOpen(sid) {
      var st := m.Get(sid).value;
      EndUses(m.Send(sid, Failure(Some(if st.replyId.Some? then st.replyId.value else Number(sid)), error)), sid,
        Closed);
    }
  }

  lemma OwnUses<J>(m: Mux<J>, step: Step<J>)
    requires !step.Handle? && !step.CloseAll?
    ensures GoesOn(m, Apply(m, step)) && SameUse(m, Apply(m, step))
  {
    hide Mux.RequestOn, Mux.CloseStream, Mux.CancelStream, Mux.RefuseStream;
    match step
    case Call(sid, name, params, aborted, oversize) => CallUses(m, sid, name, params, aborted, oversize);
    case AbortCall(sid) => EndUses(m.SendOnStream(sid, Notification(CANCEL_NOTIFICATION, None)), sid, Cancelled);
    case CloseOne(sid) => EndUses(m, sid, Closed);
    case Refuse(sid, error) => RefuseUses(m, sid, error);
    case _ =>
  }

  lemma StepUses<J>(m: Mux<J>, step: Step<J>, sid: nat)
    ensures GoesOn(m, Apply(m, step))
    ensures var t := Apply(m, step);
            t.closed || (Used(t, sid) <==>
              Used(m, sid) || m.nextId <= sid < t.nextId || (m.accepts && Takes(step, sid)))
  {
    hide Mux.HandleFrame;
    if step.Handle? {
      if m.closed { ClosedStays(m, step.frame); } else { HandleUses(m, step.frame, sid); }
    } else if !step.CloseAll? {
      OwnUses(m, step);
    }
  }

  lemma ClosedStays<J>(m: Mux<J>, frame: Frame<J>)
    requires m.closed
    ensures m.HandleFrame(frame).mux == m
  {
  }

  /**
   In every run of an endpoint of any kind, the ids used are those it handed out and those the peer's requests
   took.
   */
  lemma {:induction false} RunUses<J>(m: Mux<J>, steps: seq<Step<J>>, sid: nat)
    ensures GoesOn(m, Run(m, steps))
    ensures var t := Run(m, steps);
            t.closed || (Used(t, sid) <==>
              Used(m, sid) || m.nextId <= sid < t.nextId || (m.accepts && Taken(steps, sid)))
    decreases |steps|
  {
    hide Apply, Takes, Used;
    if steps != [] {
      StepUses(m, steps[0], sid);
      RunUses(Apply(m, steps[0]), steps[1..], sid);
      assert Taken(steps, sid) <==> Takes(steps[0], sid) || Taken(steps[1..], sid) by { TakenFirst(steps, sid); }
    }
  }

  lemma TakenFirst<J>(steps: seq<Step<J>>, sid: nat)
    requires steps != []
    ensures Taken(steps, sid) <==> Takes(steps[0], sid) || Taken(steps[1..], sid)
  {
    hide Takes;
    if Taken(steps, sid) {
      var k :| 0 <= k < |steps| && Takes(steps[k], sid);
      assert k > 0 ==> Takes(steps[1..][k - 1], sid);
    }
    if Taken(steps[1..], sid) {
      var k :| 0 <= k < |steps| - 1 && Takes(steps[1..][k], sid);
      assert Takes(steps[k + 1], sid);
    }
  }

  /**
   After any run, in any role, an endpoint that can open a stream hands out a spent id exactly when its next
   id is spent, and overwrites an open stream exactly when its next id is open; one of the two happens
   exactly when it accepts requests and one of the peer's took that id.
   */
  lemma OpenCollides<J>(accepts: bool, maxOpenStreams: nat, capError: J, steps: seq<Step<J>>)
    requires var m := Run(NewMux(accepts, maxOpenStreams, capError), steps); !m.closed && |m.streams| < m.maxOpenStreams
    ensures var m := Run(NewMux(accepts, maxOpenStreams, capError), steps);
            var t, sid := m.OpenStream(), m.nextId;
            && t.Get(sid) == Some(NewStream)
            && (sid in t.closedIds <==> sid in m.closedIds)
            && (|t.streams| == |m.streams| <==> sid in m.streams)
            && (sid in t.closedIds || |t.streams| == |m.streams| <==> accepts && Taken(steps, sid))
  {
    hide Apply, Taken;
    var m := Run(NewMux(accepts, maxOpenStreams, capError), steps);
    RunUses(NewMux(accepts, maxOpenStreams, capError), steps, m.nextId);
    SizeAfterPut(m.streams, m.nextId, NewStream);
  }

  /**
   Outside a fixed role ids can collide: an endpoint that accepted, and closed, the peer's stream 1 hands
   out id 1 for its own first stream.
   */
  lemma MixedRoleReusesAnId(capError: int)
    ensures var m := NewMux<int>(true, MAX_CONCURRENT_STREAMS, capError);
            var steps := [Handle(Frame(1, Request(Number(1), "fs.stat", None))), CloseOne(1), Open];
            var t := Run(m, steps);
            1 in t.closedIds && 1 in t.streams
  {
    var m := NewMux<int>(true, MAX_CONCURRENT_STREAMS, capError);
    var h: Step<int>, c: Step<int>, o: Step<int> := Handle(Frame(1, Request(Number(1), "fs.stat", None))),
      CloseOne(1), Open;
    var m1 := Apply(m, h);
    assert m1.streams == map[1 := NewStream.(replyId := Some(Number(1)))];
    var m2 := Apply(m1, c);
    assert |m2.streams| == 0;
    var m3 := Apply(m2, o);
    assert [h, c, o][1..] == [c, o] && [c, o][1..] == [o] && [o][1..] == [];
    assert Run(m2, [o]) == m3;
    assert Run(m1, [c, o]) == m3;
    assert Run(m, [h, c, o]) == m3;
  }

  lemma PendingCallsWithout(streams: map<nat, Stream>, sid: nat, c: nat)
    requires sid in streams
    ensures c in PendingCalls(streams) <==>
            c in PendingCalls(streams - {sid}) || (streams[sid].pending.Some? && streams[sid].pending.value.call == c)
  {
    if c in PendingCalls(streams) {
      var r: nat :| r in streams && streams[r].pending.Some? && streams[r].pending.value.call == c;
      assert r != sid ==> r in streams - {sid};
    }
    if c in PendingCalls(streams - {sid}) {
      var r: nat :| r in streams - {sid} && streams[r].pending.Some? && streams[r].pending.value.call == c;
    }
  }

  lemma FailAllWithout<J>(streams: map<nat, Stream>, sid: nat, settled: map<nat, Outcome<J>>)
    requires sid in streams
    ensures var p := streams[sid].pending;
            FailAll(streams - {sid}, if p.Some? then settled[p.value.call := StreamEnded(Closed)] else settled)
            == FailAll(streams, settled)
  {
    forall c: nat
      ensures c in PendingCalls(streams) <==>
              c in PendingCalls(streams - {sid}) || (streams[sid].pending.Some? && streams[sid].pending.value.call == c)
    {
      PendingCallsWithout(streams, sid, c);
    }
    hide PendingCalls;
  }

  /** Closing streams one by one ends where closing the session ends. */
  lemma CloseOneFirst<J>(m: Mux<J>, sid: nat)
    requires sid in m.streams && sid != CONTROL_STREAM_ID
    ensures m.CloseStream(sid, Closed).CloseSession() == m.CloseSession()
  {
    var t, p := m.CloseStream(sid, Closed), m.streams[sid].pending;
    var before := if m.control.closed then m.settled else m.Settled(m.control.pending, StreamEnded(Closed));
    var after := if m.control.closed then t.settled else t.Settled(t.control.pending, StreamEnded(Closed));
    assert after == if p.Some? then before[p.value.call := StreamEnded(Closed)] else before;
    FailAllWithout(m.streams, sid, before);
    assert t.closedIds + t.streams.Keys == m.closedIds + m.streams.Keys;
    hide FailAll;
  }
}
