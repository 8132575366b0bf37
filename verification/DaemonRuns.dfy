/** What every run of the daemon's session keeps, whatever it reads and whenever its operations finish. */
module DaemonRuns {
  import opened Text
  import opened Multiplexer
  import opened MultiplexerProofs
  import opened Daemon

  predicate IsResponse<J>(m: Message<J>) {
    m.Success? || m.Failure?
  }

  /** A response written on a numbered stream: its stream is spent, unless its operation keeps it. */
  ghost predicate Answered<J>(m: Mux<J>, keepers: set<nat>) {
    forall i :: 0 <= i < |m.sent| && IsResponse(m.sent[i].m) && m.sent[i].s != CONTROL_STREAM_ID ==>
      m.sent[i].s in m.closedIds || m.sent[i].s in keepers
  }

  /** Streams whose operation does not keep them get at most one response. */
  ghost predicate AnsweredOnce<J>(sent: seq<Frame<J>>, keepers: set<nat>) {
    forall i, j :: 0 <= i < j < |sent| && IsResponse(sent[i].m) && IsResponse(sent[j].m) ==>
      sent[i].s == sent[j].s && sent[i].s != CONTROL_STREAM_ID ==> sent[i].s in keepers
  }

  /** Every open numbered stream owes an answer to the request that opened it. */
  ghost predicate Owes<J>(m: Mux<J>) {
    forall sid :: sid in m.streams ==> m.streams[sid].replyId.Some?
  }

  ghost predicate SessionInv<J>(s: Session<J>) {
    && Inv(s.mux) && s.mux.accepts && Owes(s.mux)
    && (s.ended.Some? ==> s.mux.closed)
    && Answered(s.mux, s.keepers) && AnsweredOnce(s.mux.sent, s.keepers)
    && (forall sid :: sid in s.running && s.running[sid] ==> sid in s.keepers)
    && (s.started != {} ==> s.helloed)
    && s.running.Keys <= s.started && s.keepers <= s.started
  }

  /** A step that writes at most one frame; a response on a numbered stream spends it, unless it is kept. */
  ghost predicate Fair<J>(m: Mux<J>, t: Mux<J>, keepers: set<nat>) {
    && m.sent <= t.sent && |t.sent| <= |m.sent| + 1 && m.closedIds <= t.closedIds
    && (m.closed ==> t.sent == m.sent && t.closed) && (Owes(m) ==> Owes(t))
    && (|t.sent| == |m.sent| + 1 ==>
          var f := t.sent[|m.sent|];
          IsResponse(f.m) && f.s != CONTROL_STREAM_ID ==> f.s !in m.closedIds && (f.s in t.closedIds || f.s in keepers))
  }

  lemma FairKeeps<J>(m: Mux<J>, t: Mux<J>, keepers: set<nat>)
    requires Answered(m, keepers) && AnsweredOnce(m.sent, keepers) && Fair(m, t, keepers)
    ensures Answered(t, keepers) && AnsweredOnce(t.sent, keepers)
  {
    forall i, j | 0 <= i < j < |t.sent| && IsResponse(t.sent[i].m) && IsResponse(t.sent[j].m)
                  && t.sent[i].s == t.sent[j].s && t.sent[i].s != CONTROL_STREAM_ID
      ensures t.sent[i].s in keepers
    {
      assert t.sent[i] == m.sent[i];
      if j < |m.sent| {
        assert t.sent[j] == m.sent[j];
      }
    }
  }

  // Steps on the multiplexer.

  lemma CloseIsFair<J>(m: Mux<J>, sid: nat, reason: Reason, keepers: set<nat>)
    requires Inv(m)
    ensures var t := m.CloseStream(sid, reason); Fair(m, t, keepers) && Inv(t) && t.accepts == m.accepts
  {
    CloseStreamKeeps(m, sid, reason);
    hide Inv;
  }

  lemma RefuseIsFair<J>(m: Mux<J>, sid: nat, error: J, keepers: set<nat>)
    requires Inv(m)
    ensures var t := m.RefuseStream(sid, error); Fair(m, t, keepers) && Inv(t) && t.accepts == m.accepts
  {
    RefuseKeeps(m, sid, error);
    hide CallsOk, IdsOk;
  }

  lemma SaysIsFair<J>(m: Mux<J>, sid: nat, name: string, params: Option<J>, fits: bool, tooLarge: J, keepers: set<nat>)
    requires Inv(m)
    ensures var t := Written(m, sid, Notification(name, params), fits, tooLarge);
      Fair(m, t, keepers) && Inv(t) && t.accepts == m.accepts
  {
    hide CallsOk, IdsOk, Mux.RefuseStream;
    SendKeeps(m, sid, Notification(name, params));
    RefuseIsFair(m, sid, tooLarge, keepers);
  }

  /** A frame goes out on an open stream or not at all; only a refusal for its size spends the stream. */
  ghost predicate Writes<J>(m: Mux<J>, t: Mux<J>, sid: nat) {
    && t.accepts == m.accepts && m.sent <= t.sent && |t.sent| <= |m.sent| + 1 && m.closedIds <= t.closedIds
    && t.closed == m.closed && (m.closed ==> t.sent == m.sent) && (Owes(m) ==> Owes(t))
    && (|t.sent| == |m.sent| + 1 ==> t.sent[|m.sent|].s == sid && m.IsOpen(sid))
    && (sid in m.streams ==> sid in t.streams || sid in t.closedIds)
  }

  lemma SendWrites<J>(m: Mux<J>, sid: nat, message: Message<J>)
    requires Inv(m)
    ensures var t := m.SendOnStream(sid, message); Inv(t) && Writes(m, t, sid)
  {
    hide CallsOk, IdsOk;
    SendKeeps(m, sid, message);
  }

  lemma RefuseWrites<J>(m: Mux<J>, sid: nat, error: J)
    requires Inv(m)
    ensures var t := m.RefuseStream(sid, error); Inv(t) && Writes(m, t, sid)
  {
    hide CallsOk, IdsOk;
    RefuseKeeps(m, sid, error);
  }

  lemma WrittenIs<J>(m: Mux<J>, sid: nat, message: Message<J>, fits: bool, tooLarge: J)
    requires Inv(m)
    ensures var t := Written(m, sid, message, fits, tooLarge); Inv(t) && Writes(m, t, sid)
  {
    hide Inv, Writes, Mux.SendOnStream, Mux.RefuseStream;
    SendWrites(m, sid, message);
    RefuseWrites(m, sid, tooLarge);
  }

  lemma ReplyIs<J>(m: Mux<J>, sid: nat, build: Id -> Message<J>, fits: bool, tooLarge: J)
    requires Inv(m) && m.accepts
    ensures var t := Reply(m, sid, build, fits, tooLarge); Inv(t) && Writes(m, t, sid)
  {
    hide Inv, Written;
    if m.Get(sid).Some? && m.Get(sid).value.replyId.Some? {
      var st := m.Get(sid).value;
      var u := if sid == CONTROL_STREAM_ID then m.Put(sid, st.(replyId := None)) else m;
      ReplyIdKeeps(m, None);
      WrittenIs(u, sid, build(st.replyId.value), fits, tooLarge);
    }
  }

  /** An answer on a stream that is kept, or on the control stream. */
  lemma ReplyIsFair<J>(m: Mux<J>, sid: nat, build: Id -> Message<J>, fits: bool, tooLarge: J, keepers: set<nat>)
    requires Inv(m) && m.accepts && (sid in keepers || sid == CONTROL_STREAM_ID)
    ensures var t := Reply(m, sid, build, fits, tooLarge); Fair(m, t, keepers) && Inv(t) && t.accepts
  {
    hide Reply, CallsOk;
    ReplyIs(m, sid, build, fits, tooLarge);
  }

  /** An answer followed by the end of its stream. */
  lemma LastReplyIsFair<J>(m: Mux<J>, sid: nat, build: Id -> Message<J>, fits: bool, tooLarge: J, keepers: set<nat>)
    requires Inv(m) && m.accepts
    ensures var t := Reply(m, sid, build, fits, tooLarge).CloseStream(sid, Closed);
      Fair(m, t, keepers) && Inv(t) && t.accepts
  {
    hide Reply, CallsOk;
    ReplyIs(m, sid, build, fits, tooLarge);
    CloseStreamKeeps(Reply(m, sid, build, fits, tooLarge), sid, Closed);
  }

  lemma EndIsFair<J>(m: Mux<J>, keepers: set<nat>)
    requires Inv(m)
    ensures var t := m.CloseSession();
      Fair(m, t, keepers) && Inv(t) && t.accepts == m.accepts && t.closed && t.sent == m.sent
  {
    CloseSessionKeeps(m);
    hide Inv, FailAll;
  }

  lemma HandleIsFair<J>(m: Mux<J>, frame: Frame<J>, keepers: set<nat>)
    requires Inv(m) && m.accepts
    ensures var r := m.HandleFrame(frame);
            && Fair(m, r.mux, keepers) && Inv(r.mux) && r.mux.accepts
            && (r.delivery.Handled? ==>
              r.mux.sent == m.sent && r.delivery.stream == frame.s && r.delivery.request == frame.m && !m.closed)
            && (r.delivery.Handled? && frame.s != CONTROL_STREAM_ID ==>
              frame.s !in m.streams && frame.s !in m.closedIds)
  {
    HandleFrameKeeps(m, frame);
    HandleGrowsPlainly(m, frame);
    hide Inv;
  }

  lemma HandleGrowsPlainly<J>(m: Mux<J>, frame: Frame<J>)
    ensures var t := m.HandleFrame(frame).mux;
            && m.closedIds <= t.closedIds && t.accepts == m.accepts && m.sent <= t.sent && t.closed == m.closed
            && (Owes(m) ==> Owes(t))
  {
    hide Mux.CancelStream, Mux.SettleStream, Owes;
    CancelsPlainly(m, frame.s);
    SettlesPlainly(m, frame.s, frame.m);
    if frame.m.Request? { TakesPlainly(m, frame); }
  }

  lemma CancelsPlainly<J>(m: Mux<J>, sid: nat)
    ensures var t := m.CancelStream(sid);
            && m.closedIds <= t.closedIds && t.accepts == m.accepts && t.sent == m.sent && t.closed == m.closed
            && (Owes(m) ==> Owes(t))
  {
  }

  lemma SettlesPlainly<J>(m: Mux<J>, sid: nat, message: Message<J>)
    ensures var t := m.SettleStream(sid, message);
            && m.closedIds == t.closedIds && t.accepts == m.accepts && t.sent == m.sent && t.closed == m.closed
            && (Owes(m) ==> Owes(t))
  {
  }

  /** A frame that opens a stream, or meets the cap, or reaches the control stream. */
  lemma TakesPlainly<J>(m: Mux<J>, frame: Frame<J>)
    requires frame.m.Request?
    ensures Owes(m) ==> Owes(m.(streams := m.streams[frame.s := NewStream.(replyId := Some(frame.m.id))]))
    ensures forall id :: Owes(m) ==> Owes(m.(control := m.control.(replyId := id)))
    ensures forall ids, sent :: Owes(m) ==> Owes(m.(closedIds := ids, sent := sent))
  {
  }

  // Steps of the session.

  /** The multiplexer moves fairly; nothing else about the session changes but what the handshake allows. */
  lemma MuxStepKeeps<J>(s: Session<J>, t: Mux<J>)
    requires SessionInv(s) && Inv(t) && t.accepts && Fair(s.mux, t, s.keepers)
    ensures SessionInv(s.(mux := t)) && SessionInv(s.(mux := t, helloed := true))
  {
    hide Inv, Fair, Answered, AnsweredOnce;
    FairKeeps(s.mux, t, s.keepers);
    FairStaysClosed(s.mux, t, s.keepers);
  }

  lemma FairStaysClosed<J>(m: Mux<J>, t: Mux<J>, keepers: set<nat>)
    requires Fair(m, t, keepers)
    ensures (m.closed ==> t.closed && t.sent == m.sent) && (Owes(m) ==> Owes(t))
  {
  }

  lemma EndKeeps<J>(s: Session<J>, reason: EndReason)
    requires SessionInv(s)
    ensures SessionInv(EndWith(s, reason)) && (s.ended.Some? ==> EndWith(s, reason).mux.sent == s.mux.sent)
  {
    hide Inv, Fair, Answered, AnsweredOnce;
    EndIsFair(s.mux, s.keepers);
    MuxStepKeeps(s, s.mux.CloseSession());
  }

  /** An error answer that closes its stream. */
  lemma RefuseOnKeeps<J>(s: Session<J>, sid: nat, error: J, fits: bool, tooLarge: J)
    requires SessionInv(s)
    ensures SessionInv(s.(mux := RefuseOn(s.mux, sid, error, fits, tooLarge)))
    ensures s.mux.closed ==> RefuseOn(s.mux, sid, error, fits, tooLarge).sent == s.mux.sent
  {
    hide Inv, Fair, Answered, AnsweredOnce, Reply, Mux.CloseStream;
    LastReplyIsFair(s.mux, sid, FailureOf(error), fits, tooLarge, s.keepers);
    var t := RefuseOn(s.mux, sid, error, fits, tooLarge);
    FairStaysClosed(s.mux, t, s.keepers);
    MuxStepKeeps(s, t);
  }

  lemma HelloKeeps<J>(c: Config<J>, s: Session<J>, params: Option<J>, fits: bool)
    requires SessionInv(s)
    ensures SessionInv(Hello(c, s, params, fits))
    ensures Hello(c, s, params, fits).helloed ==> s.helloed || c.readVersion(params) == Some(PROTOCOL_VERSION)
    ensures Hello(c, s, params, fits).started == s.started
  {
    hide SessionInv, Reply, RefuseOn;
    var version := c.readVersion(params);
    if version == None {
      RefuseOnKeeps(s, CONTROL_STREAM_ID, c.badParams, fits, c.tooLarge);
    } else {
      var build := if version.value != PROTOCOL_VERSION then FailureOf(c.incompatible) else SuccessOf(c.hello);
      ControlReplyKeeps(s, build, fits, c.tooLarge);
      EndKeeps(s.(mux := Reply(s.mux, CONTROL_STREAM_ID, build, fits, c.tooLarge)), IncompatibleVersion);
    }
  }

  lemma ControlReplyKeeps<J>(s: Session<J>, build: Id -> Message<J>, fits: bool, tooLarge: J)
    requires SessionInv(s)
    ensures var t := Reply(s.mux, CONTROL_STREAM_ID, build, fits, tooLarge);
            SessionInv(s.(mux := t)) && SessionInv(s.(mux := t, helloed := true))
  {
    hide Inv, Fair, Answered, AnsweredOnce, Reply;
    ReplyIsFair(s.mux, CONTROL_STREAM_ID, build, fits, tooLarge, s.keepers);
    MuxStepKeeps(s, Reply(s.mux, CONTROL_STREAM_ID, build, fits, tooLarge));
  }

  /** An operation starts: only its stream, and only after the handshake. */
  lemma StartKeeps<J>(s: Session<J>, sid: nat, keeps: bool)
    requires SessionInv(s) && s.helloed
    ensures SessionInv(s.(running := s.running[sid := keeps], started := s.started + {sid},
                          keepers := if keeps then s.keepers + {sid} else s.keepers))
  {
    hide Inv;
  }

  lemma RequestKeeps<J>(c: Config<J>, s: Session<J>, sid: nat, name: string, params: Option<J>, fits: bool)
    requires SessionInv(s)
    ensures SessionInv(HandleRequest(c, s, sid, name, params, fits))
    ensures var t := HandleRequest(c, s, sid, name, params, fits);
            && (t.helloed ==>
              s.helloed || (sid == CONTROL_STREAM_ID && c.readVersion(params) == Some(PROTOCOL_VERSION)))
            && (t.started != s.started ==> s.helloed)
  {
    hide SessionInv, Reply, RefuseOn, Hello;
    if sid == CONTROL_STREAM_ID {
      HelloKeeps(c, s, params, fits);
    } else {
      RefuseOnKeeps(s, sid, c.noHandshake, fits, c.tooLarge);
      RefuseOnKeeps(s, sid, c.unknownMethod, fits, c.tooLarge);
      RefuseOnKeeps(s, sid, c.badParams, fits, c.tooLarge);
      RefuseOnKeeps(s, sid, c.exhausted, fits, c.tooLarge);
      if s.helloed {
        StartKeeps(s, sid, c.keepsOpen(name));
      }
    }
  }

  /** The line is a control request whose parameters carry this daemon's protocol version. */
  predicate MatchingHello<J>(c: Config<J>, event: Event<J>) {
    && event.Line? && event.input.Decoded? && event.input.frame.s == CONTROL_STREAM_ID && event.input.frame.m.Request?
    && c.readVersion(event.input.frame.m.params) == Some(PROTOCOL_VERSION)
  }

  /** What one event may do: the handshake completes only by a matching hello, and gates every operation. */
  ghost predicate Gated<J>(c: Config<J>, s: Session<J>, t: Session<J>, event: Event<J>) {
    && (t.helloed ==> s.helloed || MatchingHello(c, event))
    && (t.started != s.started ==> s.helloed)
    && (s.ended.Some? ==> t.mux.sent == s.mux.sent && t.ended == s.ended && t.started == s.started)
  }

  lemma DecodedKeeps<J>(c: Config<J>, s: Session<J>, frame: Frame<J>, fits: bool)
    requires SessionInv(s)
    ensures var t := HandleLine(c, s, Decoded(frame), fits); SessionInv(t) && Gated(c, s, t, Line(Decoded(frame), fits))
  {
    hide Inv, Fair, Answered, AnsweredOnce, HandleRequest, Mux.HandleFrame;
    HandleIsFair(s.mux, frame, s.keepers);
    var r := s.mux.HandleFrame(frame);
    MuxStepKeeps(s, r.mux);
    FairStaysClosed(s.mux, r.mux, s.keepers);
    if r.delivery.Handled? && r.delivery.request.Request? {
      RequestKeeps(c, s.(mux := r.mux), frame.s, frame.m.name, frame.m.params, fits);
    }
  }

  lemma LineKeeps<J>(c: Config<J>, s: Session<J>, input: Input<J>, fits: bool)
    requires SessionInv(s)
    ensures var t := HandleLine(c, s, input, fits); SessionInv(t) && Gated(c, s, t, Line(input, fits))
  {
    match input
    case Decoded(frame) => DecodedKeeps(c, s, frame, fits);
    case OversizeLine => EndKeeps(s, ProtocolError);
    case Undecoded(named) =>
      if named.Some? {
        hide Inv, Fair, Answered, AnsweredOnce, Mux.RefuseStream;
        RefuseIsFair(s.mux, named.value, c.badFrame, s.keepers);
        var t := s.mux.RefuseStream(named.value, c.badFrame);
        FairStaysClosed(s.mux, t, s.keepers);
        MuxStepKeeps(s, t);
      }
  }

  /** The answer an operation ends with, and what becomes of its stream. */
  function LastFrame<J>(c: Config<J>, s: Session<J>, sid: nat, ending: Ending<J>, expired: bool, fits: bool): Mux<J>
    requires sid in s.running
  {
    FinishOperation(c, s, sid, ending, expired, fits).mux
  }

  lemma RefuseTwice<J>(m: Mux<J>, sid: nat, error: J, fits: bool, tooLarge: J)
    ensures RefuseOn(m, sid, error, fits, tooLarge).CloseStream(sid, Closed) == RefuseOn(m, sid, error, fits, tooLarge)
  {
    hide Reply;
  }

  lemma FinishedIsFair<J>(c: Config<J>, s: Session<J>, sid: nat, ending: Ending<J>, expired: bool, fits: bool)
    requires SessionInv(s) && sid in s.running
    ensures var t := LastFrame(c, s, sid, ending, expired, fits); Fair(s.mux, t, s.keepers) && Inv(t) && t.accepts
  {
    hide Inv, Fair, Answered, AnsweredOnce, Reply, Mux.CloseStream;
    var error := if expired then c.exhausted else if ending.Threw? then ending.error else c.exhausted;
    LastReplyIsFair(s.mux, sid, FailureOf(error), fits, c.tooLarge, s.keepers);
    RefuseTwice(s.mux, sid, error, fits, c.tooLarge);
    if !expired && ending.Returned? {
      LastReplyIsFair(s.mux, sid, SuccessOf(ending.value), fits, c.tooLarge, s.keepers);
      if s.running[sid] {
        ReplyIsFair(s.mux, sid, SuccessOf(ending.value), fits, c.tooLarge, s.keepers);
      }
    }
  }

  lemma FinishedKeeps<J>(c: Config<J>, s: Session<J>, sid: nat, ending: Ending<J>, expired: bool, fits: bool)
    requires SessionInv(s)
    ensures var t := FinishOperation(c, s, sid, ending, expired, fits);
            SessionInv(t) && Gated(c, s, t, Finished(sid, ending, expired, fits))
  {
    hide Inv, Fair, Answered, AnsweredOnce, Reply, RefuseOn, Mux.CloseStream;
    if sid in s.running {
      FinishedIsFair(c, s, sid, ending, expired, fits);
      var t := LastFrame(c, s, sid, ending, expired, fits);
      FairStaysClosed(s.mux, t, s.keepers);
      MuxStepKeeps(s, t);
    }
  }

  /** Every event keeps the session's invariant and passes the gate. */
  lemma EventKeeps<J>(c: Config<J>, s: Session<J>, event: Event<J>)
    requires SessionInv(s)
    ensures SessionInv(Happens(c, s, event)) && Gated(c, s, Happens(c, s, event), event)
  {
    hide Inv, Fair, Answered, AnsweredOnce, HandleLine, FinishOperation, Written, Mux.CloseStream;
    match event
    case Line(input, fits) => LineKeeps(c, s, input, fits);
    case Finished(sid, ending, expired, fits) => FinishedKeeps(c, s, sid, ending, expired, fits);
    case Ends(reason) => EndKeeps(s, reason);
    case Says(sid, name, params, fits) =>
      SaysIsFair(s.mux, sid, name, params, fits, c.tooLarge, s.keepers);
      FairStaysClosed(s.mux, Happens(c, s, event).mux, s.keepers);
      MuxStepKeeps(s, Happens(c, s, event).mux);
    case Closes(sid) =>
      CloseIsFair(s.mux, sid, Closed, s.keepers);
      FairStaysClosed(s.mux, Happens(c, s, event).mux, s.keepers);
      MuxStepKeeps(s, Happens(c, s, event).mux);
  }

  lemma ReplyAnswers<J>(m: Mux<J>, sid: nat, build: Id -> Message<J>, fits: bool, tooLarge: J)
    requires Inv(m) && m.accepts && Owes(m) && sid in m.streams
    ensures var t, id := Reply(m, sid, build, fits, tooLarge), m.streams[sid].replyId.value;
            && t.sent == m.sent + [Frame(sid, if fits then build(id) else Failure(Some(id), tooLarge))]
            && (sid in t.streams || sid in t.closedIds)
  {
    hide CallsOk;
  }

  lemma CloseSpends<J>(m: Mux<J>, sid: nat)
    requires sid != CONTROL_STREAM_ID && (sid in m.streams || sid in m.closedIds)
    ensures m.CloseStream(sid, Closed).sent == m.sent && sid in m.CloseStream(sid, Closed).closedIds
  {
  }

  /** The message an operation ends with, for the id it answers. */
  function FinalMessage<J>(c: Config<J>, ending: Ending<J>, expired: bool, fits: bool, id: Id): Message<J> {
    if !fits then Failure(Some(id), c.tooLarge)
    else if expired then Failure(Some(id), c.exhausted)
    else if ending.Threw? then Failure(Some(id), ending.error)
    else Success(id, ending.value)
  }

  /**
   An operation that finishes while its stream is open writes exactly one frame, the answer to the request
   that opened the stream; a stream that is not kept is then spent.
   */
  lemma FinishedAnswers<J>(c: Config<J>, s: Session<J>, sid: nat, ending: Ending<J>, expired: bool, fits: bool)
    requires SessionInv(s) && sid in s.running && sid in s.mux.streams
    ensures var t := FinishOperation(c, s, sid, ending, expired, fits).mux;
            && t.sent
              == s.mux.sent + [Frame(sid, FinalMessage(c, ending, expired, fits, s.mux.streams[sid].replyId.value))]
            && (!s.running[sid] ==> sid in t.closedIds)
  {
    ControlIsApart(s.mux);
    hide Inv, Answered, AnsweredOnce, Reply, Mux.CloseStream;
    var build := if expired then FailureOf(c.exhausted) else if ending.Threw? then FailureOf(ending.error)
      else SuccessOf(ending.value);
    ReplyAnswers(s.mux, sid, build, fits, c.tooLarge);
    var t := Reply(s.mux, sid, build, fits, c.tooLarge);
    CloseSpends(t, sid);
    CloseSpends(t.CloseStream(sid, Closed), sid);
  }

  /** The error a request is refused with, if it is. */
  function Refusal<J>(c: Config<J>, s: Session<J>, name: string, params: Option<J>): Option<J> {
    if !s.helloed then Some(c.noHandshake)
    else if !c.isOperation(name) then Some(c.unknownMethod)
    else if c.readBudget(params) == None then Some(c.badParams)
    else if c.readBudget(params).value <= 0 then Some(c.exhausted)
    else None
  }

  lemma RefuseOnAnswers<J>(m: Mux<J>, sid: nat, error: J, fits: bool, tooLarge: J)
    requires Inv(m) && m.accepts && Owes(m) && sid in m.streams
    ensures var t, id := RefuseOn(m, sid, error, fits, tooLarge), m.streams[sid].replyId.value;
            t.sent == m.sent + [Frame(sid, Failure(Some(id), if fits then error else tooLarge))] && sid in t.closedIds
  {
    ControlIsApart(m);
    hide Inv, Reply, Mux.CloseStream, Owes;
    ReplyAnswers(m, sid, FailureOf(error), fits, tooLarge);
    CloseSpends(Reply(m, sid, FailureOf(error), fits, tooLarge), sid);
  }

  /**
   A request on a numbered stream is refused with one error frame under its id, and its stream is spent; or
   its operation starts, nothing is written, and its stream stays open. A refusal that does not fit is written
   with the error for that instead.
   */
  lemma RequestAnswered<J>(c: Config<J>, s: Session<J>, sid: nat, name: string, params: Option<J>, fits: bool)
    requires SessionInv(s) && sid in s.mux.streams
    ensures var t, refusal := HandleRequest(c, s, sid, name, params, fits), Refusal(c, s, name, params);
            var id := s.mux.streams[sid].replyId.value;
            if refusal.Some?
            then t.mux.sent == s.mux.sent + [Frame(sid, Failure(Some(id), if fits then refusal.value else c.tooLarge))]
                 && sid in t.mux.closedIds && t.started == s.started
            else
              && t.mux == s.mux && t.running == s.running[sid := c.keepsOpen(name)] && t.started == s.started + {sid}
              && t.keepers == s.keepers + if c.keepsOpen(name) then {sid} else {}
  {
    ControlIsApart(s.mux);
    hide Inv, RefuseOn, Answered, AnsweredOnce;
    if Refusal(c, s, name, params).Some? {
      RefuseOnAnswers(s.mux, sid, Refusal(c, s, name, params).value, fits, c.tooLarge);
    }
  }

  /** What the handshake is answered with; an answer that does not fit is refused under the fallback id. */
  function HelloMessage<J>(c: Config<J>, version: Option<int>, id: Id, fits: bool): Message<J> {
    if !fits then Failure(Some(Number(CONTROL_STREAM_ID)), c.tooLarge)
    else if version == None then Failure(Some(id), c.badParams)
    else if version.value != PROTOCOL_VERSION then Failure(Some(id), c.incompatible)
    else Success(id, c.hello)
  }

  /** The handshake's answer, under the id of the request that asked. */
  lemma HelloAnswered<J>(c: Config<J>, s: Session<J>, params: Option<J>, fits: bool)
    requires SessionInv(s) && !s.mux.closed && s.mux.control.replyId.Some?
    ensures var t, id, version := Hello(c, s, params, fits), s.mux.control.replyId.value, c.readVersion(params);
            && t.mux.sent == s.mux.sent + [Frame(CONTROL_STREAM_ID, HelloMessage(c, version, id, fits))]
            && (version == Some(PROTOCOL_VERSION) ==> t.helloed)
            && (version.Some? && version.value != PROTOCOL_VERSION ==>
              t.ended == Some(IncompatibleVersion) && t.helloed == s.helloed)
  {
    hide Inv, Answered, AnsweredOnce, Reply, Mux.CloseStream, Mux.CloseSession;
    var version := c.readVersion(params);
    var build := if version == None then FailureOf(c.badParams)
                 else if version.value != PROTOCOL_VERSION then FailureOf(c.incompatible)
                 else SuccessOf(c.hello);
    ControlReplies(s.mux, build, fits, c.tooLarge);
    ControlStays(s.mux, build, fits, c.tooLarge);
    ClosingSaysNothing(Reply(s.mux, CONTROL_STREAM_ID, build, fits, c.tooLarge));
  }

  /** The control stream answers the request it carries, or is refused under the fallback id. */
  lemma ControlReplies<J>(m: Mux<J>, build: Id -> Message<J>, fits: bool, tooLarge: J)
    requires Inv(m) && !m.closed && m.control.replyId.Some?
    ensures Reply(m, CONTROL_STREAM_ID, build, fits, tooLarge).sent
         == m.sent + [Frame(CONTROL_STREAM_ID, if fits then build(m.control.replyId.value)
                                               else Failure(Some(Number(CONTROL_STREAM_ID)), tooLarge))]
  {
    hide CallsOk, IdsOk;
  }

  lemma ControlStays<J>(m: Mux<J>, build: Id -> Message<J>, fits: bool, tooLarge: J)
    ensures var t := Reply(m, CONTROL_STREAM_ID, build, fits, tooLarge);
            t.CloseStream(CONTROL_STREAM_ID, Closed) == t
  {
    hide Reply;
  }

  lemma ClosingSaysNothing<J>(m: Mux<J>)
    ensures m.CloseSession().sent == m.sent
  {
    hide FailAll;
  }

  // Whole runs.

  function Serve<J>(c: Config<J>, s: Session<J>, events: seq<Event<J>>): Session<J>
    decreases |events|
  {
    if events == [] then s else Serve(c, Happens(c, s, events[0]), events[1..])
  }

  lemma {:induction false} ServeKeeps<J>(c: Config<J>, s: Session<J>, events: seq<Event<J>>)
    requires SessionInv(s)
    ensures var t := Serve(c, s, events);
            && SessionInv(t)
            && (s.ended.Some? ==> t.mux.sent == s.mux.sent && t.started == s.started)
            && (t.helloed && !s.helloed ==> exists k :: 0 <= k < |events| && MatchingHello(c, events[k]))
    decreases |events|
  {
    hide SessionInv, Happens, MatchingHello;
    if events != [] {
      var u := Happens(c, s, events[0]);
      EventKeeps(c, s, events[0]);
      ServeKeeps(c, u, events[1..]);
      var t := Serve(c, s, events);
      if t.helloed && !u.helloed {
        var k :| 0 <= k < |events[1..]| && MatchingHello(c, events[1..][k]);
        assert MatchingHello(c, events[k + 1]);
      }
    }
  }

  /** No operation starts in a run that has not yet read a hello with the matching version. */
  lemma NothingRunsBeforeHello<J>(c: Config<J>, capError: J, events: seq<Event<J>>)
    requires forall k :: 0 <= k < |events| ==> !MatchingHello(c, events[k])
    ensures Serve(c, NewSession(capError), events).started == {}
  {
    hide MatchingHello, Serve;
    NewMuxOk(true, MAX_CONCURRENT_STREAMS, capError);
    ServeKeeps(c, NewSession(capError), events);
  }

  lemma {:induction false} ServeInTwo<J>(c: Config<J>, s: Session<J>, before: seq<Event<J>>, after: seq<Event<J>>)
    ensures Serve(c, s, before + after) == Serve(c, Serve(c, s, before), after)
    decreases |before|
  {
    if before == [] {
      assert before + after == after;
    } else {
      assert (before + after)[1..] == before[1..] + after;
      ServeInTwo(c, Happens(c, s, before[0]), before[1..], after);
    }
  }

  /** Once the session ended, nothing is written and nothing starts, whatever still happens. */
  lemma NothingAfterTheEnd<J>(c: Config<J>, capError: J, before: seq<Event<J>>, after: seq<Event<J>>)
    requires Serve(c, NewSession(capError), before).ended.Some?
    ensures Serve(c, NewSession(capError), before + after).mux.sent == Serve(c, NewSession(capError), before).mux.sent
    ensures Serve(c, NewSession(capError), before + after).started == Serve(c, NewSession(capError), before).started
  {
    hide Serve;
    NewMuxOk(true, MAX_CONCURRENT_STREAMS, capError);
    ServeKeeps(c, NewSession(capError), before);
    ServeInTwo(c, NewSession(capError), before, after);
    ServeKeeps(c, Serve(c, NewSession(capError), before), after);
  }

  /** In every run a numbered stream whose operation does not keep it is answered at most once. */
  lemma AnsweredAtMostOnce<J>(c: Config<J>, capError: J, events: seq<Event<J>>, i: nat, j: nat)
    requires var t := Serve(c, NewSession(capError), events);
             && i < |t.mux.sent| && j < |t.mux.sent| && t.mux.sent[i].s == t.mux.sent[j].s
             && IsResponse(t.mux.sent[i].m) && IsResponse(t.mux.sent[j].m)
             && t.mux.sent[i].s != CONTROL_STREAM_ID && t.mux.sent[i].s !in t.keepers
    ensures i == j
  {
    hide Serve, Inv;
    NewMuxOk(true, MAX_CONCURRENT_STREAMS, capError);
    ServeKeeps(c, NewSession(capError), events);
  }
}
