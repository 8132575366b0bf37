/** What the daemon does with what it reads, told of the lines and events themselves. */
module DaemonContract {
  import opened Text
  import opened Multiplexer
  import opened MultiplexerProofs
  import opened MultiplexerSteps
  import opened Daemon
  import opened DaemonRuns

  // Which ids are used, and whether the session is over.

  /** The same ids are used, and the session is no more and no less over. */
  ghost predicate SameIds<J>(m: Mux<J>, t: Mux<J>) {
    t.closed == m.closed && forall sid: nat :: Used(t, sid) <==> Used(m, sid)
  }

  lemma CloseSame<J>(m: Mux<J>, sid: nat)
    ensures SameIds(m, m.CloseStream(sid, Closed))
  {
  }

  lemma WrittenSame<J>(m: Mux<J>, sid: nat, message: Message<J>, fits: bool, tooLarge: J)
    ensures SameIds(m, Written(m, sid, message, fits, tooLarge))
  {
    if !fits {
      RefuseSame(m, sid, tooLarge);
      hide Mux.RefuseStream;
    }
  }

  lemma RefuseSame<J>(m: Mux<J>, sid: nat, error: J)
    ensures SameIds(m, m.RefuseStream(sid, error))
  {
    if m.IsOpen(sid) {
      var st := m.Get(sid).value;
      CloseSame(m.Send(sid, Failure(Some(if st.replyId.Some? then st.replyId.value else Number(sid)), error)), sid);
      hide Mux.CloseStream;
    }
  }

  lemma ReplySame<J>(m: Mux<J>, sid: nat, build: Id -> Message<J>, fits: bool, tooLarge: J)
    ensures SameIds(m, Reply(m, sid, build, fits, tooLarge))
  {
    hide Written;
    if m.Get(sid).Some? && m.Get(sid).value.replyId.Some? {
      var st := m.Get(sid).value;
      WrittenSame(if sid == CONTROL_STREAM_ID then m.Put(sid, st.(replyId := None)) else m, sid,
        build(st.replyId.value), fits, tooLarge);
    }
  }

  lemma RefuseOnSame<J>(m: Mux<J>, sid: nat, error: J, fits: bool, tooLarge: J)
    ensures SameIds(m, RefuseOn(m, sid, error, fits, tooLarge))
  {
    hide Reply, Mux.CloseStream;
    ReplySame(m, sid, FailureOf(error), fits, tooLarge);
    CloseSame(Reply(m, sid, FailureOf(error), fits, tooLarge), sid);
  }

  // Which operation a stream carries.

  /** The line is a request on stream `sid`. */
  predicate Asks<J>(event: Event<J>, sid: nat) {
    event.Line? && event.input.Decoded? && event.input.frame.s == sid && event.input.frame.m.Request?
  }

  /** The method of the first request on stream `sid`. */
  function FirstMethod<J>(events: seq<Event<J>>, sid: nat): Option<string> {
    if events == [] then None
    else if Asks(events[0], sid) then Some(events[0].input.frame.m.name)
    else FirstMethod(events[1..], sid)
  }

  function Later<J>(asked: Option<string>, event: Event<J>, sid: nat): Option<string> {
    if asked == None && Asks(event, sid) then Some(event.input.frame.m.name) else asked
  }

  /** What the session remembers of a stream is what its first request asked for. */
  ghost predicate Remembers<J>(c: Config<J>, s: Session<J>, sid: nat, asked: Option<string>) {
    && (asked == None ==> s.mux.closed || !Used(s.mux, sid))
    && (asked.Some? ==> s.mux.closed || Used(s.mux, sid))
    && (sid in s.running ==> asked.Some? && s.running[sid] == c.keepsOpen(asked.value))
    && (sid in s.started ==> asked.Some?)
    && (sid in s.keepers <==> sid in s.started && c.keepsOpen(asked.value))
  }

  lemma RemembersOn<J>(c: Config<J>, s: Session<J>, t: Session<J>, sid: nat, asked: Option<string>)
    requires Remembers(c, s, sid, asked) && SameIds(s.mux, t.mux)
    requires t.started == s.started && t.keepers == s.keepers && t.running == s.running
    ensures Remembers(c, t, sid, asked)
  {
    hide Used;
  }

  lemma EndRemembers<J>(c: Config<J>, s: Session<J>, reason: EndReason, sid: nat, asked: Option<string>)
    requires Remembers(c, s, sid, asked)
    ensures Remembers(c, EndWith(s, reason), sid, asked)
  {
    hide Used;
    if s.ended == None {
      CloseCloses(s.mux);
      hide Mux.CloseSession;
    }
  }

  lemma CloseCloses<J>(m: Mux<J>)
    ensures m.CloseSession().closed
  {
  }

  lemma HelloRemembers<J>(c: Config<J>, s: Session<J>, params: Option<J>, fits: bool, sid: nat, asked: Option<string>)
    requires Remembers(c, s, sid, asked)
    ensures Remembers(c, Hello(c, s, params, fits), sid, asked)
  {
    hide Remembers, Reply, RefuseOn, EndWith;
    var version := c.readVersion(params);
    if version == None {
      RefuseOnSame(s.mux, CONTROL_STREAM_ID, c.badParams, fits, c.tooLarge);
      RemembersOn(c, s, Hello(c, s, params, fits), sid, asked);
    } else {
      var build := if version.value != PROTOCOL_VERSION then FailureOf(c.incompatible) else SuccessOf(c.hello);
      var t := s.(mux := Reply(s.mux, CONTROL_STREAM_ID, build, fits, c.tooLarge));
      ReplySame(s.mux, CONTROL_STREAM_ID, build, fits, c.tooLarge);
      RemembersOn(c, s, t, sid, asked);
      EndRemembers(c, t, IncompatibleVersion, sid, asked);
      RemembersOn(c, s, t.(helloed := true), sid, asked);
    }
  }

  lemma RefusedRemembers<J>(c: Config<J>, s: Session<J>, r: nat, error: J, fits: bool, sid: nat, asked: Option<string>)
    requires Remembers(c, s, sid, asked)
    ensures Remembers(c, s.(mux := RefuseOn(s.mux, r, error, fits, c.tooLarge)), sid, asked)
  {
    hide Remembers, RefuseOn;
    RefuseOnSame(s.mux, r, error, fits, c.tooLarge);
    RemembersOn(c, s, s.(mux := RefuseOn(s.mux, r, error, fits, c.tooLarge)), sid, asked);
  }

  /** A handled request: the first on its stream. */
  lemma HandledRemembers<J>(
      c: Config<J>, s: Session<J>, r: nat, name: string, params: Option<J>, fits: bool, sid: nat, asked: Option<string>)
    requires Remembers(c, s, sid, asked)
      && (r == sid && sid != CONTROL_STREAM_ID ==> asked == Some(name) && sid !in s.started)
    requires sid != CONTROL_STREAM_ID
    ensures Remembers(c, HandleRequest(c, s, r, name, params, fits), sid, asked)
  {
    hide Used, RefuseOn, Hello;
    if r == CONTROL_STREAM_ID {
      HelloRemembers(c, s, params, fits, sid, asked);
    } else {
      RefusedRemembers(c, s, r, c.noHandshake, fits, sid, asked);
      RefusedRemembers(c, s, r, c.unknownMethod, fits, sid, asked);
      RefusedRemembers(c, s, r, c.badParams, fits, sid, asked);
      RefusedRemembers(c, s, r, c.exhausted, fits, sid, asked);
    }
  }

  /** What a frame does to the ids: a request takes its stream's, unless the session is over. */
  lemma FrameTakes<J>(m: Mux<J>, frame: Frame<J>, sid: nat)
    requires m.accepts
    ensures var r := m.HandleFrame(frame);
            && r.mux.closed == m.closed
            && (m.closed ==> r.mux == m && !r.delivery.Handled?)
            && (!m.closed ==>
              (Used(r.mux, sid) <==> Used(m, sid) || (frame.m.Request? && frame.s == sid != CONTROL_STREAM_ID)))
            && (r.delivery.Handled? ==> r.delivery == Handled(frame.s, frame.m) && frame.m.Request?)
            && (r.delivery.Handled? && frame.s != CONTROL_STREAM_ID ==> !Used(m, frame.s))
  {
    if m.closed {
      ClosedTakesNothing(m, frame);
    } else {
      HandleUses(m, frame, sid);
      FrameKeepsOpen(m, frame);
    }
  }

  lemma FrameKeepsOpen<J>(m: Mux<J>, frame: Frame<J>)
    ensures var r := m.HandleFrame(frame);
            && r.mux.closed == m.closed
            && (r.delivery.Handled? ==> r.delivery == Handled(frame.s, frame.m) && frame.m.Request?)
            && (r.delivery.Handled? && frame.s != CONTROL_STREAM_ID ==> !Used(m, frame.s))
  {
  }

  lemma DecodedRemembers<J>(c: Config<J>, s: Session<J>, frame: Frame<J>, fits: bool, sid: nat, asked: Option<string>)
    requires s.mux.accepts && Remembers(c, s, sid, asked) && sid != CONTROL_STREAM_ID
    ensures Remembers(c, HandleLine(c, s, Decoded(frame), fits), sid, Later(asked, Line(Decoded(frame), fits), sid))
  {
    hide Used, HandleRequest, Mux.HandleFrame;
    FrameTakes(s.mux, frame, sid);
    var r := s.mux.HandleFrame(frame);
    var t, asked' := s.(mux := r.mux), Later(asked, Line(Decoded(frame), fits), sid);
    if r.delivery.Handled? {
      HandledRemembers(c, t, frame.s, frame.m.name, frame.m.params, fits, sid, asked');
    }
  }

  lemma EventRemembers<J>(c: Config<J>, s: Session<J>, event: Event<J>, sid: nat, asked: Option<string>)
    requires s.mux.accepts && Remembers(c, s, sid, asked) && sid != CONTROL_STREAM_ID
    ensures Remembers(c, Happens(c, s, event), sid, Later(asked, event, sid))
  {
    hide Remembers, EndWith, Written, Mux.CloseStream, FinishOperation;
    match event
    case Line(input, fits) => LineRemembers(c, s, input, fits, sid, asked);
    case Finished(r, ending, expired, fits) => FinishedRemembers(c, s, r, ending, expired, fits, sid, asked);
    case Says(r, name, params, fits) =>
      WrittenSame(s.mux, r, Notification(name, params), fits, c.tooLarge);
      RemembersOn(c, s, Happens(c, s, event), sid, asked);
    case Closes(r) =>
      CloseSame(s.mux, r);
      RemembersOn(c, s, Happens(c, s, event), sid, asked);
    case Ends(reason) => EndRemembers(c, s, reason, sid, asked);
  }

  lemma LineRemembers<J>(c: Config<J>, s: Session<J>, input: Input<J>, fits: bool, sid: nat, asked: Option<string>)
    requires s.mux.accepts && Remembers(c, s, sid, asked) && sid != CONTROL_STREAM_ID
    ensures Remembers(c, HandleLine(c, s, input, fits), sid, Later(asked, Line(input, fits), sid))
  {
    hide Remembers, EndWith, Mux.RefuseStream;
    match input
    case OversizeLine => EndRemembers(c, s, ProtocolError, sid, asked);
    case Undecoded(named) =>
      if named.Some? {
        RefuseSame(s.mux, named.value, c.badFrame);
        RemembersOn(c, s, HandleLine(c, s, input, fits), sid, asked);
      }
    case Decoded(frame) => DecodedRemembers(c, s, frame, fits, sid, asked);
  }

  lemma FinishedRemembers<J>(
      c: Config<J>, s: Session<J>, r: nat, ending: Ending<J>, expired: bool, fits: bool, sid: nat,
      asked: Option<string>)
    requires Remembers(c, s, sid, asked)
    ensures Remembers(c, FinishOperation(c, s, r, ending, expired, fits), sid, asked)
  {
    hide Used, Reply, RefuseOn, Mux.CloseStream;
    if r in s.running {
      var m :=
        if expired then RefuseOn(s.mux, r, c.exhausted, fits, c.tooLarge)
        else if ending.Threw? then RefuseOn(s.mux, r, ending.error, fits, c.tooLarge)
        else Reply(s.mux, r, SuccessOf(ending.value), fits, c.tooLarge);
      RefuseOnSame(s.mux, r, c.exhausted, fits, c.tooLarge);
      if ending.Threw? { RefuseOnSame(s.mux, r, ending.error, fits, c.tooLarge); }
      else { ReplySame(s.mux, r, SuccessOf(ending.value), fits, c.tooLarge); }
      CloseSame(m, r);
    }
  }

  lemma {:induction false} ServeRemembers<J>(c: Config<J>, s: Session<J>, events: seq<Event<J>>, sid: nat,
      asked: Option<string>)
    requires SessionInv(s) && Remembers(c, s, sid, asked) && sid != CONTROL_STREAM_ID
    ensures Remembers(c, Serve(c, s, events), sid, if asked.Some? then asked else FirstMethod(events, sid))
    decreases |events|
  {
    hide Remembers, Happens;
    if events != [] {
      Accepting(s);
      EventRemembers(c, s, events[0], sid, asked);
      EventKeeps(c, s, events[0]);
      hide SessionInv;
      ServeRemembers(c, Happens(c, s, events[0]), events[1..], sid, Later(asked, events[0], sid));
    }
  }

  lemma Accepting<J>(s: Session<J>)
    requires SessionInv(s)
    ensures s.mux.accepts
  {
  }

  lemma FreshRemembers<J>(c: Config<J>, capError: J, sid: nat)
    ensures SessionInv(NewSession(capError)) && Remembers(c, NewSession(capError), sid, None)
  {
    NewMuxOk(true, MAX_CONCURRENT_STREAMS, capError);
  }

  /**
   In every run: the stream of an operation that runs is kept open exactly when the method of the first
   request on it is one that keeps its stream, and so are the streams recorded as kept.
   */
  lemma StreamsKeptAsAsked<J>(c: Config<J>, capError: J, events: seq<Event<J>>, sid: nat)
    requires sid != CONTROL_STREAM_ID
    ensures var t, asked := Serve(c, NewSession(capError), events), FirstMethod(events, sid);
            && (sid in t.running ==> asked.Some? && t.running[sid] == c.keepsOpen(asked.value))
            && (sid in t.keepers <==> sid in t.started && asked.Some? && c.keepsOpen(asked.value))
  {
    FreshRemembers(c, capError, sid);
    hide SessionInv, Serve;
    ServeRemembers(c, NewSession(capError), events, sid, None);
  }

  /** In every run a stream whose first request is for a method that does not keep it carries at most one response. */
  lemma OneResponseEach<J>(c: Config<J>, capError: J, events: seq<Event<J>>, sid: nat, i: nat, j: nat)
    requires sid != CONTROL_STREAM_ID
    requires FirstMethod(events, sid).Some? ==> !c.keepsOpen(FirstMethod(events, sid).value)
    requires var sent := Serve(c, NewSession(capError), events).mux.sent;
             && i < |sent| && j < |sent| && sent[i].s == sid == sent[j].s && IsResponse(sent[i].m)
               && IsResponse(sent[j].m)
    ensures i == j
  {
    hide Serve;
    StreamsKeptAsAsked(c, capError, events, sid);
    AnsweredAtMostOnce(c, capError, events, i, j);
  }

  /** Once its operation finishes, such a stream is spent; that of a method that keeps it stays open after a result. */
  lemma SpentWhenFinished<J>(c: Config<J>, capError: J, events: seq<Event<J>>, sid: nat, ending: Ending<J>,
      expired: bool, fits: bool)
    requires sid != CONTROL_STREAM_ID && sid in Serve(c, NewSession(capError), events).running
    ensures FirstMethod(events, sid).Some?
    ensures var s := Serve(c, NewSession(capError), events);
            var t := Serve(c, NewSession(capError), events + [Finished(sid, ending, expired, fits)]);
            var keeps := c.keepsOpen(FirstMethod(events, sid).value);
            && (!keeps && sid in s.mux.streams ==> sid in t.mux.closedIds)
            && (keeps && sid in s.mux.streams && ending.Returned? && !expired && fits ==> sid in t.mux.streams)
            && sid !in t.running
  {
    var s := Serve(c, NewSession(capError), events);
    var last := Finished(sid, ending, expired, fits);
    FreshRemembers(c, capError, sid);
    ServeKeeps(c, NewSession(capError), events);
    ServeRemembers(c, NewSession(capError), events, sid, None);
    ServeInTwo(c, NewSession(capError), events, [last]);
    OneEvent(c, s, last);
    hide Serve;
    if sid in s.mux.streams {
      FinishedAnswers(c, s, sid, ending, expired, fits);
      if s.running[sid] && ending.Returned? && !expired && fits {
        ResultLeavesOpen(s.mux, sid, SuccessOf(ending.value), c.tooLarge);
      }
    }
  }

  lemma OneEvent<J>(c: Config<J>, s: Session<J>, event: Event<J>)
    ensures Serve(c, s, [event]) == Happens(c, s, event)
  {
    var one := [event];
    assert one[1..] == [];
  }

  lemma ResultLeavesOpen<J>(m: Mux<J>, sid: nat, build: Id -> Message<J>, tooLarge: J)
    requires sid in m.streams && sid != CONTROL_STREAM_ID
    ensures sid in Reply(m, sid, build, true, tooLarge).streams
  {
  }

  // Why a session ends.

  /** The event ends the session, if nothing has: its own end, a line too long, or a hello of another version. */
  function EndsFor<J>(c: Config<J>, event: Event<J>): Option<EndReason> {
    match event
    case Ends(reason) => Some(reason)
    case Line(OversizeLine, _) => Some(ProtocolError)
    case Line(Decoded(frame), _) =>
      if frame.s == 0 && frame.m.Request? && frame.m.name != "cancel" && c.readVersion(frame.m.params).Some?
         && c.readVersion(frame.m.params).value != 1
      then Some(IncompatibleVersion) else None
    case _ => None
  }

  function FirstEnd<J>(c: Config<J>, events: seq<Event<J>>): Option<EndReason> {
    if events == [] then None
    else if EndsFor(c, events[0]).Some? then EndsFor(c, events[0])
    else FirstEnd(c, events[1..])
  }

  ghost predicate OpenUnlessEnded<J>(s: Session<J>) {
    s.mux.closed <==> s.ended.Some?
  }

  lemma RequestEnds<J>(c: Config<J>, s: Session<J>, sid: nat, name: string, params: Option<J>, fits: bool)
    requires !s.mux.closed && s.ended == None
    ensures var t := HandleRequest(c, s, sid, name, params, fits);
            && OpenUnlessEnded(t)
            && t.ended == if sid == 0 && c.readVersion(params).Some? && c.readVersion(params).value != 1
              then Some(IncompatibleVersion) else None
  {
    hide Reply, RefuseOn, Mux.CloseSession;
    RefuseOnSame(s.mux, sid, c.noHandshake, fits, c.tooLarge);
    RefuseOnSame(s.mux, sid, c.unknownMethod, fits, c.tooLarge);
    RefuseOnSame(s.mux, sid, c.badParams, fits, c.tooLarge);
    RefuseOnSame(s.mux, sid, c.exhausted, fits, c.tooLarge);
    ReplySame(s.mux, CONTROL_STREAM_ID, FailureOf(c.incompatible), fits, c.tooLarge);
    ReplySame(s.mux, CONTROL_STREAM_ID, SuccessOf(c.hello), fits, c.tooLarge);
    CloseCloses(Reply(s.mux, CONTROL_STREAM_ID, FailureOf(c.incompatible), fits, c.tooLarge));
  }

  lemma LineEnds<J>(c: Config<J>, s: Session<J>, input: Input<J>, fits: bool)
    requires s.mux.accepts && !s.mux.closed && s.ended == None
    ensures var t := HandleLine(c, s, input, fits); OpenUnlessEnded(t) && t.ended == EndsFor(c, Line(input, fits))
  {
    hide HandleRequest, Mux.HandleFrame, Mux.RefuseStream, Mux.CloseSession;
    match input
    case OversizeLine => CloseCloses(s.mux);
    case Undecoded(named) => if named.Some? { RefuseSame(s.mux, named.value, c.badFrame); }
    case Decoded(frame) =>
      FrameKeepsOpen(s.mux, frame);
      if frame.s == 0 { ControlHandles(s.mux, frame); }
      var r := s.mux.HandleFrame(frame);
      if r.delivery.Handled? { RequestEnds(c, s.(mux := r.mux), frame.s, frame.m.name, frame.m.params, fits); }
  }

  lemma ControlHandles<J>(m: Mux<J>, frame: Frame<J>)
    requires m.accepts && !m.closed && frame.s == 0
    ensures m.HandleFrame(frame).delivery.Handled? <==> frame.m.Request? && frame.m.name != "cancel"
  {
  }

  lemma EventEnds<J>(c: Config<J>, s: Session<J>, event: Event<J>)
    requires s.mux.accepts && !s.mux.closed && s.ended == None
    ensures var t := Happens(c, s, event); OpenUnlessEnded(t) && t.ended == EndsFor(c, event)
  {
    hide HandleLine, Written, Mux.CloseStream, Mux.CloseSession, Reply, RefuseOn;
    match event
    case Line(input, fits) => LineEnds(c, s, input, fits);
    case Finished(sid, ending, expired, fits) =>
      if sid in s.running {
        RefuseOnSame(s.mux, sid, c.exhausted, fits, c.tooLarge);
        if ending.Threw? { RefuseOnSame(s.mux, sid, ending.error, fits, c.tooLarge); }
        else { ReplySame(s.mux, sid, SuccessOf(ending.value), fits, c.tooLarge); }
        var m :=
          if expired then RefuseOn(s.mux, sid, c.exhausted, fits, c.tooLarge)
          else if ending.Threw? then RefuseOn(s.mux, sid, ending.error, fits, c.tooLarge)
          else Reply(s.mux, sid, SuccessOf(ending.value), fits, c.tooLarge);
        CloseSame(m, sid);
      }
    case Says(sid, name, params, fits) => WrittenSame(s.mux, sid, Notification(name, params), fits, c.tooLarge);
    case Closes(sid) => CloseSame(s.mux, sid);
    case Ends(reason) => CloseCloses(s.mux);
  }

  lemma EndedStays<J>(c: Config<J>, s: Session<J>, event: Event<J>)
    requires SessionInv(s) && s.ended.Some?
    ensures Happens(c, s, event).ended == s.ended
  {
    EventKeeps(c, s, event);
    hide Happens, SessionInv;
  }

  /** Every session ends for the first event that ends one, and not otherwise; a line past the bound is one of them. */
  lemma {:induction false} EndedByTheFirst<J>(c: Config<J>, s: Session<J>, events: seq<Event<J>>)
    requires SessionInv(s) && OpenUnlessEnded(s)
    ensures Serve(c, s, events).ended == if s.ended.Some? then s.ended else FirstEnd(c, events)
    decreases |events|
  {
    hide Happens, EndsFor;
    if events != [] {
      Accepting(s);
      if s.ended == None { EventEnds(c, s, events[0]); } else { EndedStays(c, s, events[0]); }
      EventKeeps(c, s, events[0]);
      if s.ended.Some? { StillOver(c, s, events[0]); }
      hide SessionInv;
      EndedByTheFirst(c, Happens(c, s, events[0]), events[1..]);
    }
  }

  lemma StillOver<J>(c: Config<J>, s: Session<J>, event: Event<J>)
    requires SessionInv(s) && s.ended.Some?
    ensures OpenUnlessEnded(Happens(c, s, event))
  {
    EventKeeps(c, s, event);
    hide Happens, Inv;
  }

  // One line at a time.

  /**
   A request on a stream of its own, read while the session is open and has room: it is refused with one error
   under its id and its stream spent, or its operation runs, nothing is written and its stream is open.
   */
  lemma RequestLine<J>(c: Config<J>, s: Session<J>, sid: nat, id: Id, name: string, params: Option<J>, fits: bool)
    requires SessionInv(s) && !s.mux.closed && sid != 0 && !Used(s.mux, sid) && |s.mux.streams| < s.mux.maxOpenStreams
    ensures var t := Happens(c, s, Line(Decoded(Frame(sid, Request(id, name, params))), fits));
            var error := if !s.helloed then Some(c.noHandshake)
                         else if !c.isOperation(name) then Some(c.unknownMethod)
                         else if c.readBudget(params) == None then Some(c.badParams)
                         else if c.readBudget(params).value <= 0 then Some(c.exhausted)
                         else None;
            if error.Some? then
              && t.mux.sent == s.mux.sent + [Frame(sid, Failure(Some(id), if fits then error.value else c.tooLarge))]
              && sid in t.mux.closedIds && t.started == s.started && t.running == s.running
            else
              && t.mux.sent == s.mux.sent && t.mux.IsOpen(sid) && t.started == s.started + {sid}
              && t.running == s.running[sid := c.keepsOpen(name)]
  {
    var u := StreamOpened(c, s, sid, id, name, params, fits);
    hide SessionInv, Happens, HandleRequest;
    RequestAnswered(c, u, sid, name, params, fits);
    RefusedStarts(c, u, sid, name, params, fits);
  }

  /** The session with the stream opened, before its request is looked at. */
  lemma StreamOpened<J>(c: Config<J>, s: Session<J>, sid: nat, id: Id, name: string, params: Option<J>, fits: bool)
    returns (u: Session<J>)
    requires SessionInv(s) && !s.mux.closed && sid != 0 && !Used(s.mux, sid) && |s.mux.streams| < s.mux.maxOpenStreams
    ensures u == s.(mux := u.mux) && SessionInv(u) && u.mux.sent == s.mux.sent && u.mux.IsOpen(sid)
    ensures sid in u.mux.streams && u.mux.streams[sid].replyId == Some(id)
    ensures Happens(c, s, Line(Decoded(Frame(sid, Request(id, name, params))), fits))
      == HandleRequest(c, u, sid, name, params, fits)
  {
    var frame := Frame(sid, Request(id, name, params));
    Accepting(s);
    MuxInv(s);
    RequestOpens(s.mux, sid, id, name, params);
    HandleIsFair(s.mux, frame, s.keepers);
    hide Inv, SessionInv, Mux.HandleFrame, HandleRequest, Fair;
    u := s.(mux := s.mux.HandleFrame(frame).mux);
    MuxStepKeeps(s, u.mux);
  }

  lemma RefusedStarts<J>(c: Config<J>, s: Session<J>, sid: nat, name: string, params: Option<J>, fits: bool)
    requires sid != 0
    ensures DaemonRuns.Refusal(c, s, name, params).Some? ==>
      HandleRequest(c, s, sid, name, params, fits).running == s.running
  {
  }

  lemma MuxInv<J>(s: Session<J>)
    requires SessionInv(s)
    ensures Inv(s.mux)
  {
  }

  /** A line that is no frame: the open stream it names is refused, once; a line that names none does nothing. */
  lemma BadLine<J>(c: Config<J>, s: Session<J>, named: Option<nat>, fits: bool)
    requires SessionInv(s)
    ensures var t := Happens(c, s, Line(Undecoded(named), fits));
            if named.Some? && s.mux.IsOpen(named.value) then
              var sid := named.value;
              var carried := s.mux.Get(sid).value.replyId;
              && t == s.(mux := t.mux)
              && Puts(s.mux, t.mux, sid,
                [Failure(Some(if carried.Some? then carried.value else Number(sid)), c.badFrame)])
              && (sid != 0 ==> sid in t.mux.closedIds)
            else t == s
  {
    MuxInv(s);
    if named.Some? { RefusesOnce(s.mux, named.value, c.badFrame); }
    hide SessionInv, Inv, Mux.RefuseStream;
  }

  /** What an operation says meanwhile goes out on its stream as it is, or spends it when it is too large. */
  lemma SaysOnItsStream<J>(c: Config<J>, s: Session<J>, sid: nat, name: string, params: Option<J>, fits: bool)
    requires SessionInv(s) && s.mux.IsOpen(sid)
    ensures var t := Happens(c, s, Says(sid, name, params, fits));
            && t == s.(mux := t.mux)
            && (fits ==> Puts(s.mux, t.mux, sid, [Notification(name, params)]) && t.mux.IsOpen(sid))
            && (!fits && sid != 0 ==>
                  && sid in t.mux.closedIds && |t.mux.sent| == |s.mux.sent| + 1
                  && t.mux.sent[|s.mux.sent|].m.Failure? && t.mux.sent[|s.mux.sent|].m.error == c.tooLarge)
  {
    MuxInv(s);
    TellsOnce(s.mux, sid, name, params);
    RefusesOnce(s.mux, sid, c.tooLarge);
    hide SessionInv, Inv, Mux.RefuseStream, Mux.SendOnStream;
  }

  /** An operation that finishes after its stream is gone says nothing. */
  lemma LateFinishSaysNothing<J>(c: Config<J>, s: Session<J>, sid: nat, ending: Ending<J>, expired: bool, fits: bool)
    requires SessionInv(s) && sid != 0 && sid !in s.mux.streams
    ensures var t := Happens(c, s, Finished(sid, ending, expired, fits));
            t.mux == s.mux && t.running == s.running - {sid} && t.started == s.started
  {
    hide SessionInv, Inv;
  }
}
