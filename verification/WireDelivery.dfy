/** Every frame of the pair arrives once and in order, and an aborted call ends on both sides. */
module WireDelivery {
  import opened Text
  import opened Multiplexer
  import opened MultiplexerProofs
  import opened MultiplexerSteps
  import opened WirePair

  // First in, first out.

  /** The frame a step takes off the channel to the daemon, if any. */
  function DaemonTook(w: World, step: WorldStep): seq<WireFrame> {
    if step.DaemonReceive? && w.toDaemon != [] then [w.toDaemon[0]] else []
  }

  function HubTook(w: World, step: WorldStep): seq<WireFrame> {
    if step.HubReceive? && w.toHub != [] then [w.toHub[0]] else []
  }

  function DaemonTaken(w: World, steps: seq<WorldStep>): seq<WireFrame>
    decreases |steps|
  {
    if steps == [] then [] else DaemonTook(w, steps[0]) + DaemonTaken(WorldApply(w, steps[0]), steps[1..])
  }

  function HubTaken(w: World, steps: seq<WorldStep>): seq<WireFrame>
    decreases |steps|
  {
    if steps == [] then [] else HubTook(w, steps[0]) + HubTaken(WorldApply(w, steps[0]), steps[1..])
  }

  predicate OfHub(step: WorldStep) {
    step.HubOpen? || step.HubCall? || step.HubAbort? || step.HubTell? || step.HubClose? || step.HubRefuse?
      || step.HubEnd? || step.HubReceive?
  }

  /** What the hub says goes behind what is on its way; only what it takes leaves its own channel. */
  lemma HubConserves(w: World, step: WorldStep)
    requires PairInv(w) && OfHub(step)
    ensures var v := WorldApply(w, step);
            && w.hub.sent <= v.hub.sent && v.daemon == w.daemon
            && v.toDaemon == w.toDaemon + v.hub.sent[|w.hub.sent|..] && w.toHub == HubTook(w, step) + v.toHub
  {
    HubInv(w);
    hide Inv, CallsOk, PairInv, Mux.RequestOn, Mux.OpenStream, Mux.Abort, Mux.SendOnStream, Mux.CloseStream,
         Mux.RefuseStream;
    hide Mux.CloseSession, Mux.HandleFrame, Apply, Grows;
    HubSendsMore(w.hub, step);
    match step
    case HubReceive => if w.toHub != [] { HandleSendsMore(w.hub, w.toHub[0]); }
    case _ =>
  }

  lemma HandleSendsMore(m: Mux<Json>, f: WireFrame)
    ensures m.sent <= m.HandleFrame(f).mux.sent
  {
  }

  lemma CallSendsMore(m: Mux<Json>, sid: nat, name: string, params: Option<Json>, aborted: bool, oversize: bool)
    ensures m.sent <= m.RequestOn(sid, name, params, aborted, oversize).sent
  {
  }

  lemma HubSendsMore(m: Mux<Json>, step: WorldStep)
    ensures match step
            case HubOpen => m.sent <= m.OpenStream().sent
            case HubCall(sid, name, body, aborted, oversize) =>
              m.sent <= m.RequestOn(sid, name, Some(Json(Some(m.calls), body)), aborted, oversize).sent
            case HubAbort(sid) => m.sent <= m.Abort(sid).sent
            case HubTell(sid, name, params) => m.sent <= m.SendOnStream(sid, Notification(name, params)).sent
            case HubClose(sid) => m.sent <= m.CloseStream(sid, Closed).sent
            case HubRefuse(sid, error) => m.sent <= m.RefuseStream(sid, error).sent
            case HubEnd => m.sent <= m.CloseSession().sent
            case _ => true
  {
    hide FailAll, Mux.CancelStream, Mux.RequestOn;
    match step
    case HubCall(sid, name, body, aborted, oversize) =>
      CallSendsMore(m, sid, name, Some(Json(Some(m.calls), body)), aborted, oversize);
    case HubAbort(sid) => CancelSaysNothing(m.SendOnStream(sid, Notification(CANCEL_NOTIFICATION, None)), sid);
    case _ =>
  }

  lemma CancelSaysNothing(m: Mux<Json>, sid: nat)
    ensures m.CancelStream(sid).sent == m.sent
  {
  }

  /** What the daemon says goes behind what is on its way; only what it takes leaves its own channel. */
  lemma DaemonConserves(w: World, step: WorldStep)
    requires !OfHub(step)
    ensures var v := WorldApply(w, step);
            && w.daemon.sent <= v.daemon.sent && v.hub == w.hub
            && v.toHub == w.toHub + v.daemon.sent[|w.daemon.sent|..] && w.toDaemon == DaemonTook(w, step) + v.toDaemon
  {
    hide Mux.Respond, Mux.SendOnStream, Mux.CloseStream, Mux.RefuseStream, Mux.CloseSession, Mux.HandleFrame,
         ControlReply;
    match step
    case DaemonReceive(reply) =>
      if w.toDaemon != [] {
        var r := w.daemon.HandleFrame(w.toDaemon[0]);
        HandleSendsMore(w.daemon, w.toDaemon[0]);
        RepliesMore(r.mux, LabelOf(w.toDaemon[0].m), reply);
      }
    case DaemonAnswer(sid, ok, body) => RespondSaysMore(w.daemon, sid, Answers(ok, Json(Serves(w, sid), body)));
    case DaemonTooLarge(sid, body) => HubSendsMore(w.daemon, HubRefuse(sid, Json(Serves(w, sid), body)));
    case DaemonTell(sid, name, params) => HubSendsMore(w.daemon, HubTell(sid, name, params));
    case DaemonClose(sid) => HubSendsMore(w.daemon, HubClose(sid));
    case DaemonEnd => HubSendsMore(w.daemon, HubEnd);
  }

  lemma RespondSaysMore(m: Mux<Json>, sid: nat, build: Id -> Message<Json>)
    ensures m.sent <= m.Respond(sid, build).sent
  {
  }

  lemma RepliesMore(m: Mux<Json>, tag: Option<nat>, reply: Reply)
    ensures m.sent <= ControlReply(m, tag, reply).sent
  {
    hide Mux.CloseStream;
    var quiet := m.(control := m.control.(replyId := None));
    ClosingControl(quiet);
  }

  lemma ClosingControl(m: Mux<Json>)
    ensures forall error: Json :: m.sent <= m.RefuseStream(CONTROL_STREAM_ID, error).sent
  {
  }

  /** What a step adds to either side's sent frames is what it adds to that side's channel. */
  lemma StepConserves(w: World, step: WorldStep)
    requires PairInv(w)
    ensures var v := WorldApply(w, step);
            && w.hub.sent <= v.hub.sent && w.daemon.sent <= v.daemon.sent
            && w.toDaemon + v.hub.sent[|w.hub.sent|..] == DaemonTook(w, step) + v.toDaemon
            && w.toHub + v.daemon.sent[|w.daemon.sent|..] == HubTook(w, step) + v.toHub
  {
    hide PairInv, WorldApply;
    if OfHub(step) { HubConserves(w, step); } else { DaemonConserves(w, step); }
  }

  /** In every run what a side has sent is what the other took, in that order, and then what is on its way. */
  lemma {:induction false} FramesArriveInOrder(w: World, steps: seq<WorldStep>)
    requires PairInv(w)
    ensures var v := WorldRun(w, steps);
            && w.hub.sent <= v.hub.sent && w.daemon.sent <= v.daemon.sent
            && w.toDaemon + v.hub.sent[|w.hub.sent|..] == DaemonTaken(w, steps) + v.toDaemon
            && w.toHub + v.daemon.sent[|w.daemon.sent|..] == HubTaken(w, steps) + v.toHub
    decreases |steps|
  {
    hide PairInv, WorldApply, DaemonTook, HubTook;
    if steps != [] {
      var u := WorldApply(w, steps[0]);
      StepConserves(w, steps[0]);
      WorldStepKeeps(w, steps[0]);
      FramesArriveInOrder(u, steps[1..]);
      var v := WorldRun(u, steps[1..]);
      Chained(w.toDaemon, w.hub.sent, u.hub.sent, v.hub.sent, DaemonTook(w, steps[0]), u.toDaemon,
        DaemonTaken(u, steps[1..]), v.toDaemon);
      Chained(w.toHub, w.daemon.sent, u.daemon.sent, v.daemon.sent, HubTook(w, steps[0]), u.toHub,
        HubTaken(u, steps[1..]), v.toHub);
    }
  }

  lemma Chained<T>(a: seq<T>, s: seq<T>, t: seq<T>, u: seq<T>, took: seq<T>, b: seq<T>, taken: seq<T>, c: seq<T>)
    requires s <= t <= u && a + t[|s|..] == took + b && b + u[|t|..] == taken + c
    ensures a + u[|s|..] == (took + taken) + c
  {
    assert u[|s|..] == t[|s|..] + u[|t|..];
    assert a + (t[|s|..] + u[|t|..]) == (a + t[|s|..]) + u[|t|..];
    assert (took + b) + u[|t|..] == took + (b + u[|t|..]);
    assert took + (taken + c) == (took + taken) + c;
  }

  // Aborted calls.

  predicate AsksOn(f: WireFrame, sid: nat) {
    f.m.Request? && f.s == sid
  }

  ghost predicate OnItsWay(frames: seq<WireFrame>, sid: nat) {
    exists k :: 0 <= k < |frames| && AsksOn(frames[k], sid)
  }

  /** The request of a call that waits on a numbered stream has reached the daemon, or is on its way to it. */
  ghost predicate RequestsArrive(w: World) {
    forall sid: nat :: sid != 0 && PendingAt(w.hub, sid).Some? ==>
      w.daemon.closed || Used(w.daemon, sid) || OnItsWay(w.toDaemon, sid)
  }

  /** The daemon's part of a step: what it knew it still knows, and a request it takes it knows. */
  lemma DaemonLearns(w: World, step: WorldStep, sid: nat)
    requires PairInv(w) && sid != 0
    ensures var v := WorldApply(w, step);
            && (w.daemon.closed ==> v.daemon.closed)
            && (Used(w.daemon, sid) ==> Used(v.daemon, sid))
            && (step.DaemonReceive? && w.toDaemon != [] && AsksOn(w.toDaemon[0], sid) ==>
              v.daemon.closed || Used(v.daemon, sid))
  {
    hide PairInv, Used, Mux.Respond, Mux.RefuseStream, Mux.SendOnStream, Mux.CloseStream, Mux.CloseSession, DaemonTakes;
    match step
    case DaemonReceive(reply) => TakesKnown(w, reply, sid);
    case DaemonAnswer(r, ok, body) =>
      RespondUses(w.daemon, r, Answers(ok, Json(Serves(w, r), body)));
      StaysClosed(w.daemon, r, Answers(ok, Json(Serves(w, r), body)));
    case DaemonTooLarge(r, body) => RefuseUses(w.daemon, r, Json(Serves(w, r), body));
    case DaemonTell(r, name, params) =>
      TellUses(w.daemon, r, Notification(name, params));
      TellStaysClosed(w.daemon, r, Notification(name, params));
    case DaemonClose(r) => EndUses(w.daemon, r, Closed);
    case DaemonEnd => EndSessionUses(w.daemon); EndsClosed(w.daemon);
    case _ => HubGoesOn(w, step);
  }

  lemma StaysClosed(d: Mux<Json>, r: nat, build: Id -> Message<Json>)
    ensures d.Respond(r, build).closed == d.closed
  {
  }

  lemma TellStaysClosed(d: Mux<Json>, r: nat, message: Message<Json>)
    ensures d.SendOnStream(r, message).closed == d.closed
  {
  }

  lemma EndsClosed(d: Mux<Json>)
    ensures d.CloseSession().closed
  {
  }

  lemma TakesKnown(w: World, reply: Reply, sid: nat)
    requires PairInv(w) && sid != 0
    ensures var v := DaemonTakes(w, reply);
            && (w.daemon.closed ==> v.daemon.closed)
            && (Used(w.daemon, sid) ==> Used(v.daemon, sid))
            && (w.toDaemon != [] && AsksOn(w.toDaemon[0], sid) ==> v.daemon.closed || Used(v.daemon, sid))
  {
    var accepts := w.daemon.accepts;
    assert accepts;
    hide PairInv, Mux.HandleFrame, ControlReply, Used;
    if w.toDaemon != [] {
      var f := w.toDaemon[0];
      ControlReplyUses(w.daemon.HandleFrame(f).mux, LabelOf(f.m), reply);
      ControlReplyClosed(w.daemon.HandleFrame(f).mux, LabelOf(f.m), reply);
      if w.daemon.closed { ClosedStays(w.daemon, f); } else { HandleUses(w.daemon, f, sid); }
    }
  }

  lemma ControlReplyClosed(d: Mux<Json>, tag: Option<nat>, reply: Reply)
    ensures ControlReply(d, tag, reply).closed == d.closed
  {
  }

  /** A wait on a numbered stream is an old one, or its request went out with this step. */
  lemma WaitsAreSent(w: World, step: WorldStep, sid: nat)
    requires PairInv(w) && sid != 0 && PendingAt(WorldApply(w, step).hub, sid).Some?
    ensures PendingAt(w.hub, sid).Some? || OnItsWay(WorldApply(w, step).toDaemon, sid)
  {
    if step.HubCall? {
      CallIsSent(w, step.stream, step.name, step.body, step.aborted, step.oversize, sid);
    } else {
      OnlyCallsWait(w, step, sid);
    }
  }

  lemma CallIsSent(w: World, r: nat, name: string, body: int, aborted: bool, oversize: bool, sid: nat)
    requires PairInv(w) && sid != 0 && PendingAt(Called(w, r, name, body, aborted, oversize).hub, sid).Some?
    ensures PendingAt(w.hub, sid).Some? || OnItsWay(Called(w, r, name, body, aborted, oversize).toDaemon, sid)
  {
    var v := Some(Json(Some(w.hub.calls), body));
    if aborted || oversize || w.hub.Refuses(r) {
      HubInv(w);
      UnsentIsQuiet(w.hub, r, name, v, aborted, oversize);
      hide Mux.RequestOn, PairInv;
    } else {
      HubInv(w);
      SentGoesOut(w.hub, r, name, body);
      hide Mux.RequestOn, PairInv, Mux.Refuses;
      if sid == r {
        var u := Called(w, r, name, body, aborted, oversize);
        assert AsksOn(u.toDaemon[|w.toDaemon|], sid);
      }
    }
  }

  lemma OnlyCallsWait(w: World, step: WorldStep, sid: nat)
    requires PairInv(w) && !step.HubCall? && PendingAt(WorldApply(w, step).hub, sid).Some?
    ensures PendingAt(w.hub, sid).Some?
  {
    HubInv(w);
    HubDoesNotAccept(w);
    hide PairInv, Inv, Mux.OpenStream, Mux.Abort, Mux.SendOnStream, Mux.CloseStream, Mux.CancelStream, Mux.SettleStream;
    hide Mux.RefuseStream, Mux.CloseSession, Mux.HandleFrame;
    match step
    case HubOpen => OpenIsQuiet(w.hub);
    case HubAbort(r) => AbortIsQuiet(w.hub, r);
    case HubTell(r, name, params) => TellIsQuiet(w.hub, r, Notification(name, params));
    case HubClose(r) => CloseIsQuiet(w.hub, r, Closed);
    case HubRefuse(r, error) => RefuseIsQuiet(w.hub, r, error);
    case HubEnd => EndIsQuiet(w.hub);
    case HubReceive =>
      if w.toHub != [] {
        var f := w.toHub[0];
        HubHandles(w.hub, f);
        CancelIsQuiet(w.hub, f.s);
        SettleIsCalm(w.hub, f.s, f.m);
      }
    case _ => DaemonLeavesHub(w, step);
  }

  lemma HubDoesNotAccept(w: World)
    requires PairInv(w)
    ensures !w.hub.accepts
  {
  }

  lemma DaemonLeavesHub(w: World, step: WorldStep)
    requires !OfHub(step)
    ensures WorldApply(w, step).hub == w.hub
  {
    DaemonConserves(w, step);
    hide WorldApply;
  }

  lemma StepKeepsArrival(w: World, step: WorldStep)
    requires PairInv(w) && RequestsArrive(w)
    ensures RequestsArrive(WorldApply(w, step))
  {
    var v := WorldApply(w, step);
    hide PairInv, WorldApply, Used, AsksOn;
    StepConserves(w, step);
    forall sid: nat | sid != 0 && PendingAt(v.hub, sid).Some?
      ensures v.daemon.closed || Used(v.daemon, sid) || OnItsWay(v.toDaemon, sid)
    {
      WaitsAreSent(w, step, sid);
      DaemonLearns(w, step, sid);
      if OnItsWay(w.toDaemon, sid) {
        var k :| 0 <= k < |w.toDaemon| && AsksOn(w.toDaemon[k], sid);
        StillOnItsWay(w.toDaemon, v.hub.sent[|w.hub.sent|..], DaemonTook(w, step), v.toDaemon, k, sid);
      }
    }
  }

  /** A frame not taken is still on its way; what was taken is the first. */
  lemma StillOnItsWay(before: seq<WireFrame>, more: seq<WireFrame>, took: seq<WireFrame>, after: seq<WireFrame>,
      k: nat, sid: nat)
    requires before + more == took + after && |took| <= 1 && k < |before| && AsksOn(before[k], sid)
    ensures OnItsWay(after, sid) || (k == 0 && |took| == 1 && took[0] == before[0])
  {
    assert (before + more)[k] == before[k];
    if k >= |took| {
      assert (took + after)[k] == after[k - |took|];
      assert AsksOn(after[k - |took|], sid);
    } else {
      assert (took + after)[0] == took[0];
    }
  }

  lemma {:induction false} RunKeepsArrival(w: World, steps: seq<WorldStep>)
    requires PairInv(w) && RequestsArrive(w)
    ensures PairInv(WorldRun(w, steps)) && RequestsArrive(WorldRun(w, steps))
    decreases |steps|
  {
    hide PairInv, WorldApply, RequestsArrive;
    if steps != [] {
      WorldStepKeeps(w, steps[0]);
      StepKeepsArrival(w, steps[0]);
      RunKeepsArrival(WorldApply(w, steps[0]), steps[1..]);
    }
  }

  // The cancellation arrives.

  function Takes(replies: seq<Reply>): seq<WorldStep> {
    seq(|replies|, k requires 0 <= k < |replies| => DaemonReceive(replies[k]))
  }

  predicate Cancels(f: WireFrame, sid: nat) {
    f.s == sid && f.m.Notification? && f.m.name == "cancel"
  }

  /** The daemon knows stream `sid`, or will from the first `n` frames on their way to it. */
  ghost predicate KnownBy(w: World, sid: nat, n: nat) {
    w.daemon.closed || Used(w.daemon, sid) || (exists k :: 0 <= k < n && k < |w.toDaemon| && AsksOn(w.toDaemon[k], sid))
  }

  lemma OneTaken(w: World, reply: Reply, sid: nat, n: nat)
    requires PairInv(w) && sid != 0 && w.toDaemon != [] && n > 0 && KnownBy(w, sid, n)
    ensures var u := WorldApply(w, DaemonReceive(reply));
            PairInv(u) && u.toDaemon == w.toDaemon[1..] && KnownBy(u, sid, n - 1)
  {
    hide PairInv, WorldApply, Used, AsksOn;
    var u := WorldApply(w, DaemonReceive(reply));
    WorldStepKeeps(w, DaemonReceive(reply));
    DaemonLearns(w, DaemonReceive(reply), sid);
    DaemonConserves(w, DaemonReceive(reply));
    assert u.toDaemon == w.toDaemon[1..];
    if k :| 0 <= k < n && k < |w.toDaemon| && AsksOn(w.toDaemon[k], sid) {
      assert k > 0 ==> AsksOn(u.toDaemon[k - 1], sid);
    }
  }

  /**
   Everything up to a cancellation at position `n`, taken: the stream it names is spent if the daemon knows it
   by then.
   */
  lemma {:induction false} CancellationArrives(w: World, replies: seq<Reply>, sid: nat, n: nat)
    requires PairInv(w) && sid != 0 && n < |w.toDaemon| && Cancels(w.toDaemon[n], sid) && |replies| == n + 1
    requires KnownBy(w, sid, n)
    ensures var v := WorldRun(w, Takes(replies)); v.daemon.closed || sid in v.daemon.closedIds
    decreases n
  {
    hide PairInv, WorldApply, KnownBy, Cancels;
    var u := WorldApply(w, DaemonReceive(replies[0]));
    assert Takes(replies)[0] == DaemonReceive(replies[0]) && Takes(replies)[1..] == Takes(replies[1..]);
    if n == 0 {
      NothingBefore(w, sid);
      CancelSpends(w, replies[0], sid);
      assert replies[1..] == [] && Takes([]) == [];
    } else {
      OneTaken(w, replies[0], sid, n);
      CancellationArrives(u, replies[1..], sid, n - 1);
    }
  }

  lemma NothingBefore(w: World, sid: nat)
    requires KnownBy(w, sid, 0)
    ensures w.daemon.closed || Used(w.daemon, sid)
  {
  }

  lemma CancelSpends(w: World, reply: Reply, sid: nat)
    requires PairInv(w) && sid != 0 && w.toDaemon != [] && Cancels(w.toDaemon[0], sid)
      && (w.daemon.closed || Used(w.daemon, sid))
    ensures var v := WorldApply(w, DaemonReceive(reply)); v.daemon.closed || sid in v.daemon.closedIds
  {
    DaemonInv(w);
    hide PairInv, ControlReply;
    var f := w.toDaemon[0];
    if !w.daemon.closed && sid in w.daemon.streams {
      CancelReceived(w.daemon, sid, f.m);
      hide Mux.HandleFrame;
    } else if !w.daemon.closed {
      UnknownFrame(w.daemon, f);
      hide Mux.HandleFrame;
    } else {
      ClosedTakesNothing(w.daemon, f);
      hide Mux.HandleFrame;
    }
  }

  lemma DaemonInv(w: World)
    requires PairInv(w)
    ensures Inv(w.daemon) && w.daemon.accepts
  {
  }

  lemma AbortGoesOut(w: World, sid: nat)
    requires PairInv(w) && PendingAt(w.hub, sid).Some?
    ensures var aborted := WorldApply(w, HubAbort(sid));
            && aborted.hub.settled == w.hub.settled[PendingAt(w.hub, sid).value.call := StreamEnded(Cancelled)]
            && aborted.toDaemon == w.toDaemon + [Frame(sid, Notification("cancel", None))]
            && aborted.daemon == w.daemon && PairInv(aborted)
  {
    HubInv(w);
    WorldStepKeeps(w, HubAbort(sid));
    AbortTells(w.hub, sid);
    hide PairInv, Inv, Mux.Abort;
  }

  /** Once the daemon has taken what was on its way and the cancellation, it answers on that stream no more. */
  lemma AbortArrives(w: World, sid: nat, replies: seq<Reply>)
    requires PairInv(w) && RequestsArrive(w) && sid != 0 && PendingAt(w.hub, sid).Some? && |replies| == |w.toDaemon| + 1
    ensures var v := WorldRun(WorldApply(w, HubAbort(sid)), Takes(replies));
            && (v.daemon.closed || sid in v.daemon.closedIds)
            && forall ok, body :: WorldApply(v, DaemonAnswer(sid, ok, body)).toHub == v.toHub
  {
    hide PairInv, WorldApply, Used, WorldRun;
    AbortGoesOut(w, sid);
    var aborted := WorldApply(w, HubAbort(sid));
    if OnItsWay(w.toDaemon, sid) {
      var k :| 0 <= k < |w.toDaemon| && AsksOn(w.toDaemon[k], sid);
      assert AsksOn(aborted.toDaemon[k], sid);
      assert KnownBy(aborted, sid, |w.toDaemon|);
    }
    CancellationArrives(aborted, replies, sid, |w.toDaemon|);
    var v := WorldRun(aborted, Takes(replies));
    KeepsPair(aborted, Takes(replies));
    forall ok, body ensures WorldApply(v, DaemonAnswer(sid, ok, body)).toHub == v.toHub {
      NoAnswer(v, sid, ok, body);
    }
  }

  /**
   After any run, a call that waits on a numbered stream is aborted: it ends as cancelled, the peer is told,
   and once the daemon has taken what was on its way and the cancellation, it answers on that stream no more.
   */
  lemma AbortEndsBothSides(
      hubCap: nat, daemonCap: nat, capError: Json, steps: seq<WorldStep>, sid: nat, replies: seq<Reply>)
    requires var w := WorldRun(NewWorld(hubCap, daemonCap, capError), steps);
             sid != 0 && PendingAt(w.hub, sid).Some? && |replies| == |w.toDaemon| + 1
    ensures var w := WorldRun(NewWorld(hubCap, daemonCap, capError), steps);
            var aborted := WorldApply(w, HubAbort(sid));
            var v := WorldRun(aborted, Takes(replies));
            && aborted.hub.settled == w.hub.settled[PendingAt(w.hub, sid).value.call := StreamEnded(Cancelled)]
            && aborted.toDaemon == w.toDaemon + [Frame(sid, Notification("cancel", None))]
            && (v.daemon.closed || sid in v.daemon.closedIds)
            && forall ok, body :: WorldApply(v, DaemonAnswer(sid, ok, body)).toHub == v.toHub
  {
    var start := NewWorld(hubCap, daemonCap, capError);
    StartOk(hubCap, daemonCap, capError);
    assert RequestsArrive(start);
    hide PairInv, WorldApply, WorldRun, RequestsArrive;
    RunKeepsArrival(start, steps);
    AbortGoesOut(WorldRun(start, steps), sid);
    AbortArrives(WorldRun(start, steps), sid, replies);
  }

  lemma KeepsPair(w: World, steps: seq<WorldStep>)
    requires PairInv(w)
    ensures PairInv(WorldRun(w, steps))
  {
    WorldRunKeeps(w, steps);
  }

  lemma NoAnswer(w: World, sid: nat, ok: bool, body: int)
    requires PairInv(w) && sid != 0 && (w.daemon.closed || sid in w.daemon.closedIds)
    ensures WorldApply(w, DaemonAnswer(sid, ok, body)).toHub == w.toHub
  {
    DaemonInv(w);
    hide PairInv, CallsOk;
  }
}
