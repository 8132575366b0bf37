/**
 A hub and a daemon joined by two first-in first-out channels, with any interleaving of their steps.

 Values on the wire carry the number of the hub call they belong to: a request the call that sent it, an
 answer the call whose request the daemon was answering. The endpoints never look at it, so the theorem
 about it is about which answer settles which call.
 */
module WirePair {
  import opened Text
  import opened Multiplexer
  import opened MultiplexerProofs

  datatype Json = Json(call: Option<nat>, body: int)

  type WireFrame = Frame<Json>

  datatype World = World(
    hub: Mux<Json>,
    daemon: Mux<Json>,
    toDaemon: seq<WireFrame>,
    toHub: seq<WireFrame>,
    /**
     History: the call each daemon stream serves, the stream and id each call on the wire used, and the
     calls whose request met the daemon's stream cap.
     */
    serving: map<nat, nat>,
    origin: map<nat, (nat, Id)>,
    refused: set<nat>)

  /** How the daemon's synchronous control handler replies. */
  datatype Reply = Accept(body: int) | Reject(body: int) | TooLarge(body: int)

  datatype WorldStep =
    | HubOpen
    | HubCall(stream: nat, name: string, body: int, aborted: bool, oversize: bool)
    | HubAbort(stream: nat)
    | HubTell(stream: nat, name: string, params: Option<Json>)
    | HubClose(stream: nat)
    | HubRefuse(stream: nat, error: Json)
    | HubEnd
    | HubReceive
    | DaemonReceive(reply: Reply)
    | DaemonAnswer(stream: nat, ok: bool, body: int)
    | DaemonTooLarge(stream: nat, body: int)
    | DaemonTell(stream: nat, name: string, params: Option<Json>)
    | DaemonClose(stream: nat)
    | DaemonEnd

  /** The hub moves to `h`; what it sent meanwhile is on its way. */
  function HubAt(w: World, h: Mux<Json>): World
    requires |w.hub.sent| <= |h.sent|
  {
    w.(hub := h, toDaemon := w.toDaemon + h.sent[|w.hub.sent|..])
  }

  function DaemonAt(w: World, d: Mux<Json>): World
    requires |w.daemon.sent| <= |d.sent|
  {
    w.(daemon := d, toHub := w.toHub + d.sent[|w.daemon.sent|..])
  }

  /** Calls on stream `sid` now, its request labelled with the call's own number. */
  function Called(w: World, sid: nat, name: string, body: int, aborted: bool, oversize: bool): World {
    var h := w.hub.RequestOn(sid, name, Some(Json(Some(w.hub.calls), body)), aborted, oversize);
    var goesOut := !aborted && !oversize && !w.hub.Refuses(sid);
    HubAt(w, h).(origin := if goesOut then w.origin[w.hub.calls := (sid, w.hub.RequestId(sid))] else w.origin)
  }

  /** The call whose request a message is. */
  function LabelOf(m: Message<Json>): Option<nat> {
    if m.Request? && m.params.Some? then m.params.value.call else None
  }

  function LabelSet(m: Message<Json>): set<nat> {
    if LabelOf(m).Some? then {LabelOf(m).value} else {}
  }

  function Answers(ok: bool, v: Json): Id -> Message<Json> {
    if ok then (id: Id) => Success(id, v) else (id: Id) => Failure(Some(id), v)
  }

  /** The control handler answers before the next frame is looked at; an oversize answer becomes a refusal. */
  function ControlReply(d: Mux<Json>, tag: Option<nat>, reply: Reply): Mux<Json> {
    match reply
    case Accept(body) => d.Respond(CONTROL_STREAM_ID, Answers(true, Json(tag, body)))
    case Reject(body) => d.Respond(CONTROL_STREAM_ID, Answers(false, Json(tag, body)))
    case TooLarge(body) =>
      d.(control := d.control.(replyId := None)).RefuseStream(CONTROL_STREAM_ID, Json(tag, body))
  }

  function DaemonTakes(w: World, reply: Reply): World {
    if w.toDaemon == [] then w
    else
      var frame, rest := w.toDaemon[0], w.(toDaemon := w.toDaemon[1..]);
      var r := w.daemon.HandleFrame(frame);
      if !r.delivery.Handled? then
        DaemonAt(rest, r.mux).(refused := w.refused + if |r.mux.sent| > |w.daemon.sent| then LabelSet(frame.m) else {})
      else if r.delivery.stream == CONTROL_STREAM_ID then DaemonAt(rest, ControlReply(r.mux, LabelOf(frame.m), reply))
      else
        var tag := LabelOf(frame.m);
        DaemonAt(rest, r.mux).(serving := if tag.Some? then w.serving[frame.s := tag.value] else w.serving)
  }

  function Serves(w: World, sid: nat): Option<nat> {
    if sid in w.serving then Some(w.serving[sid]) else None
  }

  function WorldApply(w: World, step: WorldStep): World {
    match step
    case HubOpen => HubAt(w, w.hub.OpenStream())
    case HubCall(sid, name, body, aborted, oversize) => Called(w, sid, name, body, aborted, oversize)
    case HubAbort(sid) => HubAt(w, w.hub.Abort(sid))
    case HubTell(sid, name, params) => HubAt(w, w.hub.SendOnStream(sid, Notification(name, params)))
    case HubClose(sid) => HubAt(w, w.hub.CloseStream(sid, Closed))
    case HubRefuse(sid, error) => HubAt(w, w.hub.RefuseStream(sid, error))
    case HubEnd => HubAt(w, w.hub.CloseSession())
    case HubReceive =>
      if w.toHub == [] then w else HubAt(w.(toHub := w.toHub[1..]), w.hub.HandleFrame(w.toHub[0]).mux)
    case DaemonReceive(reply) => DaemonTakes(w, reply)
    case DaemonAnswer(sid, ok, body) =>
      if sid == CONTROL_STREAM_ID then w
      else DaemonAt(w, w.daemon.Respond(sid, Answers(ok, Json(Serves(w, sid), body))))
    case DaemonTooLarge(sid, body) =>
      if sid == CONTROL_STREAM_ID then w else DaemonAt(w, w.daemon.RefuseStream(sid, Json(Serves(w, sid), body)))
    case DaemonTell(sid, name, params) => DaemonAt(w, w.daemon.SendOnStream(sid, Notification(name, params)))
    case DaemonClose(sid) => DaemonAt(w, w.daemon.CloseStream(sid, Closed))
    case DaemonEnd => DaemonAt(w, w.daemon.CloseSession())
  }

  // The invariant.

  /**
   The value is labelled with the call that used this stream and id, or with a control call when the id is the
   fallback.
   */
  ghost predicate Labelled(origin: map<nat, (nat, Id)>, s: nat, id: Id, v: Json) {
    && v.call.Some? && v.call.value in origin
    && (origin[v.call.value] == (s, id)
        || (s == CONTROL_STREAM_ID && id == Number(0) && origin[v.call.value].0 == CONTROL_STREAM_ID))
  }

  ghost predicate RequestOk(origin: map<nat, (nat, Id)>, f: WireFrame) {
    f.m.Request? ==> LabelOf(f.m).Some? && LabelOf(f.m).value in origin && origin[LabelOf(f.m).value] == (f.s, f.m.id)
  }

  /** The call that used this stream and id met the cap. */
  ghost predicate RefusedAt(origin: map<nat, (nat, Id)>, refused: set<nat>, s: nat, id: Id) {
    exists c :: c in refused && c in origin && origin[c] == (s, id)
  }

  ghost predicate ResponseOk(origin: map<nat, (nat, Id)>, refused: set<nat>, capError: Json, f: WireFrame) {
    && (f.m.Success? ==> Labelled(origin, f.s, f.m.id, f.m.result))
    && (f.m.Failure? && f.m.errorId.Some? ==>
          || (f.m.error == capError && RefusedAt(origin, refused, f.s, f.m.errorId.value))
          || Labelled(origin, f.s, f.m.errorId.value, f.m.error))
  }

  ghost predicate ChannelsOk(w: World) {
    && (forall k :: 0 <= k < |w.toDaemon| ==> RequestOk(w.origin, w.toDaemon[k]))
    && (forall k :: 0 <= k < |w.toHub| ==> ResponseOk(w.origin, w.refused, w.daemon.capError, w.toHub[k]))
  }

  /** A daemon stream answers with the id of the request it serves; the control stream owes no reply. */
  ghost predicate ServingOk(daemon: Mux<Json>, serving: map<nat, nat>, origin: map<nat, (nat, Id)>) {
    && daemon.control.replyId == None
    && (forall sid :: sid in daemon.streams ==>
          && sid in serving && serving[sid] in origin && daemon.streams[sid].replyId.Some?
          && origin[serving[sid]] == (sid, daemon.streams[sid].replyId.value))
  }

  /** Ids on the wire: a numbered stream's is its own, a control request's its number; no two calls share both. */
  ghost predicate OriginsOk(hub: Mux<Json>, origin: map<nat, (nat, Id)>) {
    && (forall c :: c in origin ==> c < hub.calls && OriginOk(hub, origin[c]))
    && (forall c, d :: c in origin && d in origin && origin[c] == origin[d] ==> c == d)
    && (forall sid, c :: sid in hub.streams && hub.streams[sid].replyId == None && c in origin ==> origin[c].0 != sid)
  }

  ghost predicate OriginOk(hub: Mux<Json>, o: (nat, Id)) {
    if o.0 == CONTROL_STREAM_ID then o.1.Number? && 0 <= o.1.n < hub.control.requests
    else o.0 < hub.nextId && o.1 == Number(o.0)
  }

  /** A pending request is the one its stream put on the wire, and on control the latest. */
  ghost predicate WaitingOk(hub: Mux<Json>, origin: map<nat, (nat, Id)>) {
    && (forall sid: nat :: PendingAt(hub, sid).Some? ==>
          PendingAt(hub, sid).value.call in origin
            && origin[PendingAt(hub, sid).value.call] == (sid, PendingAt(hub, sid).value.id))
    && (hub.control.pending.Some? ==> hub.control.pending.value.id == Number(hub.control.requests - 1))
  }

  /** No call was settled by an answer to another call. */
  ghost predicate AnswersMatch(hub: Mux<Json>, refused: set<nat>, capError: Json) {
    forall c :: c in hub.settled ==>
      && (hub.settled[c].Resolved? ==> hub.settled[c].value.call == Some(c))
      && (hub.settled[c].Failed? ==>
            (hub.settled[c].error == capError && c in refused) || hub.settled[c].error.call == Some(c))
  }

  ghost predicate PairInv(w: World) {
    && Inv(w.hub) && !w.hub.accepts && Inv(w.daemon) && w.daemon.accepts
    && ChannelsOk(w) && ServingOk(w.daemon, w.serving, w.origin)
    && OriginsOk(w.hub, w.origin) && WaitingOk(w.hub, w.origin)
    && AnswersMatch(w.hub, w.refused, w.daemon.capError)
  }

  function NewWorld(hubCap: nat, daemonCap: nat, capError: Json): World {
    World(NewMux(false, hubCap, capError), NewMux(true, daemonCap, capError), [], [], map[], map[], {})
  }

  lemma StartOk(hubCap: nat, daemonCap: nat, capError: Json)
    ensures PairInv(NewWorld(hubCap, daemonCap, capError))
  {
    NewMuxOk(false, hubCap, capError);
    NewMuxOk(true, daemonCap, capError);
  }

  // The hub's steps.

  /** A hub step that puts no request on the wire and starts no wait. */
  ghost predicate Calm(m: Mux<Json>, t: Mux<Json>) {
    && m.sent <= t.sent && (forall k :: |m.sent| <= k < |t.sent| ==> !t.sent[k].m.Request?)
    && m.nextId <= t.nextId && m.calls <= t.calls && m.control.requests <= t.control.requests
    && (t.control.pending.Some? ==> t.control.requests == m.control.requests)
    && (forall sid: nat :: PendingAt(t, sid).Some? ==> PendingAt(t, sid) == PendingAt(m, sid))
    && (forall sid :: sid in t.streams && t.streams[sid].replyId == None ==>
          m.nextId <= sid || (sid in m.streams && m.streams[sid].replyId == None))
  }

  /** A calm step that settles nothing with an answer. */
  ghost predicate Quiet(m: Mux<Json>, t: Mux<Json>) {
    && Calm(m, t)
    && (forall c :: c in t.settled ==>
          || (c in m.settled && t.settled[c] == m.settled[c])
          || t.settled[c].StreamEnded? || t.settled[c].NotSent?)
  }

  lemma CalmKeeps(w: World, t: Mux<Json>)
    requires PairInv(w) && Inv(t) && !t.accepts && Calm(w.hub, t) && AnswersMatch(t, w.refused, w.daemon.capError)
    ensures PairInv(HubAt(w, t))
  {
    hide Inv, AnswersMatch;
    var v := HubAt(w, t);
    ControlIsApart(t);
    assert OriginsOk(v.hub, v.origin);
    assert WaitingOk(v.hub, v.origin) by { assert t.control.pending.Some? ==> PendingAt(t, CONTROL_STREAM_ID).Some?; }
  }

  lemma QuietKeeps(w: World, t: Mux<Json>)
    requires PairInv(w) && Inv(t) && !t.accepts && Quiet(w.hub, t)
    ensures PairInv(HubAt(w, t))
  {
    hide Inv, Calm, ChannelsOk, OriginsOk, WaitingOk, ServingOk;
    CalmKeeps(w, t);
  }

  lemma OpenIsQuiet(m: Mux<Json>)
    requires Inv(m) && !m.accepts
    ensures Quiet(m, m.OpenStream())
  {
    hide CallsOk;
  }

  lemma CloseIsQuiet(m: Mux<Json>, sid: nat, reason: Reason)
    ensures Quiet(m, m.CloseStream(sid, reason))
  {
  }

  lemma CancelIsQuiet(m: Mux<Json>, sid: nat)
    ensures Quiet(m, m.CancelStream(sid))
  {
    CloseIsQuiet(m, sid, Cancelled);
    hide Mux.CloseStream;
  }

  lemma TellIsQuiet(m: Mux<Json>, sid: nat, message: Message<Json>)
    requires !message.Request?
    ensures Quiet(m, m.SendOnStream(sid, message))
  {
  }

  lemma QuietThrough(m: Mux<Json>, t: Mux<Json>, u: Mux<Json>)
    requires Quiet(m, t) && Quiet(t, u)
    ensures Quiet(m, u)
  {
    assert u.control.pending.Some? ==> PendingAt(u, CONTROL_STREAM_ID) == PendingAt(t, CONTROL_STREAM_ID);
  }

  lemma AbortIsQuiet(m: Mux<Json>, sid: nat)
    ensures Quiet(m, m.Abort(sid))
  {
    hide Quiet, Mux.CancelStream, Mux.SendOnStream;
    var t := m.SendOnStream(sid, Notification(CANCEL_NOTIFICATION, None));
    TellIsQuiet(m, sid, Notification(CANCEL_NOTIFICATION, None));
    CancelIsQuiet(t, sid);
    QuietThrough(m, t, t.CancelStream(sid));
    SelfIsQuiet(m);
  }

  lemma SelfIsQuiet(m: Mux<Json>)
    ensures Quiet(m, m)
  {
  }

  lemma RefuseIsQuiet(m: Mux<Json>, sid: nat, error: Json)
    ensures Quiet(m, m.RefuseStream(sid, error))
  {
    SelfIsQuiet(m);
    if m.IsOpen(sid) {
      var st := m.Get(sid).value;
      var message := Failure(Some(if st.replyId.Some? then st.replyId.value else Number(sid)), error);
      TellIsQuiet(m, sid, message);
      CloseIsQuiet(m.Send(sid, message), sid, Closed);
      QuietThrough(m, m.Send(sid, message), m.RefuseStream(sid, error));
    }
  }

  lemma EndIsQuiet(m: Mux<Json>)
    requires Inv(m)
    ensures Quiet(m, m.CloseSession())
  {
    hide CallsOk, PendingCalls, IdsOk;
  }

  /** A call that does not go out: refused, cancelled before it was sent, or too large to send. */
  lemma UnsentIsQuiet(m: Mux<Json>, sid: nat, name: string, params: Option<Json>, aborted: bool, oversize: bool)
    requires Inv(m) && (aborted || oversize || m.Refuses(sid))
    ensures Quiet(m, m.RequestOn(sid, name, params, aborted, oversize))
  {
    hide Inv, Quiet, Mux.CancelStream;
    CancelIsQuiet(m, sid);
    SelfIsQuiet(m);
    if !m.Refuses(sid) {
      OversizeIsQuiet(m, sid);
    }
  }

  /** A request the sender refuses is counted, and settled at once. */
  lemma OversizeIsQuiet(m: Mux<Json>, sid: nat)
    requires Inv(m) && !m.Refuses(sid)
    ensures var st := m.Get(sid).value;
            Quiet(m, m.Put(sid, st.(requests := st.requests + 1)).(calls := m.calls + 1,
              settled := m.settled[m.calls := NotSent]))
  {
    hide CallsOk, IdsOk;
  }

  /** What a call that goes out does: the one frame it sends, and the one request that now waits. */
  ghost predicate GoesOut(m: Mux<Json>, t: Mux<Json>, sid: nat, message: Message<Json>) {
    && m.Get(sid).Some? && t.sent == m.sent + [Frame(sid, message)] && t.calls == m.calls + 1 && t.nextId == m.nextId
    && message.Request? && message.id == m.RequestId(sid) && LabelOf(message) == Some(m.calls)
    && t.control.requests == (if sid == CONTROL_STREAM_ID then m.control.requests + 1 else m.control.requests)
    && PendingAt(t, sid) == Some(Pending(message.id, m.calls))
    && (forall r: nat :: r != sid ==> PendingAt(t, r) == PendingAt(m, r))
    && (forall r :: r in t.streams && t.streams[r].replyId == None ==>
      r != sid && r in m.streams && m.streams[r].replyId == None)
    && t.settled == m.settled
  }

  lemma SentGoesOut(m: Mux<Json>, sid: nat, name: string, body: int)
    requires Inv(m) && !m.Refuses(sid)
    ensures var v := Some(Json(Some(m.calls), body));
            GoesOut(m, m.RequestOn(sid, name, v, false, false), sid, Request(m.RequestId(sid), name, v))
  {
    ControlIsApart(m);
    hide CallsOk, IdsOk;
  }

  /** A stream that can carry a request has carried none under the id this one gets. */
  lemma FreshOrigin(w: World, sid: nat)
    requires PairInv(w) && !w.hub.Refuses(sid)
    ensures OriginOk(w.hub, (sid, w.hub.RequestId(sid))) || sid == CONTROL_STREAM_ID
    ensures forall c :: c in w.origin ==> w.origin[c] != (sid, w.hub.RequestId(sid)) && c != w.hub.calls
  {
    hide CallsOk, ChannelsOk, ServingOk, AnswersMatch;
  }

  lemma SentKeeps(w: World, t: Mux<Json>, sid: nat, message: Message<Json>)
    requires PairInv(w) && !w.hub.Refuses(sid) && Inv(t) && !t.accepts && GoesOut(w.hub, t, sid, message)
    ensures PairInv(HubAt(w, t).(origin := w.origin[w.hub.calls := (sid, w.hub.RequestId(sid))]))
  {
    var v := HubAt(w, t).(origin := w.origin[w.hub.calls := (sid, w.hub.RequestId(sid))]);
    FreshOrigin(w, sid);
    SentOrigins(w, t, sid, message);
    SentChannels(w, t, sid, message);
    hide Inv, ChannelsOk, OriginsOk, WaitingOk;
  }

  lemma SentChannels(w: World, t: Mux<Json>, sid: nat, message: Message<Json>)
    requires ChannelsOk(w) && ServingOk(w.daemon, w.serving, w.origin) && GoesOut(w.hub, t, sid, message)
      && w.hub.calls !in w.origin
    ensures var v := HubAt(w, t).(origin := w.origin[w.hub.calls := (sid, w.hub.RequestId(sid))]);
            ChannelsOk(v) && ServingOk(v.daemon, v.serving, v.origin)
  {
  }

  lemma SentOrigins(w: World, t: Mux<Json>, sid: nat, message: Message<Json>)
    requires OriginsOk(w.hub, w.origin) && WaitingOk(w.hub, w.origin) && GoesOut(w.hub, t, sid, message)
    requires OriginOk(w.hub, (sid, w.hub.RequestId(sid))) || sid == CONTROL_STREAM_ID
    requires forall c :: c in w.origin ==> w.origin[c] != (sid, w.hub.RequestId(sid)) && c != w.hub.calls
    ensures var origin := w.origin[w.hub.calls := (sid, w.hub.RequestId(sid))];
            OriginsOk(t, origin) && WaitingOk(t, origin)
  {
    assert t.control.pending == PendingAt(t, CONTROL_STREAM_ID)
      && w.hub.control.pending == PendingAt(w.hub, CONTROL_STREAM_ID);
  }

  // The hub receives.

  /** The answer a frame settles a waiting call with is the answer to that call. */
  lemma SettlesItsOwn(w: World, f: WireFrame)
    requires PairInv(w) && w.toHub != [] && f == w.toHub[0] && PendingAt(w.hub, f.s).Some?
    requires f.m.ResponseId() == Some(PendingAt(w.hub, f.s).value.id)
    ensures f.m.Success? ==> f.m.result.call == Some(PendingAt(w.hub, f.s).value.call)
    ensures f.m.Failure? ==>
              || (f.m.error == w.daemon.capError && PendingAt(w.hub, f.s).value.call in w.refused)
              || f.m.error.call == Some(PendingAt(w.hub, f.s).value.call)
  {
    hide Inv, ServingOk, AnswersMatch;
    assert ResponseOk(w.origin, w.refused, w.daemon.capError, w.toHub[0]);
    var p := PendingAt(w.hub, f.s).value;
    assert p.call in w.origin && w.origin[p.call] == (f.s, p.id);
    var v := if f.m.Success? then f.m.result else f.m.error;
    if v.call.Some? && v.call.value in w.origin {
      var o := w.origin[v.call.value];
      if f.s == CONTROL_STREAM_ID && p.id == Number(0) && o.0 == CONTROL_STREAM_ID {
        assert w.hub.control.requests == 1;
        assert OriginOk(w.hub, o);
        assert o == w.origin[p.call];
      }
    }
  }

  lemma SettleIsCalm(m: Mux<Json>, sid: nat, message: Message<Json>)
    ensures Calm(m, m.SettleStream(sid, message))
  {
  }

  lemma SettleMatches(w: World, f: WireFrame)
    requires PairInv(w) && w.toHub != [] && f == w.toHub[0] && !f.m.Request? && !f.m.Notification?
    ensures AnswersMatch(w.hub.SettleStream(f.s, f.m), w.refused, w.daemon.capError)
  {
    hide Inv, ServingOk, ChannelsOk, OriginsOk, WaitingOk;
    if PendingAt(w.hub, f.s).Some? && f.m.ResponseId() == Some(PendingAt(w.hub, f.s).value.id) {
      SettlesItsOwn(w, f);
    }
  }

  /** Taking a frame off a channel loses nothing that must hold. */
  lemma TakenKeeps(w: World)
    requires PairInv(w)
    ensures w.toHub != [] ==> PairInv(w.(toHub := w.toHub[1..]))
    ensures w.toDaemon != [] ==> PairInv(w.(toDaemon := w.toDaemon[1..]))
  {
    hide Inv, OriginsOk, WaitingOk, AnswersMatch, ServingOk;
  }

  /** At the hub a frame settles a request, cancels one, or does nothing. */
  lemma HubHandles(m: Mux<Json>, f: WireFrame)
    requires !m.accepts
    ensures var t := m.HandleFrame(f).mux;
            t == m || t == m.CancelStream(f.s) || (!f.m.Request? && !f.m.Notification? && t == m.SettleStream(f.s, f.m))
  {
    hide Mux.SettleStream, Mux.CancelStream;
  }

  lemma HubReceiveKeeps(w: World)
    requires PairInv(w) && w.toHub != []
    ensures PairInv(WorldApply(w, HubReceive))
  {
    var f, rest := w.toHub[0], w.(toHub := w.toHub[1..]);
    HandleFrameKeeps(w.hub, f);
    HubHandles(w.hub, f);
    TakenKeeps(w);
    SelfIsQuiet(w.hub);
    CancelIsQuiet(w.hub, f.s);
    hide Inv, Calm, Quiet, AnswersMatch, ChannelsOk, OriginsOk, WaitingOk, ServingOk;
    hide Mux.SettleStream, Mux.CancelStream, Mux.HandleFrame;
    var t := w.hub.HandleFrame(f).mux;
    if t == w.hub || t == w.hub.CancelStream(f.s) {
      QuietKeeps(rest, t);
    } else {
      SettleIsCalm(w.hub, f.s, f.m);
      SettleMatches(w, f);
      CalmKeeps(rest, t);
    }
  }

  // The daemon's steps.

  /** The daemon sends only labelled answers, and keeps answering for the request each stream serves. */
  lemma DaemonKeeps(w: World, d: Mux<Json>, serving: map<nat, nat>)
    requires PairInv(w) && Inv(d) && d.accepts && w.daemon.sent <= d.sent && d.capError == w.daemon.capError
    requires forall k :: |w.daemon.sent| <= k < |d.sent| ==> ResponseOk(w.origin, w.refused, d.capError, d.sent[k])
    requires ServingOk(d, serving, w.origin)
    ensures PairInv(DaemonAt(w, d).(serving := serving))
  {
    hide Inv, OriginsOk, WaitingOk, AnswersMatch, ServingOk;
    assert w.daemon.capError == d.capError;
  }

  /** Streams that only end, and words that are not answers, need nothing. */
  ghost predicate OnlyEnds(m: Mux<Json>, t: Mux<Json>) {
    && t.capError == m.capError && m.sent <= t.sent
    && (forall k :: |m.sent| <= k < |t.sent| ==> t.sent[k].m.Notification?)
    && (t.control.replyId == m.control.replyId || t.control.replyId == None)
    && (forall sid :: sid in t.streams ==> sid in m.streams && t.streams[sid].replyId == m.streams[sid].replyId)
  }

  lemma OnlyEndsKeeps(w: World, d: Mux<Json>)
    requires PairInv(w) && Inv(d) && d.accepts && OnlyEnds(w.daemon, d)
    ensures PairInv(DaemonAt(w, d))
  {
    hide Inv, OriginsOk, WaitingOk, AnswersMatch;
    DaemonKeeps(w, d, w.serving);
    assert DaemonAt(w, d).(serving := w.serving) == DaemonAt(w, d);
  }

  /** A daemon step that adds answers to `m`'s and leaves its streams as they were, or ended. */
  ghost predicate Replies(m: Mux<Json>, t: Mux<Json>, origin: map<nat, (nat, Id)>, refused: set<nat>) {
    && t.capError == m.capError && m.sent <= t.sent
    && (forall k :: |m.sent| <= k < |t.sent| ==> ResponseOk(origin, refused, t.capError, t.sent[k]))
    && t.control.replyId == None
    && (forall sid :: sid in t.streams ==> sid in m.streams && t.streams[sid].replyId == m.streams[sid].replyId)
  }

  lemma RepliesKeeps(w: World, d: Mux<Json>)
    requires PairInv(w) && Inv(d) && d.accepts && Replies(w.daemon, d, w.origin, w.refused)
    ensures PairInv(DaemonAt(w, d))
  {
    hide Inv, OriginsOk, WaitingOk, AnswersMatch;
    DaemonKeeps(w, d, w.serving);
    assert DaemonAt(w, d).(serving := w.serving) == DaemonAt(w, d);
  }

  lemma AnswerReplies(m: Mux<Json>, sid: nat, ok: bool, tag: nat, body: int, origin: map<nat, (nat, Id)>,
      refused: set<nat>)
    requires sid != CONTROL_STREAM_ID && m.control.replyId == None
    requires sid in m.streams ==> tag in origin && Some(origin[tag].1) == m.streams[sid].replyId && origin[tag].0 == sid
    ensures Replies(m, m.Respond(sid, Answers(ok, Json(Some(tag), body))), origin, refused)
  {
  }

  lemma RefusalReplies(m: Mux<Json>, sid: nat, tag: nat, body: int, origin: map<nat, (nat, Id)>, refused: set<nat>)
    requires sid != CONTROL_STREAM_ID && m.control.replyId == None
    requires sid in m.streams ==> tag in origin && Some(origin[tag].1) == m.streams[sid].replyId && origin[tag].0 == sid
    ensures Replies(m, m.RefuseStream(sid, Json(Some(tag), body)), origin, refused)
  {
  }

  lemma DaemonAnswerKeeps(w: World, sid: nat, ok: bool, body: int)
    requires PairInv(w) && sid != CONTROL_STREAM_ID
    ensures PairInv(WorldApply(w, DaemonAnswer(sid, ok, body)))
  {
    hide Inv, OriginsOk, WaitingOk, AnswersMatch, ChannelsOk, Replies, Answers;
    var build := Answers(ok, Json(Serves(w, sid), body));
    RespondKeeps(w.daemon, sid, build);
    if sid in w.daemon.streams {
      AnswerReplies(w.daemon, sid, ok, w.serving[sid], body, w.origin, w.refused);
      hide Mux.Respond;
      RepliesKeeps(w, w.daemon.Respond(sid, build));
    } else {
      assert DaemonAt(w, w.daemon) == w;
    }
  }

  lemma DaemonTooLargeKeeps(w: World, sid: nat, body: int)
    requires PairInv(w) && sid != CONTROL_STREAM_ID
    ensures PairInv(WorldApply(w, DaemonTooLarge(sid, body)))
  {
    hide Inv, OriginsOk, WaitingOk, AnswersMatch, ChannelsOk, Replies;
    RefuseKeeps(w.daemon, sid, Json(Serves(w, sid), body));
    if sid in w.daemon.streams {
      RefusalReplies(w.daemon, sid, w.serving[sid], body, w.origin, w.refused);
      hide Mux.RefuseStream;
      RepliesKeeps(w, w.daemon.RefuseStream(sid, Json(Serves(w, sid), body)));
    } else {
      assert DaemonAt(w, w.daemon) == w;
    }
  }

  lemma DaemonCloses(m: Mux<Json>, sid: nat, reason: Reason)
    ensures OnlyEnds(m, m.CloseStream(sid, reason)) && OnlyEnds(m, m.CancelStream(sid)) && OnlyEnds(m, m)
  {
  }

  lemma DaemonSettles(m: Mux<Json>, sid: nat, message: Message<Json>)
    requires Inv(m) && m.accepts
    ensures m.SettleStream(sid, message) == m
  {
    hide CallsOk, IdsOk;
  }

  lemma IgnoredReplies(m: Mux<Json>, f: WireFrame, origin: map<nat, (nat, Id)>, refused: set<nat>)
    requires Inv(m) && m.accepts && m.control.replyId == None && !m.HandleFrame(f).delivery.Handled?
      && RequestOk(origin, f)
    ensures var t := m.HandleFrame(f).mux;
            Replies(m, t, origin, refused + if |t.sent| > |m.sent| then LabelSet(f.m) else {})
  {
    var t := m.HandleFrame(f).mux;
    if |t.sent| > |m.sent| {
      CappedReplies(m, f, origin, refused);
    } else {
      DaemonSettles(m, f.s, f.m);
      DaemonCloses(m, f.s, Closed);
      hide Inv, Mux.SettleStream, Mux.CancelStream;
      assert t == m || t == m.CancelStream(f.s);
    }
  }

  lemma CappedReplies(m: Mux<Json>, f: WireFrame, origin: map<nat, (nat, Id)>, refused: set<nat>)
    requires m.control.replyId == None && |m.HandleFrame(f).mux.sent| > |m.sent| && RequestOk(origin, f)
    ensures Replies(m, m.HandleFrame(f).mux, origin, refused + LabelSet(f.m))
  {
    assert m.HandleFrame(f).mux == m.(closedIds := m.closedIds + {f.s}).Send(f.s, Failure(Some(f.m.id), m.capError));
    hide Mux.HandleFrame;
  }

  /** More calls counted as refused than before is no harm. */
  lemma MoreRefused(w: World, calls: set<nat>)
    requires PairInv(w)
    ensures PairInv(w.(refused := w.refused + calls))
  {
    hide Inv, ServingOk, OriginsOk, WaitingOk;
    var v := w.(refused := w.refused + calls);
    forall k | 0 <= k < |v.toHub| ensures ResponseOk(v.origin, v.refused, v.daemon.capError, v.toHub[k]) {
      assert ResponseOk(w.origin, w.refused, w.daemon.capError, w.toHub[k]);
    }
  }

  /** A frame that reaches no handler: a cancellation, a late word, or a request over the stream cap. */
  lemma DaemonIgnoresKeeps(w: World, reply: Reply)
    requires PairInv(w) && w.toDaemon != [] && !w.daemon.HandleFrame(w.toDaemon[0]).delivery.Handled?
    ensures PairInv(DaemonTakes(w, reply))
  {
    hide Inv, OriginsOk, WaitingOk, AnswersMatch, Mux.HandleFrame, Replies;
    var f, rest := w.toDaemon[0], w.(toDaemon := w.toDaemon[1..]);
    var d := w.daemon.HandleFrame(f).mux;
    HandleFrameKeeps(w.daemon, f);
    HandleKeepsRole(w.daemon, f);
    assert RequestOk(w.origin, w.toDaemon[0]);
    hide ChannelsOk;
    IgnoredReplies(w.daemon, f, w.origin, w.refused);
    TakenKeeps(w);
    var calls := if |d.sent| > |w.daemon.sent| then LabelSet(f.m) else {};
    MoreRefused(rest, calls);
    RepliesKeeps(rest.(refused := w.refused + calls), d);
    assert DaemonTakes(w, reply) == DaemonAt(rest.(refused := w.refused + calls), d);
  }

  lemma HandleKeepsRole(m: Mux<Json>, f: WireFrame)
    ensures m.HandleFrame(f).mux.accepts == m.accepts && m.sent <= m.HandleFrame(f).mux.sent
  {
  }

  /** A request that opens a stream. */
  lemma DaemonAcceptsKeeps(w: World, reply: Reply)
    requires PairInv(w) && w.toDaemon != [] && w.toDaemon[0].s != CONTROL_STREAM_ID
    requires w.daemon.HandleFrame(w.toDaemon[0]).delivery.Handled?
    ensures PairInv(DaemonTakes(w, reply))
  {
    var f, rest := w.toDaemon[0], w.(toDaemon := w.toDaemon[1..]);
    var d := w.daemon.HandleFrame(f).mux;
    HandleFrameKeeps(w.daemon, f);
    TakenKeeps(w);
    AcceptedIs(w.daemon, f);
    hide Inv, OriginsOk, WaitingOk, AnswersMatch, Mux.HandleFrame;
    assert RequestOk(w.origin, w.toDaemon[0]);
    hide ChannelsOk;
    AcceptedServes(w.daemon, f, w.serving, w.origin);
    hide ServingOk, AnswersMatch;
    DaemonKeeps(rest, d, w.serving[f.s := LabelOf(f.m).value]);
  }

  lemma AcceptedServes(m: Mux<Json>, f: WireFrame, serving: map<nat, nat>, origin: map<nat, (nat, Id)>)
    requires ServingOk(m, serving, origin) && f.m.Request? && RequestOk(origin, f)
    ensures ServingOk(m.(streams := m.streams[f.s := NewStream.(replyId := Some(f.m.id))]),
      serving[f.s := LabelOf(f.m).value], origin)
  {
  }

  lemma AcceptedIs(m: Mux<Json>, f: WireFrame)
    requires f.s != CONTROL_STREAM_ID && m.HandleFrame(f).delivery.Handled?
    ensures f.m.Request? && m.HandleFrame(f).delivery.stream == f.s
    ensures m.HandleFrame(f).mux == m.(streams := m.streams[f.s := NewStream.(replyId := Some(f.m.id))])
  {
  }

  lemma ControlReplyOk(d: Mux<Json>, id: Id, tag: nat, reply: Reply, origin: map<nat, (nat, Id)>)
    requires Inv(d) && d.accepts && !d.closed && d.control.replyId == Some(id) && tag in origin
      && origin[tag] == (CONTROL_STREAM_ID, id)
    ensures var t := ControlReply(d, Some(tag), reply);
            && Inv(t) && t.accepts && t.capError == d.capError && t.streams == d.streams && t.control.replyId == None
            && |t.sent| == |d.sent| + 1 && d.sent <= t.sent && ResponseOk(origin, {}, t.capError, t.sent[|d.sent|])
  {
    var t := ControlReply(d, Some(tag), reply);
    SameCalls(d, t);
    hide CallsOk;
  }

  /** A control request is answered at once, under its own id or, when the answer is too large, under the fallback. */
  lemma DaemonControlKeeps(w: World, reply: Reply)
    requires PairInv(w) && w.toDaemon != [] && w.toDaemon[0].s == CONTROL_STREAM_ID
    requires w.daemon.HandleFrame(w.toDaemon[0]).delivery.Handled?
    ensures PairInv(DaemonTakes(w, reply))
  {
    var f, rest := w.toDaemon[0], w.(toDaemon := w.toDaemon[1..]);
    var d := w.daemon.HandleFrame(f).mux;
    HandleFrameKeeps(w.daemon, f);
    assert PairInv(rest);
    assert RequestOk(w.origin, w.toDaemon[0]);
    assert CONTROL_STREAM_ID !in w.daemon.streams by { ControlIsApart(w.daemon); }
    hide Inv, OriginsOk, WaitingOk, AnswersMatch, ChannelsOk, Mux.SettleStream, Mux.CancelStream, ControlReply;
    ControlReplyOk(d, f.m.id, LabelOf(f.m).value, reply, w.origin);
    var t := ControlReply(d, LabelOf(f.m), reply);
    DaemonKeeps(rest, t, w.serving);
    assert DaemonAt(rest, t).(serving := w.serving) == DaemonAt(rest, t);
  }

  lemma DaemonReceiveKeeps(w: World, reply: Reply)
    requires PairInv(w)
    ensures PairInv(DaemonTakes(w, reply))
  {
    hide PairInv, Mux.HandleFrame;
    if w.toDaemon != [] {
      if !w.daemon.HandleFrame(w.toDaemon[0]).delivery.Handled? {
        DaemonIgnoresKeeps(w, reply);
      } else if w.toDaemon[0].s == CONTROL_STREAM_ID {
        DaemonControlKeeps(w, reply);
      } else {
        DaemonAcceptsKeeps(w, reply);
      }
    }
  }

  lemma DaemonEnds(m: Mux<Json>)
    ensures OnlyEnds(m, m.CloseSession())
  {
  }

  lemma HubCallKeeps(w: World, sid: nat, name: string, body: int, aborted: bool, oversize: bool)
    requires PairInv(w)
    ensures PairInv(Called(w, sid, name, body, aborted, oversize))
  {
    var v := Some(Json(Some(w.hub.calls), body));
    var h := w.hub.RequestOn(sid, name, v, aborted, oversize);
    RequestKeeps(w.hub, sid, name, v, aborted, oversize);
    hide Inv, Quiet, GoesOut, AnswersMatch, ChannelsOk, OriginsOk, WaitingOk, ServingOk, Mux.RequestOn, Mux.Refuses;
    if aborted || oversize || w.hub.Refuses(sid) {
      UnsentIsQuiet(w.hub, sid, name, v, aborted, oversize);
      QuietKeeps(w, h);
      assert HubAt(w, h).(origin := w.origin) == HubAt(w, h);
    } else {
      SentGoesOut(w.hub, sid, name, body);
      SentKeeps(w, h, sid, Request(w.hub.RequestId(sid), name, v));
    }
  }

  /** Every step of either side, and every delivery, keeps the pair's invariant. */
  lemma WorldStepKeeps(w: World, step: WorldStep)
    requires PairInv(w)
    ensures PairInv(WorldApply(w, step))
  {
    match step
    case HubCall(sid, name, body, aborted, oversize) => HubCallKeeps(w, sid, name, body, aborted, oversize);
    case HubReceive => if w.toHub != [] { HubReceiveKeeps(w); }
    case DaemonReceive(reply) => DaemonReceiveKeeps(w, reply);
    case DaemonAnswer(sid, ok, body) => if sid != CONTROL_STREAM_ID { DaemonAnswerKeeps(w, sid, ok, body); }
    case DaemonTooLarge(sid, body) => if sid != CONTROL_STREAM_ID { DaemonTooLargeKeeps(w, sid, body); }
    case _ => PlainStepKeeps(w, step);
  }

  lemma PlainStepKeeps(w: World, step: WorldStep)
    requires PairInv(w) && !step.HubCall? && !step.HubReceive? && !step.DaemonReceive? && !step.DaemonAnswer?
      && !step.DaemonTooLarge?
    ensures PairInv(WorldApply(w, step))
  {
    if step.DaemonTell? || step.DaemonClose? || step.DaemonEnd? {
      DaemonPlainKeeps(w, step);
    } else {
      HubPlainKeeps(w, step);
    }
  }

  lemma HubPlainKeeps(w: World, step: WorldStep)
    requires PairInv(w)
    requires step.HubOpen? || step.HubAbort? || step.HubTell? || step.HubClose? || step.HubRefuse? || step.HubEnd?
    ensures PairInv(WorldApply(w, step))
  {
    hide Quiet, OriginsOk, WaitingOk, AnswersMatch, ChannelsOk, ServingOk, IdsOk, StreamsOk, CallsOk;
    hide Mux.OpenStream, Mux.Abort, Mux.SendOnStream, Mux.CloseStream, Mux.RefuseStream, Mux.CloseSession;
    match step
    case HubOpen =>
      StepKeeps(w.hub, Open); StepGrows(w.hub, Open);
      OpenIsQuiet(w.hub);
      QuietKeeps(w, w.hub.OpenStream());
    case HubAbort(sid) =>
      StepKeeps(w.hub, AbortCall(sid)); StepGrows(w.hub, AbortCall(sid));
      AbortIsQuiet(w.hub, sid);
      QuietKeeps(w, w.hub.Abort(sid));
    case HubTell(sid, name, params) =>
      StepKeeps(w.hub, Tell(sid, name, params)); StepGrows(w.hub, Tell(sid, name, params));
      TellIsQuiet(w.hub, sid, Notification(name, params));
      QuietKeeps(w, w.hub.SendOnStream(sid, Notification(name, params)));
    case HubClose(sid) =>
      StepKeeps(w.hub, CloseOne(sid)); StepGrows(w.hub, CloseOne(sid));
      CloseIsQuiet(w.hub, sid, Closed);
      QuietKeeps(w, w.hub.CloseStream(sid, Closed));
    case HubRefuse(sid, error) =>
      StepKeeps(w.hub, Refuse(sid, error)); StepGrows(w.hub, Refuse(sid, error));
      RefuseIsQuiet(w.hub, sid, error);
      QuietKeeps(w, w.hub.RefuseStream(sid, error));
    case HubEnd =>
      StepKeeps(w.hub, CloseAll); StepGrows(w.hub, CloseAll);
      EndIsQuiet(w.hub);
      QuietKeeps(w, w.hub.CloseSession());
  }

  lemma DaemonPlainKeeps(w: World, step: WorldStep)
    requires PairInv(w) && (step.DaemonTell? || step.DaemonClose? || step.DaemonEnd?)
    ensures PairInv(WorldApply(w, step))
  {
    hide OnlyEnds, OriginsOk, WaitingOk, AnswersMatch, ChannelsOk, ServingOk, IdsOk, StreamsOk, CallsOk;
    hide Mux.CloseStream, Mux.CloseSession;
    match step
    case DaemonTell(sid, name, params) =>
      StepKeeps(w.daemon, Tell(sid, name, params));
      DaemonTells(w.daemon, sid, Notification(name, params));
      OnlyEndsKeeps(w, w.daemon.SendOnStream(sid, Notification(name, params)));
    case DaemonClose(sid) =>
      StepKeeps(w.daemon, CloseOne(sid)); StepGrows(w.daemon, CloseOne(sid));
      DaemonCloses(w.daemon, sid, Closed);
      OnlyEndsKeeps(w, w.daemon.CloseStream(sid, Closed));
    case DaemonEnd =>
      StepKeeps(w.daemon, CloseAll); StepGrows(w.daemon, CloseAll);
      DaemonEnds(w.daemon);
      OnlyEndsKeeps(w, w.daemon.CloseSession());
  }

  lemma DaemonTells(m: Mux<Json>, sid: nat, message: Message<Json>)
    requires message.Notification?
    ensures OnlyEnds(m, m.SendOnStream(sid, message))
  {
  }

  // Whole runs of the pair.

  function WorldRun(w: World, steps: seq<WorldStep>): World
    decreases |steps|
  {
    if steps == [] then w else WorldRun(WorldApply(w, steps[0]), steps[1..])
  }

  lemma {:induction false} WorldRunKeeps(w: World, steps: seq<WorldStep>)
    requires PairInv(w)
    ensures PairInv(WorldRun(w, steps))
    decreases |steps|
  {
    hide PairInv, WorldApply;
    if steps != [] {
      WorldStepKeeps(w, steps[0]);
      WorldRunKeeps(WorldApply(w, steps[0]), steps[1..]);
    }
  }

  /**
   In every run of the pair a call settles only with the daemon's answer to that same call, or with the
   refusal of its own request at the stream cap: no answer, however late, settles another call.
   */
  lemma AnswersSettleTheirOwnCall(hubCap: nat, daemonCap: nat, capError: Json, steps: seq<WorldStep>, c: nat)
    requires c in WorldRun(NewWorld(hubCap, daemonCap, capError), steps).hub.settled
    ensures var w := WorldRun(NewWorld(hubCap, daemonCap, capError), steps);
            && (w.hub.settled[c].Resolved? ==> w.hub.settled[c].value.call == Some(c))
            && (w.hub.settled[c].Failed? ==>
                  w.hub.settled[c].error.call == Some(c)
                    || (c in w.refused && w.hub.settled[c].error == w.daemon.capError))
  {
    StartOk(hubCap, daemonCap, capError);
    WorldRunKeeps(NewWorld(hubCap, daemonCap, capError), steps);
    hide Inv, OriginsOk, WaitingOk, ChannelsOk, ServingOk, WorldRun;
  }

  // Control calls.

  /** The message the daemon answers a control request with. */
  function ControlMessage(id: Id, tag: Option<nat>, reply: Reply): Message<Json> {
    match reply
    case Accept(body) => Success(id, Json(tag, body))
    case Reject(body) => Failure(Some(id), Json(tag, body))
    case TooLarge(body) => Failure(Some(Number(CONTROL_STREAM_ID)), Json(tag, body))
  }

  /** What the daemon's answer to a control call leaves of it; an answer too large reaches the first call only. */
  ghost predicate ControlSettled(m: Mux<Json>, t: Mux<Json>, reply: Reply)
    requires m.control.pending.Some?
  {
    var c := m.control.pending.value.call;
    && t.closed == m.closed && t.calls == m.calls && t.control.requests == m.control.requests
    && (t.control.pending == None ==> t.control.replyId == None)
    && match reply
    case Accept(body) => t.control.pending == None && t.settled == m.settled[c := Resolved(Json(Some(c), body))]
    case Reject(body) => t.control.pending == None && t.settled == m.settled[c := Failed(Json(Some(c), body))]
    case TooLarge(body) =>
      && (t.control.pending == None <==> m.control.requests == 1)
      && (if m.control.requests == 1 then t.settled == m.settled[c := Failed(Json(Some(c), body))] else t == m)
  }

  /** The pending control call's request is the next the daemon takes. */
  ghost predicate ControlAsked(w: World) {
    && w.hub.control.pending.Some? && !w.daemon.closed && w.toDaemon != []
    && w.toDaemon[0].s == CONTROL_STREAM_ID && w.toDaemon[0].m.Request? && w.toDaemon[0].m.name != CANCEL_NOTIFICATION
    && w.toDaemon[0].m.id == w.hub.control.pending.value.id
  }

  /** The request belongs to the call that waits. */
  lemma AskedByPending(w: World)
    requires PairInv(w) && ControlAsked(w)
    ensures LabelOf(w.toDaemon[0].m) == Some(w.hub.control.pending.value.call)
    ensures !w.hub.closed && !w.daemon.control.closed && w.hub.control.requests >= 1
    ensures w.hub.control.pending.value.id == Number(w.hub.control.requests - 1)
  {
    hide CallsOk, IdsOk, ServingOk, AnswersMatch;
    assert PendingAt(w.hub, CONTROL_STREAM_ID) == w.hub.control.pending;
    assert RequestOk(w.origin, w.toDaemon[0]);
    assert OriginOk(w.hub, w.origin[w.hub.control.pending.value.call]);
  }

  lemma DaemonRepliesToControl(w: World, reply: Reply)
    requires w.toDaemon != [] && !w.daemon.closed && !w.daemon.control.closed
    requires w.toDaemon[0].s == CONTROL_STREAM_ID && w.toDaemon[0].m.Request?
      && w.toDaemon[0].m.name != CANCEL_NOTIFICATION
    requires w.daemon.accepts && CONTROL_STREAM_ID !in w.daemon.streams
    ensures var f, v := w.toDaemon[0], WorldApply(w, DaemonReceive(reply));
            && v.hub == w.hub && v.toDaemon == w.toDaemon[1..]
            && v.toHub == w.toHub + [Frame(CONTROL_STREAM_ID, ControlMessage(f.m.id, LabelOf(f.m), reply))]
              && !v.daemon.closed
  {
    var f := w.toDaemon[0];
    var r := w.daemon.HandleFrame(f);
    assert r.mux == w.daemon.(control := w.daemon.control.(replyId := Some(f.m.id))) && r.delivery == Handled(f.s, f.m);
    hide Mux.HandleFrame;
    var message := ControlMessage(f.m.id, LabelOf(f.m), reply);
    assert ControlReply(r.mux, LabelOf(f.m), reply).sent == w.daemon.sent + [Frame(CONTROL_STREAM_ID, message)];
    assert !ControlReply(r.mux, LabelOf(f.m), reply).closed;
    hide ControlReply;
  }

  lemma HubTakesControl(w: World, id: Id, reply: Reply)
    requires !w.hub.closed && w.hub.control.pending.Some?
      && w.hub.control.pending.value.id == id == Number(w.hub.control.requests - 1)
    requires w.toHub != []
      && w.toHub[0] == Frame(CONTROL_STREAM_ID, ControlMessage(id, Some(w.hub.control.pending.value.call), reply))
    ensures var v := WorldApply(w, HubReceive);
            ControlSettled(w.hub, v.hub, reply) && v.toHub == w.toHub[1..] && v.toDaemon == w.toDaemon
              && v.daemon == w.daemon
  {
    assert w.hub.HandleFrame(w.toHub[0]).mux.sent == w.hub.sent;
  }

  /** With nothing else on its way, the answer is the next frame the hub takes. */
  lemma ReplyTaken(w: World, reply: Reply)
    requires PairInv(w) && ControlAsked(w) && w.toHub == []
    ensures var v := WorldApply(WorldApply(w, DaemonReceive(reply)), HubReceive);
            ControlSettled(w.hub, v.hub, reply) && v.toHub == [] && v.toDaemon == w.toDaemon[1..] && !v.daemon.closed
  {
    AskedByPending(w);
    ControlIsApart(w.daemon);
    hide Inv, ChannelsOk, ServingOk, OriginsOk, WaitingOk, AnswersMatch, ControlSettled, ControlMessage, WorldApply;
    DaemonRepliesToControl(w, reply);
    HubTakesControl(WorldApply(w, DaemonReceive(reply)), w.hub.control.pending.value.id, reply);
  }

  // With other frames on their way.

  /** A frame for the hub that neither answers the control request with this id nor cancels it. */
  predicate Leaves(f: WireFrame, id: Id) {
    || f.s != CONTROL_STREAM_ID
    || (if f.m.Request? || f.m.Notification? then f.m.name != CANCEL_NOTIFICATION else f.m.ResponseId() != Some(id))
  }

  lemma LeftAlone(m: Mux<Json>, f: WireFrame)
    requires Inv(m) && !m.accepts && m.control.pending.Some? && Leaves(f, m.control.pending.value.id)
    ensures var t := m.HandleFrame(f).mux; t.control == m.control && t.sent == m.sent
  {
    hide CallsOk, IdsOk;
  }

  /** What the daemon's answer makes of call `c`, the latest on the control stream. */
  ghost predicate Answered(m: Mux<Json>, c: nat, requests: nat, reply: Reply) {
    match reply
    case Accept(body) => m.control.pending == None && c in m.settled && m.settled[c] == Resolved(Json(Some(c), body))
    case Reject(body) => m.control.pending == None && c in m.settled && m.settled[c] == Failed(Json(Some(c), body))
    case TooLarge(body) =>
      if requests == 1 then m.control.pending == None && c in m.settled && m.settled[c] == Failed(Json(Some(c), body))
      else c !in m.settled && m.control.pending.Some? && m.control.pending.value.call == c
  }

  lemma SettledIsAnswered(w: World, t: Mux<Json>, reply: Reply)
    requires PairInv(w) && w.hub.control.pending.Some? && ControlSettled(w.hub, t, reply)
    ensures Answered(t, w.hub.control.pending.value.call, w.hub.control.requests, reply)
  {
    hide ChannelsOk, ServingOk, OriginsOk, WaitingOk, AnswersMatch, IdsOk, StreamsOk;
    assert Waits(w.hub, CONTROL_STREAM_ID, w.hub.control.pending.value.call);
  }

  function Receives(n: nat): seq<WorldStep> {
    seq(n, _ => HubReceive)
  }

  /** The answer at position `n` of the channel, and nothing before it that ends the call. */
  ghost predicate AnswerAt(w: World, n: nat, reply: Reply) {
    && !w.hub.closed && w.hub.control.pending.Some?
      && w.hub.control.pending.value.id == Number(w.hub.control.requests - 1)
    && n < |w.toHub|
    && w.toHub[n] == Frame(CONTROL_STREAM_ID,
                           ControlMessage(w.hub.control.pending.value.id, Some(w.hub.control.pending.value.call),
                             reply))
    && forall k :: 0 <= k < n ==> Leaves(w.toHub[k], w.hub.control.pending.value.id)
  }

  /** One frame that comes before it is taken. */
  lemma OneCloser(w: World, n: nat, reply: Reply)
    requires PairInv(w) && AnswerAt(w, n, reply) && n > 0
    ensures var v := WorldApply(w, HubReceive); v.hub.control == w.hub.control && AnswerAt(v, n - 1, reply)
  {
    LeftAlone(w.hub, w.toHub[0]);
    StaysOpen(w.hub, w.toHub[0]);
    hide PairInv, Mux.HandleFrame, ControlMessage, Leaves;
  }

  lemma StaysOpen(m: Mux<Json>, f: WireFrame)
    ensures m.HandleFrame(f).mux.closed == m.closed
  {
  }

  lemma {:induction false} AnswerArrivesAt(w: World, n: nat, reply: Reply)
    requires PairInv(w) && AnswerAt(w, n, reply)
    ensures Answered(WorldRun(w, Receives(n + 1)).hub, w.hub.control.pending.value.call, w.hub.control.requests, reply)
    decreases n
  {
    hide PairInv, WorldApply, ControlSettled, Answered, Leaves;
    var c, requests := w.hub.control.pending.value.call, w.hub.control.requests;
    assert Receives(n + 1)[1..] == Receives(n) && Receives(n + 1)[0] == HubReceive;
    var v := WorldApply(w, HubReceive);
    if n == 0 {
      HubTakesControl(w, w.hub.control.pending.value.id, reply);
      SettledIsAnswered(w, v.hub, reply);
      assert WorldRun(v, Receives(0)) == v;
    } else {
      WorldStepKeeps(w, HubReceive);
      OneCloser(w, n, reply);
      AnswerArrivesAt(v, n - 1, reply);
    }
  }

  /**
   The daemon takes the request of a pending control call and its handler replies, whatever is on its way to
   the hub; the hub then takes everything up to the answer. An oversize answer goes out under the fallback
   id 0, so the call is settled by it exactly when it was the first on the control stream; a later one keeps
   waiting, and nothing more is on its way to it.
   */
  lemma FallbackReachesOnlyTheFirst(w: World, reply: Reply)
    requires PairInv(w) && ControlAsked(w)
    requires forall k :: 0 <= k < |w.toHub| ==> Leaves(w.toHub[k], w.hub.control.pending.value.id)
    ensures var v := WorldRun(WorldApply(w, DaemonReceive(reply)), Receives(|w.toHub| + 1));
            Answered(v.hub, w.hub.control.pending.value.call, w.hub.control.requests, reply)
  {
    AskedByPending(w);
    ControlIsApart(w.daemon);
    hide Inv, ChannelsOk, ServingOk, OriginsOk, WaitingOk, AnswersMatch, Answered, ControlMessage, WorldApply, WorldRun;
    DaemonRepliesToControl(w, reply);
    WorldStepKeeps(w, DaemonReceive(reply));
    AnswerArrivesAt(WorldApply(w, DaemonReceive(reply)), |w.toHub|, reply);
  }

  /** A control call from a quiet pair is the next request the daemon takes. */
  lemma ControlCallGoesOut(w: World, name: string, body: int)
    requires PairInv(w) && w.toDaemon == w.toHub == [] && !w.hub.Refuses(CONTROL_STREAM_ID) && !w.daemon.closed
      && name != CANCEL_NOTIFICATION
    ensures var v := WorldApply(w, HubCall(CONTROL_STREAM_ID, name, body, false, false));
            && ControlAsked(v) && |v.toDaemon| == 1 && v.toHub == [] && v.daemon == w.daemon
            && v.hub.control.requests == w.hub.control.requests + 1 && v.hub.control.pending.value.call == w.hub.calls
            && v.hub.settled == w.hub.settled
  {
    SentGoesOut(w.hub, CONTROL_STREAM_ID, name, body);
    hide Mux.RequestOn, PairInv;
  }

  /** A control call, its request taken, its handler's reply, and the answer taken. */
  function Exchange(name: string, body: int, reply: Reply): seq<WorldStep> {
    [HubCall(CONTROL_STREAM_ID, name, body, false, false), DaemonReceive(reply), HubReceive]
  }

  /** Nothing is on its way, and both sides are open. */
  ghost predicate AtRest(w: World) {
    PairInv(w) && w.toDaemon == w.toHub == [] && !w.hub.closed && !w.daemon.closed
  }

  lemma ThreeSteps(w: World, a: WorldStep, b: WorldStep, c: WorldStep)
    ensures WorldRun(w, [a, b, c]) == WorldApply(WorldApply(WorldApply(w, a), b), c)
  {
    hide WorldApply;
    var abc, bc, c' := [a, b, c], [b, c], [c];
    assert abc[1..] == bc && bc[1..] == c' && c'[1..] == [];
    var v := WorldApply(WorldApply(w, a), b);
    assert WorldRun(v, c') == WorldApply(v, c) && WorldRun(WorldApply(w, a), bc) == WorldRun(v, c');
  }

  /**
   A whole exchange on the control stream of a pair at rest: settled with the handler's reply, but for a later
   oversize one.
   */
  lemma ExchangeSettles(w: World, name: string, body: int, reply: Reply)
    requires AtRest(w) && w.hub.control.replyId == None && name != CANCEL_NOTIFICATION
    ensures var v, c := WorldRun(w, Exchange(name, body, reply)), w.hub.calls;
            && AtRest(v) && v.hub.calls == c + 1 && v.hub.control.requests == w.hub.control.requests + 1
            && if reply.TooLarge? && w.hub.control.requests > 0
               then v.hub.control.pending.Some? && v.hub.control.pending.value.call == c
                 && v.hub.settled == w.hub.settled
               else v.hub.control.replyId == None && v.hub.settled
                    == w.hub.settled[c := if reply.Accept? then Resolved(Json(Some(c), reply.body))
                      else Failed(Json(Some(c), reply.body))]
  {
    var call := HubCall(CONTROL_STREAM_ID, name, body, false, false);
    ThreeSteps(w, call, DaemonReceive(reply), HubReceive);
    assert !w.hub.Refuses(CONTROL_STREAM_ID) by { ControlIsOpen(w.hub); }
    ControlCallGoesOut(w, name, body);
    hide PairInv, WorldApply, ControlAsked, WorldRun, Mux.Refuses;
    WorldStepKeeps(w, call);
    var v := WorldApply(w, call);
    WorldStepKeeps(v, DaemonReceive(reply));
    WorldStepKeeps(WorldApply(v, DaemonReceive(reply)), HubReceive);
    ReplyTaken(v, reply);
  }

  lemma ControlIsOpen(m: Mux<Json>)
    requires Inv(m)
    ensures m.control.closed == m.closed
  {
  }

  lemma {:induction false} RunsCompose(w: World, first: seq<WorldStep>, second: seq<WorldStep>)
    ensures WorldRun(w, first + second) == WorldRun(WorldRun(w, first), second)
    decreases |first|
  {
    hide WorldApply;
    if first == [] {
      assert first + second == second;
    } else {
      assert (first + second)[1..] == first[1..] + second;
      RunsCompose(WorldApply(w, first[0]), first[1..], second);
    }
  }

  /** A run in which a control call waits though its handler replied and nothing is on its way. */
  lemma SecondControlCallWaits(hubCap: nat, daemonCap: nat, capError: Json, name: string, body: int, first: int,
      second: int)
    requires name != CANCEL_NOTIFICATION
    ensures var w := WorldRun(NewWorld(hubCap, daemonCap, capError),
      Exchange(name, body, Accept(first)) + Exchange(name, body, TooLarge(second)));
            && AtRest(w) && w.hub.control.pending.Some? && w.hub.control.pending.value.call == 1
            && w.hub.settled == map[0 := Resolved(Json(Some(0), first))]
  {
    var w := NewWorld(hubCap, daemonCap, capError);
    StartOk(hubCap, daemonCap, capError);
    RunsCompose(w, Exchange(name, body, Accept(first)), Exchange(name, body, TooLarge(second)));
    hide PairInv, WorldRun, Exchange;
    ExchangeSettles(w, name, body, Accept(first));
    ExchangeSettles(WorldRun(w, Exchange(name, body, Accept(first))), name, body, TooLarge(second));
  }

  // Calls on numbered streams.

  /** Every id the daemon has seen is one the hub handed out. */
  ghost predicate DaemonIdsKnown(w: World) {
    forall sid: nat :: Used(w.daemon, sid) ==> sid < w.hub.nextId
  }

  lemma DaemonTakesKnown(w: World, reply: Reply)
    requires PairInv(w) && DaemonIdsKnown(w)
    ensures DaemonIdsKnown(DaemonTakes(w, reply))
  {
    hide Inv, ServingOk, WaitingOk, AnswersMatch, Mux.HandleFrame, ControlReply, Used;
    if w.toDaemon != [] {
      var f := w.toDaemon[0];
      assert RequestOk(w.origin, f);
      ControlReplyUses(w.daemon.HandleFrame(f).mux, LabelOf(f.m), reply);
      forall sid: nat | Used(w.daemon.HandleFrame(f).mux, sid) ensures sid < w.hub.nextId {
        if w.daemon.closed { ClosedStays(w.daemon, f); } else { HandleUses(w.daemon, f, sid); }
      }
    }
  }

  lemma ControlReplyUses(d: Mux<Json>, tag: Option<nat>, reply: Reply)
    ensures forall sid: nat :: Used(ControlReply(d, tag, reply), sid) <==> Used(d, sid)
  {
  }

  lemma RespondUses(d: Mux<Json>, sid: nat, build: Id -> Message<Json>)
    ensures forall r: nat :: Used(d.Respond(sid, build), r) <==> Used(d, r)
  {
  }

  lemma EndSessionUses(d: Mux<Json>)
    ensures forall r: nat :: Used(d.CloseSession(), r) <==> Used(d, r)
  {
    hide FailAll;
  }

  lemma TellUses(d: Mux<Json>, sid: nat, message: Message<Json>)
    ensures forall r: nat :: Used(d.SendOnStream(sid, message), r) <==> Used(d, r)
  {
  }

  lemma StepKeepsKnown(w: World, step: WorldStep)
    requires PairInv(w) && DaemonIdsKnown(w)
    ensures DaemonIdsKnown(WorldApply(w, step))
  {
    hide PairInv, Used, Mux.Respond, Mux.RefuseStream, Mux.SendOnStream, Mux.CloseStream, Mux.CloseSession, DaemonTakes;
    match step
    case DaemonReceive(reply) => DaemonTakesKnown(w, reply);
    case DaemonAnswer(sid, ok, body) => RespondUses(w.daemon, sid, Answers(ok, Json(Serves(w, sid), body)));
    case DaemonTooLarge(sid, body) => RefuseUses(w.daemon, sid, Json(Serves(w, sid), body));
    case DaemonTell(sid, name, params) => TellUses(w.daemon, sid, Notification(name, params));
    case DaemonClose(sid) => EndUses(w.daemon, sid, Closed);
    case DaemonEnd => EndSessionUses(w.daemon);
    case _ => HubGoesOn(w, step);
  }

  lemma HubGoesOn(w: World, step: WorldStep)
    requires PairInv(w)
    requires step.HubOpen? || step.HubCall? || step.HubAbort? || step.HubTell? || step.HubClose? || step.HubRefuse?
      || step.HubEnd? || step.HubReceive?
    ensures w.hub.nextId <= WorldApply(w, step).hub.nextId && WorldApply(w, step).daemon == w.daemon
  {
  }

  lemma {:induction false} RunKeepsKnown(w: World, steps: seq<WorldStep>)
    requires PairInv(w) && DaemonIdsKnown(w)
    ensures PairInv(WorldRun(w, steps)) && DaemonIdsKnown(WorldRun(w, steps))
    decreases |steps|
  {
    hide PairInv, WorldApply, DaemonIdsKnown;
    if steps != [] {
      WorldStepKeeps(w, steps[0]);
      StepKeepsKnown(w, steps[0]);
      RunKeepsKnown(WorldApply(w, steps[0]), steps[1..]);
    }
  }

  /** The hub opens a stream and calls on it: the request is on its way, and the call waits. */
  lemma CallGoesOut(w: World, name: string, body: int)
    requires AtRest(w) && |w.hub.streams| < w.hub.maxOpenStreams
    ensures var sid, c := w.hub.nextId, w.hub.calls;
            var v := WorldApply(WorldApply(w, HubOpen), HubCall(sid, name, body, false, false));
            && v.toDaemon == [Frame(sid, Request(Number(sid), name, Some(Json(Some(c), body))))] && v.toHub == []
            && PendingAt(v.hub, sid) == Some(Pending(Number(sid), c)) && v.hub.settled == w.hub.settled && !v.hub.closed
            && v.daemon == w.daemon && sid in v.hub.streams
  {
    var sid, ready := w.hub.nextId, WorldApply(w, HubOpen);
    WorldStepKeeps(w, HubOpen);
    assert w.hub.nextId >= 1 && w.hub.OpenStream().sent == w.hub.sent;
    hide PairInv;
    assert !ready.hub.Refuses(sid) && Inv(ready.hub) by { HubInv(ready); }
    SentGoesOut(ready.hub, sid, name, body);
    hide Mux.Refuses;
  }

  lemma HubInv(w: World)
    requires PairInv(w)
    ensures Inv(w.hub)
  {
  }

  /** The daemon accepts the request and answers it. */
  lemma CallIsAnswered(w: World, sid: nat, c: nat, name: string, body: int, ok: bool, result: int, reply: Reply)
    requires w.toDaemon == [Frame(sid, Request(Number(sid), name, Some(Json(Some(c), body))))] && w.toHub == []
    requires w.daemon.accepts && !w.daemon.closed && |w.daemon.streams| < w.daemon.maxOpenStreams
    requires sid != CONTROL_STREAM_ID && !Used(w.daemon, sid)
    ensures var v := WorldApply(WorldApply(w, DaemonReceive(reply)), DaemonAnswer(sid, ok, result));
            v.hub == w.hub && v.toHub == [Frame(sid, Answers(ok, Json(Some(c), result))(Number(sid)))]
  {
    var d := w.daemon.(streams := w.daemon.streams[sid := NewStream.(replyId := Some(Number(sid)))]);
    var w1 := WorldApply(w, DaemonReceive(reply));
    assert w1.daemon == d && w1.serving == w.serving[sid := c];
    hide Mux.HandleFrame, Answers;
    assert d.Respond(sid, Answers(ok, Json(Some(c), result))).sent
      == d.sent + [Frame(sid, Answers(ok, Json(Some(c), result))(Number(sid)))];
  }

  lemma AnswerArrives(w: World, sid: nat, c: nat, ok: bool, result: int)
    requires w.toHub == [Frame(sid, Answers(ok, Json(Some(c), result))(Number(sid)))] && !w.hub.closed
      && sid in w.hub.streams
    requires PendingAt(w.hub, sid) == Some(Pending(Number(sid), c)) && sid != CONTROL_STREAM_ID
    ensures WorldApply(w, HubReceive).hub.settled
         == w.hub.settled[c := if ok then Resolved(Json(Some(c), result)) else Failed(Json(Some(c), result))]
  {
  }

  /**
   After every run that leaves nothing on its way, both sides open and with room for a stream: a stream
   opened, called on, answered and delivered settles that call with the answer's value, and no other call.
   */
  lemma CallCompletes(
    hubCap: nat, daemonCap: nat, capError: Json, steps: seq<WorldStep>, name: string, body: int, ok: bool,
      result: int, reply: Reply)
    requires var w := WorldRun(NewWorld(hubCap, daemonCap, capError), steps);
             && w.toDaemon == w.toHub == [] && !w.hub.closed && !w.daemon.closed
             && |w.hub.streams| < w.hub.maxOpenStreams && |w.daemon.streams| < w.daemon.maxOpenStreams
    ensures var w := WorldRun(NewWorld(hubCap, daemonCap, capError), steps);
            var sid, c := w.hub.nextId, w.hub.calls;
            var asked := WorldApply(WorldApply(w, HubOpen), HubCall(sid, name, body, false, false));
            var answered := WorldApply(WorldApply(asked, DaemonReceive(reply)), DaemonAnswer(sid, ok, result));
            WorldApply(answered, HubReceive).hub.settled
            == w.hub.settled[c := if ok then Resolved(Json(Some(c), result)) else Failed(Json(Some(c), result))]
  {
    StartOk(hubCap, daemonCap, capError);
    RunKeepsKnown(NewWorld(hubCap, daemonCap, capError), steps);
    var w := WorldRun(NewWorld(hubCap, daemonCap, capError), steps);
    assert w.daemon.accepts && w.hub.nextId >= 1;
    assert !Used(w.daemon, w.hub.nextId);
    var sid, c := w.hub.nextId, w.hub.calls;
    hide WorldApply, PairInv, Used;
    CallGoesOut(w, name, body);
    var asked := WorldApply(WorldApply(w, HubOpen), HubCall(sid, name, body, false, false));
    CallIsAnswered(asked, sid, c, name, body, ok, result, reply);
    var answered := WorldApply(WorldApply(asked, DaemonReceive(reply)), DaemonAnswer(sid, ok, result));
    AnswerArrives(answered, sid, c, ok, result);
  }
}
