/**
 Settling one managed command. An abort, a deadline, the child's error and its close race; the first takes
 the command, and its asynchronous steps run on, probe by probe, to one result.
 */
module Watcher {
  import opened Text

  datatype Outcome = Known(code: Option<int>) | TimedOut | Cancelled | OutcomeUnknown

  /** Who took the command, and what it waits for. */
  datatype Phase =
    | Watching
    /** After the kill, until the group is empty or the wait is over. */
    | Stopping(taker: Taker)
    /** The child closed by a signal after an abort: no kill, only the wait. */
    | AwaitingCancelled
    /** The child closed: a short wait, then a kill and another wait. */
    | AwaitingExit(code: Option<int>)
    | StoppingExit(code: Option<int>)
    /** The group is empty; the last output is read. */
    | Draining
    | Settled

  datatype Taker = ByAbort | ByDeadline | ByChildError

  datatype Event =
    /** The caller's signal aborts; `timedOut`: because the timeout source did. */
    | Abort(timedOut: bool)
    | Deadline
    | ChildError
    | Close(code: Option<int>, signalled: bool, aborted: bool)
    /** One probe of the process group; `last`: the wait's budget is spent. */
    | Probe(alive: bool, last: bool)
    | Drained

  datatype Watch = Watch(
    settling: bool,
    phase: Phase,
    /** The `once` latch around the caller's resolve. */
    finished: bool,
    delivered: seq<Outcome>,
    /** History: a probe of the command's group found it empty. */
    sawEmpty: bool)

  const NewWatch := Watch(false, Watching, false, [], false)

  function Finish(w: Watch, outcome: Outcome): Watch {
    if w.finished then w.(phase := Settled)
    else w.(phase := Settled, finished := true, delivered := w.delivered + [outcome])
  }

  /** The first to settle takes the command. */
  function Claim(w: Watch, phase: Phase): Watch {
    if w.settling then w else w.(settling := true, phase := phase)
  }

  /** The wait for the group ended. */
  function Waited(w: Watch, empty: bool): Watch {
    match w.phase
    case Stopping(ByAbort) => Finish(w, if empty then Cancelled else OutcomeUnknown)
    case Stopping(ByDeadline) => if empty then w.(phase := Draining) else Finish(w, OutcomeUnknown)
    case Stopping(ByChildError) => Finish(w, OutcomeUnknown)
    case AwaitingCancelled => Finish(w, if empty then Cancelled else OutcomeUnknown)
    case AwaitingExit(code) => if empty then Finish(w, Known(code)) else w.(phase := StoppingExit(code))
    case StoppingExit(code) => Finish(w, if empty then Known(code) else OutcomeUnknown)
    case _ => w
  }

  predicate Waits(phase: Phase) {
    !phase.Watching? && !phase.Draining? && !phase.Settled?
  }

  function Take(w: Watch, event: Event): Watch {
    match event
    case Abort(timedOut) => Claim(w, Stopping(if timedOut then ByDeadline else ByAbort))
    case Deadline => Claim(w, Stopping(ByDeadline))
    case ChildError => Claim(w, Stopping(ByChildError))
    case Close(code, signalled, aborted) =>
      Claim(w, if signalled && aborted then AwaitingCancelled else AwaitingExit(code))
    case Probe(alive, last) =>
      if !Waits(w.phase) then w
      else if !alive then Waited(w.(sawEmpty := true), true)
      else if last then Waited(w, false)
      else w
    case Drained => if w.phase.Draining? then Finish(w, TimedOut) else w
  }

  function Run(w: Watch, events: seq<Event>): Watch
    decreases |events|
  {
    if events == [] then w else Run(Take(w, events[0]), events[1..])
  }

  /** At most one result, delivered exactly when settled; everything but an unknown outcome saw the group empty. */
  ghost predicate Inv(w: Watch) {
    && w.settling == !w.phase.Watching?
    && w.finished == w.phase.Settled?
    && |w.delivered| == (if w.phase.Settled? then 1 else 0)
    && (w.phase.Settled? && !w.delivered[0].OutcomeUnknown? ==> w.sawEmpty)
    && (w.phase.Draining? ==> w.sawEmpty)
  }

  /** How many waits and drains a claimed command still has before it. */
  function Remaining(w: Watch): nat {
    match w.phase
    case Watching => 4
    case AwaitingExit(_) => 2
    case Stopping(_) => 2
    case StoppingExit(_) => 1
    case AwaitingCancelled => 1
    case Draining => 1
    case Settled => 0
  }

  /** The end of whatever the command waits for. */
  predicate Ends(w: Watch, event: Event) {
    (Waits(w.phase) && event.Probe? && (event.last || !event.alive)) || (w.phase.Draining? && event.Drained?)
  }

  lemma TakeKeeps(w: Watch, event: Event)
    requires Inv(w)
    ensures Inv(Take(w, event))
    ensures w.phase.Settled? ==> Take(w, event) == w
    ensures w.settling ==> Take(w, event).settling && Remaining(Take(w, event)) <= Remaining(w)
    ensures Ends(w, event) ==> Remaining(Take(w, event)) < Remaining(w)
    ensures Take(w, event).sawEmpty <==> w.sawEmpty || (event.Probe? && !event.alive && Waits(w.phase))
  {
  }

  /** Event `k` probes the group for a command that waits for it, and finds it empty. */
  ghost predicate FoundEmpty(w: Watch, events: seq<Event>, k: nat)
    requires k < |events|
  {
    events[k].Probe? && !events[k].alive && Waits(Run(w, events[..k]).phase)
  }

  /**
   Every interleaving: at most one result, and a known, timed-out or cancelled one only after a probe made
   since the command was taken found the group empty.
   */
  lemma {:induction false} OneResult(events: seq<Event>)
    ensures var w := Run(NewWatch, events);
            && |w.delivered| <= 1 && (|w.delivered| == 1 <==> w.phase.Settled?)
            && (|w.delivered| == 1 && !w.delivered[0].OutcomeUnknown? ==>
                  w.sawEmpty && exists k :: 0 <= k < |events| && FoundEmpty(NewWatch, events, k))
  {
    RunKeeps(NewWatch, events);
    if Run(NewWatch, events).sawEmpty { SeenByProbe(NewWatch, events); }
  }

  lemma {:induction false} RunKeeps(w: Watch, events: seq<Event>)
    requires Inv(w)
    ensures Inv(Run(w, events)) && w.delivered <= Run(w, events).delivered
    decreases |events|
  {
    if events != [] {
      TakeKeeps(w, events[0]);
      RunKeeps(Take(w, events[0]), events[1..]);
    }
  }

  lemma {:induction false} SeenByProbe(w: Watch, events: seq<Event>)
    requires Inv(w) && !w.sawEmpty && Run(w, events).sawEmpty
    ensures exists k :: 0 <= k < |events| && FoundEmpty(w, events, k)
    decreases |events|
  {
    var u := Take(w, events[0]);
    TakeKeeps(w, events[0]);
    if u.sawEmpty {
      assert FoundEmpty(w, events, 0);
    } else {
      SeenByProbe(u, events[1..]);
      var k :| 0 <= k < |events| - 1 && FoundEmpty(u, events[1..], k);
      assert events[..k + 1][1..] == events[1..][..k] && events[..k + 1][0] == events[0];
      assert FoundEmpty(w, events, k + 1);
    }
  }

  /** How many of the events end what the command waits for when they arrive. */
  function Endings(w: Watch, events: seq<Event>): nat
    decreases |events|
  {
    if events == [] then 0 else (if Ends(w, events[0]) then 1 else 0) + Endings(Take(w, events[0]), events[1..])
  }

  /** A command that was claimed delivers its result after at most two waits or drains end, whatever else happens. */
  lemma {:induction false} ResultArrives(w: Watch, events: seq<Event>)
    requires Inv(w) && w.settling && Endings(w, events) >= Remaining(w)
    ensures |Run(w, events).delivered| == 1 && Remaining(w) <= 2
    decreases |events|
  {
    if w.phase.Settled? {
      RunKeeps(w, events);
    } else if events != [] {
      TakeKeeps(w, events[0]);
      ResultArrives(Take(w, events[0]), events[1..]);
    }
  }

  /**
   Who took the command decides the result: once claimed, later aborts, deadlines, errors and closes change
   nothing.
   */
  lemma FirstClaimHolds(w: Watch, event: Event)
    requires w.settling && !event.Probe? && !event.Drained?
    ensures Take(w, event) == w
  {
  }

  /** A result is unknown exactly when the child failed to run or the group was not seen to end. */
  lemma WhyUnknown(w: Watch, event: Event)
    requires Inv(w) && !w.phase.Settled? && Take(w, event).phase.Settled?
    ensures Take(w, event).delivered[0].OutcomeUnknown? <==>
      w.phase == Stopping(ByChildError) || (event.Probe? && event.alive)
  {
  }

  // Which result.

  predicate Claims(event: Event) {
    !event.Probe? && !event.Drained?
  }

  /** What the event that takes the command leads to, once the group was seen to end. */
  function Intended(event: Event): Outcome
    requires Claims(event)
  {
    match event
    case Abort(timedOut) => if timedOut then TimedOut else Cancelled
    case Deadline => TimedOut
    case ChildError => OutcomeUnknown
    case Close(code, signalled, aborted) => if signalled && aborted then Cancelled else Known(code)
  }

  /** The first of the racing events. */
  function FirstClaim(events: seq<Event>): (first: Option<Event>)
    ensures first.Some? ==> Claims(first.value) && first.value in events
  {
    if events == [] then None else if Claims(events[0]) then Some(events[0]) else FirstClaim(events[1..])
  }

  /** What a claimed command's phase still leads to. */
  ghost predicate LeadsTo(w: Watch, outcome: Outcome) {
    match w.phase
    case Watching => false
    case Stopping(ByAbort) => outcome == Cancelled
    case Stopping(ByDeadline) => outcome == TimedOut
    case Stopping(ByChildError) => outcome == OutcomeUnknown
    case AwaitingCancelled => outcome == Cancelled
    case AwaitingExit(code) => outcome == Known(code)
    case StoppingExit(code) => outcome == Known(code)
    case Draining => outcome == TimedOut
    case Settled => w.delivered == [outcome] || w.delivered == [OutcomeUnknown]
  }

  lemma StepLeadsOn(w: Watch, event: Event, outcome: Outcome)
    requires Inv(w) && LeadsTo(w, outcome)
    ensures LeadsTo(Take(w, event), outcome)
  {
  }

  lemma {:induction false} RunLeadsOn(w: Watch, events: seq<Event>, outcome: Outcome)
    requires Inv(w) && LeadsTo(w, outcome)
    ensures LeadsTo(Run(w, events), outcome)
    decreases |events|
  {
    if events != [] {
      TakeKeeps(w, events[0]);
      StepLeadsOn(w, events[0], outcome);
      RunLeadsOn(Take(w, events[0]), events[1..], outcome);
    }
  }

  /** The result is the one the first racing event stands for, or unknown; without such an event there is none. */
  lemma {:induction false} FirstEventDecides(events: seq<Event>)
    ensures var w, first := Run(NewWatch, events), FirstClaim(events);
            && (first == None ==> w == NewWatch)
            && (first.Some? && |w.delivered| == 1 ==>
              w.delivered[0] == Intended(first.value) || w.delivered[0] == OutcomeUnknown)
    decreases |events|
  {
    if events != [] {
      if Claims(events[0]) {
        TakeKeeps(NewWatch, events[0]);
        RunLeadsOn(Take(NewWatch, events[0]), events[1..], Intended(events[0]));
        RunKeeps(Take(NewWatch, events[0]), events[1..]);
      } else {
        FirstEventDecides(events[1..]);
      }
    }
  }
}
