/**
 The one result of a watched command, read off what happened to it: which event took it, how its waits for
 the group ended, and whether its last output was read.
 */
module WatchVerdict {
  import opened Text
  import opened Watcher

  /** What can bring a taken command on: a wait that found the group empty, one that ran out, or the output read. */
  datatype Turn = Empty | Spent | Read

  function TurnOf(event: Event): Option<Turn> {
    match event
    case Probe(alive, last) => if !alive then Some(Empty) else if last then Some(Spent) else None
    case Drained => Some(Read)
    case _ => None
  }

  function TurnsOf(events: seq<Event>): seq<Turn>
    decreases |events|
  {
    if events == [] then []
    else
      var rest := TurnsOf(events[1..]);
      match TurnOf(events[0]) case Some(turn) => [turn] + rest case None => rest
  }

  /** The first wait decides: this result if it found the group empty, and else an unknown one. */
  function OneWait(turns: seq<Turn>, result: Outcome): Option<Outcome> {
    if turns == [] then None
    else match turns[0]
         case Empty => Some(result)
         case Spent => Some(OutcomeUnknown)
         case Read => OneWait(turns[1..], result)
  }

  /** If the first wait runs out the command is killed, and a second one decides. */
  function TwoWaits(turns: seq<Turn>, result: Outcome): Option<Outcome> {
    if turns == [] then None
    else match turns[0]
         case Empty => Some(result)
         case Spent => OneWait(turns[1..], result)
         case Read => TwoWaits(turns[1..], result)
  }

  /** After a wait that found the group empty, the result comes when the output is read. */
  function WaitThenRead(turns: seq<Turn>, result: Outcome): Option<Outcome> {
    if turns == [] then None
    else match turns[0]
         case Empty => if Read in turns[1..] then Some(result) else None
         case Spent => Some(OutcomeUnknown)
         case Read => WaitThenRead(turns[1..], result)
  }

  /** What becomes of a command that this event took. */
  function Verdict(taker: Event, turns: seq<Turn>): Option<Outcome>
    requires Claims(taker)
  {
    match taker
    case Abort(timedOut) => if timedOut then WaitThenRead(turns, TimedOut) else OneWait(turns, Cancelled)
    case Deadline => WaitThenRead(turns, TimedOut)
    case ChildError => OneWait(turns, OutcomeUnknown)
    case Close(code, signalled, aborted) =>
      if signalled && aborted then OneWait(turns, Cancelled) else TwoWaits(turns, Known(code))
  }

  function Delivered(verdict: Option<Outcome>): seq<Outcome> {
    if verdict.Some? then [verdict.value] else []
  }

  /** What a phase still comes to. */
  function Pending(phase: Phase, turns: seq<Turn>): Option<Outcome>
    requires phase != Watching && phase != Settled
  {
    match phase
    case Stopping(ByAbort) => OneWait(turns, Cancelled)
    case Stopping(ByDeadline) => WaitThenRead(turns, TimedOut)
    case Stopping(ByChildError) => OneWait(turns, OutcomeUnknown)
    case AwaitingCancelled => OneWait(turns, Cancelled)
    case AwaitingExit(code) => TwoWaits(turns, Known(code))
    case StoppingExit(code) => OneWait(turns, Known(code))
    case Draining => if Read in turns then Some(TimedOut) else None
  }

  lemma {:induction false} PendingIsDelivered(w: Watch, events: seq<Event>)
    requires Inv(w) && w.settling && !w.phase.Settled?
    ensures Run(w, events).delivered == Delivered(Pending(w.phase, TurnsOf(events)))
    decreases |events|
  {
    if events != [] {
      var u := Take(w, events[0]);
      TakeKeeps(w, events[0]);
      TurnTaken(w, events[0], events[1..]);
      if u.phase.Settled? {
        RunKeeps(u, events[1..]);
      } else {
        PendingIsDelivered(u, events[1..]);
      }
    }
  }

  lemma TurnTaken(w: Watch, event: Event, rest: seq<Event>)
    requires Inv(w) && w.settling && !w.phase.Settled?
    ensures var u := Take(w, event);
            var turns := TurnsOf([event] + rest);
            Delivered(Pending(w.phase, turns))
              == if u.phase.Settled? then u.delivered else Delivered(Pending(u.phase, TurnsOf(rest)))
  {
    assert ([event] + rest)[1..] == rest;
    var later := TurnsOf(rest);
    match TurnOf(event)
    case None =>
    case Some(turn) =>
      var turns := [turn] + later;
      assert turns[0] == turn && turns[1..] == later;
  }

  /** Nothing is delivered before an event takes the command; then the verdict is, once its turns have come. */
  lemma {:induction false} WhichResult(before: seq<Event>, taker: Event, after: seq<Event>)
    requires Claims(taker) && forall k :: 0 <= k < |before| ==> !Claims(before[k])
    ensures Run(NewWatch, before).delivered == []
    ensures Run(NewWatch, before + [taker] + after).delivered == Delivered(Verdict(taker, TurnsOf(after)))
    decreases |before|
  {
    var events := before + [taker] + after;
    if before == [] {
      assert events[0] == taker && events[1..] == after;
      TakeKeeps(NewWatch, taker);
      PendingIsDelivered(Take(NewWatch, taker), after);
    } else {
      assert events[0] == before[0] && events[1..] == before[1..] + [taker] + after;
      WhichResult(before[1..], taker, after);
    }
  }
}
