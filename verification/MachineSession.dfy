/** The daemon's session as an object over its multiplexer; every handler updates both in place. */
module MachineSession {
  import opened Text
  import opened Multiplexer
  import opened FrameMultiplexer
  import opened Daemon
  import opened DaemonRuns

  class MachineSession<J> {
    const config: Config<J>
    const mux: FrameMultiplexer<J>
    var helloed: bool
    var ended: Option<EndReason>
    var running: map<nat, bool>
    ghost var started: set<nat>
    ghost var keepers: set<nat>

    ghost function State(): Session<J>
      reads this, mux
    {
      Session(mux.State(), helloed, ended, running, started, keepers)
    }

    ghost predicate Valid()
      reads this, mux
    {
      mux.Valid() && mux.accepts
    }

    constructor (config: Config<J>, capError: J)
      ensures Valid() && State() == NewSession(capError) && this.config == config && fresh(mux)
    {
      this.config := config;
      mux := new FrameMultiplexer(true, MAX_CONCURRENT_STREAMS, capError);
      helloed, ended, running := false, None, map[];
      started, keepers := {}, {};
    }

    /** Writes a frame; one over the byte bound refuses its stream instead. */
    method WriteFrame(sid: nat, message: Message<J>, fits: bool)
      requires Valid()
      modifies mux
      ensures Valid() && State() == old(State()).(mux := Written(old(mux.State()), sid, message, fits, config.tooLarge))
    {
      if fits { mux.SendValid(sid, message); } else { mux.RefuseStream(sid, config.tooLarge); }
    }

    method Respond(sid: nat, build: Id -> Message<J>, fits: bool)
      requires Valid()
      modifies mux
      ensures Valid() && State() == old(State()).(mux := Reply(old(mux.State()), sid, build, fits, config.tooLarge))
    {
      hide Mux.SendOnStream, Mux.RefuseStream;
      var st := mux.Get(sid);
      if st == None || st.value.replyId == None { return; }
      if sid == CONTROL_STREAM_ID { mux.ClearReply(); }
      WriteFrame(sid, build(st.value.replyId.value), fits);
    }

    method Refuse(sid: nat, error: J, fits: bool)
      requires Valid()
      modifies mux
      ensures Valid() && State() == old(State()).(mux := RefuseOn(old(mux.State()), sid, error, fits, config.tooLarge))
    {
      hide Reply, Mux.CloseStream;
      Respond(sid, FailureOf(error), fits);
      mux.CloseOwn(sid);
    }

    /** Ends the session once; a later reason changes nothing. */
    method Stop(reason: EndReason)
      requires Valid()
      modifies this, mux
      ensures Valid() && State() == EndWith(old(State()), reason)
    {
      hide Mux.CloseSession;
      if ended.Some? { return; }
      ended := Some(reason);
      mux.Close();
    }

    method HandleHello(params: Option<J>, fits: bool)
      requires Valid()
      modifies this, mux
      ensures Valid() && State() == Hello(config, old(State()), params, fits)
    {
      hide Reply, RefuseOn, Mux.CloseSession;
      var version := config.readVersion(params);
      if version == None {
        Refuse(CONTROL_STREAM_ID, config.badParams, fits);
        return;
      }
      if version.value != PROTOCOL_VERSION {
        Respond(CONTROL_STREAM_ID, FailureOf(config.incompatible), fits);
        Stop(IncompatibleVersion);
        return;
      }
      helloed := true;
      Respond(CONTROL_STREAM_ID, SuccessOf(config.hello), fits);
    }

    method RunOperation(sid: nat, name: string, params: Option<J>, fits: bool)
      requires Valid()
      modifies this, mux
      ensures Valid() && State() == Daemon.RunOperation(config, old(State()), sid, name, params, fits)
    {
      hide RefuseOn;
      var budget := config.readBudget(params);
      if budget == None {
        Refuse(sid, config.badParams, fits);
      } else if budget.value <= 0 {
        Refuse(sid, config.exhausted, fits);
      } else {
        running := running[sid := config.keepsOpen(name)];
        started, keepers := started + {sid}, if config.keepsOpen(name) then keepers + {sid} else keepers;
      }
    }

    method HandleRequest(sid: nat, name: string, params: Option<J>, fits: bool)
      requires Valid()
      modifies this, mux
      ensures Valid() && State() == Daemon.HandleRequest(config, old(State()), sid, name, params, fits)
    {
      hide RefuseOn, Hello, Daemon.RunOperation;
      if sid == CONTROL_STREAM_ID {
        HandleHello(params, fits);
      } else if !helloed {
        Refuse(sid, config.noHandshake, fits);
      } else if !config.isOperation(name) {
        Refuse(sid, config.unknownMethod, fits);
      } else {
        RunOperation(sid, name, params, fits);
      }
    }

    method HandleFramerEvent(input: Input<J>, fits: bool)
      requires Valid()
      modifies this, mux
      ensures Valid() && State() == HandleLine(config, old(State()), input, fits)
    {
      hide Daemon.HandleRequest, Mux.HandleFrame, Mux.RefuseStream, EndWith;
      match input
      case OversizeLine => Stop(ProtocolError);
      case Undecoded(named) => if named.Some? { mux.RefuseStream(named.value, config.badFrame); }
      case Decoded(frame) =>
        var delivery := mux.Handle(frame);
        if delivery.Handled? && delivery.request.Request? {
          HandleRequest(delivery.stream, delivery.request.name, delivery.request.params, fits);
        }
    }

    /** An operation's promise settles: its answer, and the end of a stream that is not kept. */
    method Finish(sid: nat, ending: Ending<J>, expired: bool, fits: bool)
      requires Valid()
      modifies this, mux
      ensures Valid() && State() == FinishOperation(config, old(State()), sid, ending, expired, fits)
    {
      hide Reply, RefuseOn, Mux.CloseStream;
      if sid !in running { return; }
      var keeps := running[sid];
      running := running - {sid};
      if expired {
        Refuse(sid, config.exhausted, fits);
      } else if ending.Threw? {
        Refuse(sid, ending.error, fits);
      } else {
        Respond(sid, SuccessOf(ending.value), fits);
      }
      if !keeps { mux.CloseOwn(sid); }
    }

    /** One event of the session's run. */
    method Take(event: Event<J>)
      requires Valid()
      modifies this, mux
      ensures Valid() && State() == Happens(config, old(State()), event)
      ensures SessionInv(old(State())) ==> SessionInv(State()) && Gated(config, old(State()), State(), event)
    {
      hide HandleLine, FinishOperation, Written, EndWith, Mux.CloseStream, SessionInv, Gated;
      ghost var before := State();
      match event {
        case Line(input, fits) => HandleFramerEvent(input, fits);
        case Finished(sid, ending, expired, fits) => Finish(sid, ending, expired, fits);
        case Says(sid, name, params, fits) => WriteFrame(sid, Notification(name, params), fits);
        case Closes(sid) => mux.CloseOwn(sid);
        case Ends(reason) => Stop(reason);
      }
      if SessionInv(before) {
        EventKeeps(config, before, event);
      }
    }
  }
}
