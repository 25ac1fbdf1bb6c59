/** The peer object, whose event handlers change its state in place and call each other. */
module BgpPeer {
  import opened Wrappers
  import opened PeerModel
  import opened PeerSafety

  /** A state that some run from the start leads to, of which all that holds of runs is true. */
  ghost predicate Reachable(p: Peer) {
    exists es :: Run(INITIAL_PEER, es) == Next(p)
  }

  lemma {:induction false} RunThen(p: Peer, es: seq<Event>, e: Event)
    requires Run(p, es).Next?
    ensures Run(p, es + [e]) == Step(Run(p, es).value, e)
    decreases |es|
  {
    if es == [] {
      assert es + [e] == [e] && [e][1..] == [];
    } else {
      assert (es + [e])[0] == es[0] && (es + [e])[1..] == es[1..] + [e];
      RunThen(Step(p, es[0]).value, es[1..], e);
    }
  }

  lemma Keeps(p: Peer, e: Event)
    ensures Reachable(p) && Step(p, e).Next? ==> Reachable(Step(p, e).value)
  {
    if Reachable(p) && Step(p, e).Next? {
      var es :| Run(INITIAL_PEER, es) == Next(p);
      RunThen(INITIAL_PEER, es, e);
      assert Run(INITIAL_PEER, es + [e]) == Next(Step(p, e).value);
    }
  }

  lemma StartReachable()
    ensures Reachable(INITIAL_PEER)
  {
    assert Run(INITIAL_PEER, []) == Next(INITIAL_PEER);
  }

  /** So the object keeps what runs do. */
  lemma ReachableIsSafe(p: Peer)
    requires Reachable(p)
    ensures Inv(p) && Alternates(p.log) && NotificationIsLast(p.log) && (p.stoppedTimer <==> p.state == Stopped)
  {
    var es :| Run(INITIAL_PEER, es) == Next(p);
    InitInv();
    RunKeepsInv(INITIAL_PEER, es);
  }

  class BgpPeer {
    var state: State
    var handler: Handler
    var stoppedTimer: bool
    /** What was sent and done. */
    ghost var log: seq<Output>

    constructor ()
      ensures View() == INITIAL_PEER && Valid()
    {
      state, handler, stoppedTimer, log := Idle, NoHandler, false, [];
      StartReachable();
    }

    ghost function View(): Peer
      reads this
    {
      Peer(state, handler, stoppedTimer, log)
    }

    /** Every event keeps the object within the runs of the model. */
    ghost predicate Valid()
      reads this
    {
      Reachable(View())
    }

    ghost predicate Follows(aborted: bool, o: Outcome<Peer>)
      reads this
    {
      aborted == o.Abort? && (!aborted ==> View() == o.value)
    }

    ghost method Output(o: PeerModel.Output)
      modifies `log
      ensures View() == Emit(old(View()), o)
    {
      log := log + [o];
    }

    method ReleaseResources()
      modifies this
      ensures View() == PeerModel.ReleaseResources(old(View()))
    {
      if handler.HandlerUp? {
        handler := HandlerDown;
        Output(WentDown);
      }
    }

    method Established()
      modifies this
      ensures View() == Emit(old(View()).(handler := HandlerUp), CameUp)
    {
      handler := HandlerUp;
      Output(CameUp);
    }

    /** What set_state establishes. A state that is neither IDLE, STOPPED nor ESTABLISHED is only
        entered. */
    static ghost function SetStateSpec(p: Peer, s: State, restart: bool, automatic: bool): Outcome<Peer> {
      match s
      case Idle => Next(ToIdle(p, restart, automatic))
      case Stopped => ToStopped(p)
      case Established => Next(ToEstablished(p))
      case _ => Next(Enter(p, s))
    }

    /** set_state, which starts the peer again when it is to restart at once. */
    method SetState(s: State, restart: bool := true, automatic: bool := true) returns (aborted: bool)
      modifies this
      ensures Follows(aborted, SetStateSpec(old(View()), s, restart, automatic))
      decreases if s == Idle && restart && !automatic then 2 else 0
    {
      var previous := state;
      state := s;
      if previous == Stopped && state != Stopped { stoppedTimer := false; }
      aborted := false;
      match s {
        case Idle =>
          if previous != Idle {
            stoppedTimer := false;
            Output(EnteredIdle);
            ReleaseResources();
            if restart && !automatic { EventStart(); }
          }
        case Stopped =>
          if previous != Stopped { stoppedTimer := true; }
          if previous == PeerModel.State.Established && handler.NoHandler? { return true; }
        case Established =>
          if previous != PeerModel.State.Established { Established(); }
        case _ =>
      }
    }

    method EventStart()
      modifies this
      ensures View() == PeerModel.EventStart(old(View()))
      ensures old(Valid()) ==> Valid()
      decreases 1
    {
      Keeps(View(), Start);
      if state == Stopped {
        var _ := SetState(Idle, false);
      }
      if state == Idle {
        var _ := SetState(Connect);
      }
    }

    method SendNotification() returns (aborted: bool)
      modifies this
      ensures Follows(aborted, Notify(old(View())))
    {
      Output(SentNotification);
      aborted := SetState(Stopped);
    }

    method EventStop(restart: bool, automatic: bool) returns (aborted: bool)
      modifies this
      ensures Follows(aborted, PeerModel.EventStop(old(View()), restart, automatic))
      ensures old(Valid()) && !aborted ==> Valid()
    {
      Keeps(View(), Stop(restart, automatic));
      match state {
        case Idle => aborted := false;
        case Connect => aborted := SetState(Idle, restart, automatic);
        case Active => aborted := SetState(Idle, restart, automatic);
        case OpenSent => aborted := SendNotification();
        case OpenConfirm => aborted := SendNotification();
        case Established => aborted := SendNotification();
        case Stopped => aborted := SetState(Idle, restart, automatic);
      }
    }

    method EventOpen(delayed: bool) returns (aborted: bool)
      modifies this
      ensures Follows(aborted, PeerModel.EventOpen(old(View()), delayed))
      ensures old(Valid()) && !aborted ==> Valid()
    {
      Keeps(View(), TransportOpen(delayed));
      if state != Connect && state != Active { return true; }
      if delayed { return false; }
      Output(SentOpen);
      aborted := SetState(OpenSent);
    }

    method EventClosed()
      modifies this
      ensures View() == PeerModel.EventClosed(old(View()))
      ensures old(Valid()) ==> Valid()
    {
      Keeps(View(), TransportClosed);
      match state {
        case Idle =>
        case Connect => var _ := SetState(Idle);
        case Active => var _ := SetState(Idle);
        case OpenSent => var _ := SetState(Active);
        case OpenConfirm => var _ := SetState(Idle);
        case Established => var _ := SetState(Idle);
        case Stopped => var _ := SetState(Idle);
      }
    }

    method EventOpenFail(delayed: bool) returns (aborted: bool)
      modifies this
      ensures Follows(aborted, PeerModel.EventOpenFail(old(View()), delayed))
      ensures old(Valid()) && !aborted ==> Valid()
    {
      Keeps(View(), OpenFailed(delayed));
      if state != Connect { return true; }
      if !delayed { var _ := SetState(Idle, false); }
      aborted := SetState(Active);
    }

    method EventTransportFatal()
      modifies this
      ensures View() == PeerModel.EventTransportFatal(old(View()))
      ensures old(Valid()) ==> Valid()
    {
      Keeps(View(), TransportFatal);
      if state != Idle { var _ := SetState(Idle); }
    }

    method EventConnectRetry() returns (aborted: bool)
      modifies this
      ensures Follows(aborted, PeerModel.EventConnectRetry(old(View())))
      ensures old(Valid()) && !aborted ==> Valid()
    {
      Keeps(View(), ConnectRetryExpired);
      match state {
        case Idle => aborted := false;
        case Stopped => aborted := false;
        case Connect => aborted := false;
        case Active => aborted := SetState(Connect);
        case OpenSent => aborted := SendNotification();
        case OpenConfirm => aborted := SendNotification();
        case Established => aborted := SendNotification();
      }
    }

    method EventHold() returns (aborted: bool)
      modifies this
      ensures Follows(aborted, PeerModel.EventHold(old(View())))
      ensures old(Valid()) && !aborted ==> Valid()
    {
      Keeps(View(), HoldExpired);
      match state {
        case Idle => aborted := false;
        case Stopped => aborted := false;
        case Connect => aborted := SetState(Idle);
        case Active => aborted := SetState(Idle);
        case OpenSent => aborted := SendNotification();
        case OpenConfirm => aborted := SendNotification();
        case Established => aborted := SendNotification();
      }
    }

    method EventKeepalive() returns (aborted: bool)
      modifies this
      ensures Follows(aborted, PeerModel.EventKeepalive(old(View())))
      ensures old(Valid()) && !aborted ==> Valid()
    {
      Keeps(View(), KeepaliveExpired);
      if state != OpenConfirm && state != PeerModel.State.Established { return true; }
      Output(SentKeepalive);
      aborted := false;
    }

    method EventDelayOpen() returns (aborted: bool)
      modifies this
      ensures Follows(aborted, PeerModel.EventDelayOpen(old(View())))
      ensures old(Valid()) && !aborted ==> Valid()
    {
      Keeps(View(), DelayOpenExpired);
      if state == Connect || state == Active || state == OpenConfirm {
        Output(SentOpen);
        aborted := SetState(OpenSent);
      } else {
        aborted := SendNotification();
      }
    }

    method EventIdleHold() returns (aborted: bool)
      modifies this
      ensures Follows(aborted, PeerModel.EventIdleHold(old(View())))
      ensures old(Valid()) && !aborted ==> Valid()
    {
      Keeps(View(), IdleHoldExpired);
      if state != Idle { return true; }
      EventStart();
      aborted := false;
    }

    method EventStoppedTimer() returns (aborted: bool)
      modifies this
      ensures Follows(aborted, PeerModel.EventStoppedTimer(old(View())))
      ensures old(Valid()) && !aborted ==> Valid()
    {
      Keeps(View(), StoppedExpired);
      if state != Stopped { return true; }
      stoppedTimer := false;
      aborted := SetState(Idle);
    }

    method NotifyPeerOfError(connected: bool) returns (aborted: bool)
      modifies this
      ensures Follows(aborted, NotifyError(old(View()), connected))
      ensures old(Valid()) && !aborted ==> Valid()
    {
      Keeps(View(), ErrorFound(connected));
      if connected {
        aborted := SendNotification();
        return;
      }
      EventTransportFatal();
      aborted := false;
    }

    method EventOpenMessage(acceptable: bool, connected: bool) returns (aborted: bool)
      modifies this
      ensures Follows(aborted, PeerModel.EventOpenMessage(old(View()), acceptable, connected))
      ensures old(Valid()) && !aborted ==> Valid()
    {
      Keeps(View(), ReceivedOpen(acceptable, connected));
      if state == Stopped { return false; }
      if state != Connect && state != Active && state != OpenSent {
        aborted := NotifyPeerOfError(connected);
        return;
      }
      if state != OpenSent { Output(SentOpen); }
      if !acceptable {
        aborted := NotifyPeerOfError(connected);
        return;
      }
      Output(SentKeepalive);
      stoppedTimer := false;
      aborted := SetState(OpenConfirm);
    }

    method EventKeepaliveMessage() returns (aborted: bool)
      modifies this
      ensures Follows(aborted, PeerModel.EventKeepaliveMessage(old(View())))
      ensures old(Valid()) && !aborted ==> Valid()
    {
      Keeps(View(), ReceivedKeepalive);
      match state {
        case Idle => aborted := true;
        case Connect => aborted := true;
        case Active => aborted := true;
        case Stopped => aborted := false;
        case OpenSent => aborted := SendNotification();
        case OpenConfirm => aborted := SetState(PeerModel.State.Established);
        case Established => aborted := false;
      }
    }

    method EventUpdate(overLimit: bool) returns (aborted: bool)
      modifies this
      ensures Follows(aborted, PeerModel.EventUpdate(old(View()), overLimit))
      ensures old(Valid()) && !aborted ==> Valid()
    {
      Keeps(View(), ReceivedUpdate(overLimit));
      if state == Stopped { return false; }
      if state != PeerModel.State.Established {
        aborted := SendNotification();
        return;
      }
      if handler.NoHandler? { return true; }
      if overLimit {
        aborted := SendNotification();
        return;
      }
      aborted := false;
    }

    method EventNotification() returns (aborted: bool)
      modifies this
      ensures Follows(aborted, PeerModel.EventNotification(old(View())))
      ensures old(Valid()) && !aborted ==> Valid()
    {
      Keeps(View(), ReceivedNotification);
      if state == Idle { return true; }
      if state == Stopped { return false; }
      aborted := SetState(Idle);
    }

    method SendNotificationComplete(restart: bool, automatic: bool) returns (aborted: bool)
      modifies this
      ensures Follows(aborted, EventNotified(old(View()), restart, automatic))
      ensures old(Valid()) && !aborted ==> Valid()
    {
      Keeps(View(), NotificationFailed(restart, automatic));
      if state != Stopped { return true; }
      aborted := SetState(Idle, restart, automatic);
    }

    method SwapSockets(delayed: bool) returns (aborted: bool)
      modifies this
      ensures Follows(aborted, EventSwapSockets(old(View()), delayed))
      ensures old(Valid()) && !aborted ==> Valid()
    {
      Keeps(View(), PeerModel.SwapSockets(delayed));
      if state != Active && state != Connect && state != OpenSent && state != OpenConfirm { return true; }
      aborted := SetState(Active);
      aborted := EventOpen(delayed);
    }

    method SendUpdateMessage() returns (aborted: bool)
      modifies this
      ensures Follows(aborted, EventSendUpdate(old(View())))
      ensures old(Valid()) && !aborted ==> Valid()
    {
      Keeps(View(), SendUpdate);
      if state != PeerModel.State.Established { return true; }
      Output(SentUpdate);
      aborted := false;
    }
  }
}
