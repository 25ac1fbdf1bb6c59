/** What holds of a peer in every run that does not abort. */
module PeerSafety {
  import opened Wrappers
  import opened PeerModel

  // ---- What the log says --------------------------------------------------------------

  /** Whether the handler was last told that the peering is up. */
  ghost predicate UpAtEnd(log: seq<Output>) {
    log != [] && (
      var o := log[|log| - 1];
      o == CameUp || (o != WentDown && UpAtEnd(log[..|log| - 1])))
  }

  /** The handler is told up and down in turns, and up first. */
  ghost predicate Alternates(log: seq<Output>) {
    forall i | 0 <= i < |log| ::
      (log[i] == CameUp ==> !UpAtEnd(log[..i])) && (log[i] == WentDown ==> UpAtEnd(log[..i]))
  }

  /** A NOTIFICATION was sent, and IDLE has not been entered since. */
  ghost predicate Notified(log: seq<Output>) {
    log != [] && (
      var o := log[|log| - 1];
      o == SentNotification || (o != EnteredIdle && Notified(log[..|log| - 1])))
  }

  ghost predicate IsTraffic(o: Output) {
    o == SentOpen || o == SentKeepalive || o == SentUpdate
  }

  /** Nothing but another NOTIFICATION follows a NOTIFICATION before IDLE. */
  ghost predicate NotificationIsLast(log: seq<Output>) {
    forall i | 0 <= i < |log| && IsTraffic(log[i]) :: !Notified(log[..i])
  }

  // ---- The invariant ------------------------------------------------------------------

  /** The log agrees with what the handler knows, and with whether traffic may still be sent. */
  ghost predicate LogOk(log: seq<Output>, up: bool, quiet: bool) {
    (UpAtEnd(log) <==> up) && (Notified(log) ==> quiet) && Alternates(log) && NotificationIsLast(log)
  }

  ghost predicate StateOk(p: Peer) {
    && (p.state == Established ==> p.handler.HandlerUp?)
    && (p.handler.HandlerUp? ==> p.state == Established || p.state == Stopped)
    && (p.stoppedTimer <==> p.state == Stopped)
  }

  ghost predicate Inv(p: Peer) {
    StateOk(p) && LogOk(p.log, p.handler.HandlerUp?, p.state == Stopped)
  }

  lemma InitInv()
    ensures Inv(INITIAL_PEER)
  {
  }

  lemma EmitOk(log: seq<Output>, o: Output, up: bool, quiet: bool)
    requires LogOk(log, up, quiet)
    requires o == CameUp ==> !up
    requires o == WentDown ==> up
    requires IsTraffic(o) ==> !quiet
    ensures LogOk(log + [o], if o == CameUp then true else if o == WentDown then false else up,
                  if o == SentNotification then true else if o == EnteredIdle then false else quiet)
  {
    var l := log + [o];
    assert l[..|log|] == log;
    forall i | 0 <= i < |l|
      ensures (l[i] == CameUp ==> !UpAtEnd(l[..i])) && (l[i] == WentDown ==> UpAtEnd(l[..i]))
      ensures IsTraffic(l[i]) ==> !Notified(l[..i])
    {
      if i < |log| { assert l[..i] == log[..i] && l[i] == log[i]; }
    }
  }

  // ---- Every step keeps it ------------------------------------------------------------

  lemma ToIdleKeeps(p: Peer, restart: bool, automatic: bool)
    requires Inv(p)
    ensures Inv(ToIdle(p, restart, automatic))
    ensures ToIdle(p, restart, automatic).state == Idle || ToIdle(p, restart, automatic).state == Connect
    ensures !restart ==> ToIdle(p, restart, automatic).state == Idle
  {
    if p.state != Idle {
      EmitOk(p.log, EnteredIdle, p.handler.HandlerUp?, p.state == Stopped);
      if p.handler.HandlerUp? { EmitOk(p.log + [EnteredIdle], WentDown, true, false); }
    }
  }

  /** The handler is there when it is needed, so stopping never aborts. */
  lemma NotifyKeeps(p: Peer)
    requires Inv(p)
    ensures Notify(p).Next? && Inv(Notify(p).value) && Notify(p).value.state == Stopped
  {
    EmitOk(p.log, SentNotification, p.handler.HandlerUp?, p.state == Stopped);
  }

  lemma TrafficKeeps(p: Peer, o: Output)
    requires Inv(p) && p.state != Stopped && IsTraffic(o)
    ensures Inv(Emit(p, o))
  {
    EmitOk(p.log, o, p.handler.HandlerUp?, false);
  }

  /** Moving between states in which the peering is down. */
  lemma EnterKeeps(p: Peer, s: State)
    requires Inv(p) && p.state != Stopped && p.state != Established && s != Stopped && s != Established
    ensures Inv(Enter(p, s))
  {
  }

  lemma ToEstablishedKeeps(p: Peer)
    requires Inv(p) && p.state != Stopped
    ensures Inv(ToEstablished(p))
  {
    if p.state != Established {
      EmitOk(p.log, CameUp, false, false);
    }
  }

  lemma StartKeeps(p: Peer)
    requires Inv(p)
    ensures Inv(EventStart(p))
  {
    if p.state == Stopped {
      ToIdleKeeps(p, false, true);
    }
  }

  lemma NotifyErrorKeeps(p: Peer, connected: bool)
    requires Inv(p)
    ensures NotifyError(p, connected).Next? && Inv(NotifyError(p, connected).value)
  {
    NotifyKeeps(p);
    ToIdleKeeps(p, true, true);
  }

  lemma OpenMessageKeeps(p: Peer, acceptable: bool, connected: bool)
    requires Inv(p)
    ensures EventOpenMessage(p, acceptable, connected).Next? && Inv(EventOpenMessage(p, acceptable, connected).value)
  {
    if p.state == Connect || p.state == Active || p.state == OpenSent {
      TrafficKeeps(p, SentOpen);
      var q := if p.state == OpenSent then p else Emit(p, SentOpen);
      if acceptable {
        TrafficKeeps(q, SentKeepalive);
      } else {
        NotifyErrorKeeps(q, connected);
      }
    } else {
      NotifyErrorKeeps(p, connected);
    }
  }

  lemma OpenKeeps(p: Peer, delayed: bool)
    requires Inv(p)
    ensures EventOpen(p, delayed).Next? ==> Inv(EventOpen(p, delayed).value)
  {
    if p.state == Connect || p.state == Active {
      TrafficKeeps(p, SentOpen);
      EnterKeeps(Emit(p, SentOpen), OpenSent);
    }
  }

  lemma DelayOpenKeeps(p: Peer)
    requires Inv(p)
    ensures EventDelayOpen(p).Next? && Inv(EventDelayOpen(p).value)
  {
    if p.state == Connect || p.state == Active || p.state == OpenConfirm {
      TrafficKeeps(p, SentOpen);
      EnterKeeps(Emit(p, SentOpen), OpenSent);
    } else {
      NotifyKeeps(p);
    }
  }

  lemma StoppedTimerKeeps(p: Peer)
    requires Inv(p) && p.state == Stopped
    ensures EventStoppedTimer(p) == Next(ToIdle(p, true, true))
  {
  }

  lemma TransportStepKeeps(p: Peer, e: Event)
    requires Inv(p) && Step(p, e).Next?
    requires e.Start? || e.Stop? || e.TransportOpen? || e.TransportClosed? || e.OpenFailed? || e.TransportFatal? ||
             e.SwapSockets?
    ensures Inv(Step(p, e).value)
  {
    match e
    case Start => StartKeeps(p);
    case Stop(restart, automatic) => NotifyKeeps(p); ToIdleKeeps(p, restart, automatic);
    case TransportOpen(delayed) => OpenKeeps(p, delayed);
    case TransportClosed => ToIdleKeeps(p, true, true);
    case OpenFailed(delayed) => ToIdleKeeps(p, false, true);
    case TransportFatal => ToIdleKeeps(p, true, true);
    case SwapSockets(delayed) =>
      if p.state != Established && p.state != Stopped { OpenKeeps(Enter(p, Active), delayed); }
  }

  lemma TimerStepKeeps(p: Peer, e: Event)
    requires Inv(p) && Step(p, e).Next?
    requires e.ConnectRetryExpired? || e.HoldExpired? || e.KeepaliveExpired? || e.DelayOpenExpired? ||
             e.IdleHoldExpired? || e.StoppedExpired?
    ensures Inv(Step(p, e).value)
  {
    match e
    case ConnectRetryExpired => NotifyKeeps(p);
    case HoldExpired => NotifyKeeps(p); ToIdleKeeps(p, true, true);
    case KeepaliveExpired => if p.state != Stopped { TrafficKeeps(p, SentKeepalive); }
    case DelayOpenExpired => DelayOpenKeeps(p);
    case IdleHoldExpired => StartKeeps(p);
    case StoppedExpired => StoppedTimerKeeps(p); ToIdleKeeps(p, true, true);
  }

  lemma MessageStepKeeps(p: Peer, e: Event)
    requires Inv(p) && Step(p, e).Next?
    requires e.ReceivedOpen? || e.ReceivedKeepalive? || e.ReceivedUpdate? || e.ReceivedNotification? || e.ErrorFound? ||
             e.NotificationSent? || e.NotificationFailed? || e.SendUpdate?
    ensures Inv(Step(p, e).value)
  {
    match e
    case ReceivedOpen(acceptable, connected) => OpenMessageKeeps(p, acceptable, connected);
    case ReceivedKeepalive => NotifyKeeps(p); if p.state != Stopped { ToEstablishedKeeps(p); }
    case ReceivedUpdate(overLimit) => NotifyKeeps(p);
    case ReceivedNotification => ToIdleKeeps(p, true, true);
    case ErrorFound(connected) => NotifyErrorKeeps(p, connected);
    case NotificationSent(restart) => ToIdleKeeps(p, restart, true);
    case NotificationFailed(restart, automatic) => ToIdleKeeps(p, restart, automatic);
    case SendUpdate => if p.state == Established { TrafficKeeps(p, SentUpdate); }
  }

  lemma StepKeepsInv(p: Peer, e: Event)
    requires Inv(p) && Step(p, e).Next?
    ensures Inv(Step(p, e).value)
  {
    if e.Start? || e.Stop? || e.TransportOpen? || e.TransportClosed? || e.OpenFailed? || e.TransportFatal? ||
       e.SwapSockets? {
      TransportStepKeeps(p, e);
    } else if e.ConnectRetryExpired? || e.HoldExpired? || e.KeepaliveExpired? || e.DelayOpenExpired? ||
              e.IdleHoldExpired? || e.StoppedExpired? {
      TimerStepKeeps(p, e);
    } else {
      MessageStepKeeps(p, e);
    }
  }

  // ---- Runs ---------------------------------------------------------------------------

  lemma {:induction false} RunKeepsInv(p: Peer, es: seq<Event>)
    requires Inv(p) && Run(p, es).Next?
    ensures Inv(Run(p, es).value)
    decreases |es|
  {
    if es != [] {
      StepKeepsInv(p, es[0]);
      RunKeepsInv(Step(p, es[0]).value, es[1..]);
    }
  }

  /** In every run the handler is told up and down in turns; it is up in ESTABLISHED, and up only
      in ESTABLISHED or STOPPED. */
  lemma PeeringAlternates(es: seq<Event>)
    requires Run(INITIAL_PEER, es).Next?
    ensures var p := Run(INITIAL_PEER, es).value;
            && Alternates(p.log)
            && (p.handler.HandlerUp? <==> UpAtEnd(p.log))
            && (p.state == Established ==> p.handler.HandlerUp?)
            && (p.handler.HandlerUp? ==> p.state == Established || p.state == Stopped)
  {
    InitInv();
    RunKeepsInv(INITIAL_PEER, es);
  }

  /** In every run a NOTIFICATION is the last message until the peer has been in IDLE, and the stopped
      timer runs exactly in STOPPED. */
  lemma NotificationIsFinal(es: seq<Event>)
    requires Run(INITIAL_PEER, es).Next?
    ensures var p := Run(INITIAL_PEER, es).value;
            && NotificationIsLast(p.log)
            && (Notified(p.log) ==> p.state == Stopped)
            && (p.stoppedTimer <==> p.state == Stopped)
  {
    InitInv();
    RunKeepsInv(INITIAL_PEER, es);
  }

  /** In no run can any of these abort: the stopped timer while it runs, a NOTIFICATION, an UPDATE
      in any state, an OPEN in any state. */
  lemma NeverAborts(es: seq<Event>, e: Event)
    requires Run(INITIAL_PEER, es).Next?
    requires e.Start? || e.Stop? || e.TransportClosed? || e.TransportFatal? || e.ConnectRetryExpired? ||
             e.HoldExpired? || e.DelayOpenExpired? || e.ReceivedOpen? || e.ReceivedUpdate? || e.ErrorFound? ||
             (e.StoppedExpired? && Run(INITIAL_PEER, es).value.stoppedTimer)
    ensures Step(Run(INITIAL_PEER, es).value, e).Next?
  {
    InitInv();
    RunKeepsInv(INITIAL_PEER, es);
    var p := Run(INITIAL_PEER, es).value;
    NotifyKeeps(p);
    if e.ReceivedOpen? { OpenMessageKeeps(p, e.acceptable, e.connected); }
  }
}
