/** The callback of a NOTIFICATION under way: it finds the peer in STOPPED, so its assertion holds. */
module PeerNotification {
  import opened Wrappers
  import opened PeerModel

  /** An event, and whether the transport takes a NOTIFICATION that it leads to. */
  datatype Occurrence = Occurrence(event: Event, accepted: bool)

  /** What a step adds to the log. */
  function Fresh(p: Peer, q: Peer): seq<Output>
    requires |p.log| <= |q.log|
  {
    q.log[|p.log|..]
  }

  predicate IsCallback(e: Event) {
    e.NotificationSent? || e.NotificationFailed?
  }

  /** event_start, event_stop, event_closed and event_tranfatal flush the transmit queue in STOPPED. */
  predicate Flushes(p: Peer, e: Event) {
    p.state == Stopped && (e.Start? || e.Stop? || e.TransportClosed? || e.TransportFatal? || e == ErrorFound(false))
  }

  /** Whether a callback is still to come after a step. Sending a NOTIFICATION flushes the queue and asks
      for a new one. Entering IDLE disconnects, which flushes the queue of a connected socket; and the
      socket of a message that was taken is connected until then. */
  function Pending(p: Peer, q: Peer, o: Occurrence, pending: bool): bool
    requires |p.log| <= |q.log|
  {
    if SentNotification in Fresh(p, q) then o.accepted
    else if Flushes(p, o.event) || IsCallback(o.event) || EnteredIdle in Fresh(p, q) then false
    else pending
  }

  /** Nothing is taken out of the log, and a NOTIFICATION leads to STOPPED. */
  ghost predicate Sound(p: Peer, o: Outcome<Peer>) {
    o.Next? ==> p.log <= o.value.log && (SentNotification in Fresh(p, o.value) ==> o.value.state == Stopped)
  }

  lemma NotifySound(p: Peer)
    ensures Sound(p, Notify(p))
  {
  }

  lemma IdleSound(p: Peer, restart: bool, automatic: bool)
    ensures Sound(p, Next(ToIdle(p, restart, automatic)))
    ensures SentNotification !in Fresh(p, ToIdle(p, restart, automatic))
  {
  }

  lemma TransportSound(p: Peer, e: Event)
    requires e.Start? || e.Stop? || e.TransportOpen? || e.TransportClosed? || e.OpenFailed? || e.TransportFatal? ||
             e.SwapSockets?
    ensures Sound(p, Step(p, e))
  {
    NotifySound(p);
    IdleSound(p, true, true);
    IdleSound(p, false, true);
    if e.Stop? { IdleSound(p, e.restart, e.automatic); }
  }

  lemma TimerSound(p: Peer, e: Event)
    requires e.ConnectRetryExpired? || e.HoldExpired? || e.KeepaliveExpired? || e.DelayOpenExpired? ||
             e.IdleHoldExpired? || e.StoppedExpired?
    ensures Sound(p, Step(p, e))
  {
    NotifySound(p);
    IdleSound(p, true, true);
    IdleSound(p, false, true);
    IdleSound(p.(stoppedTimer := false), true, true);
  }

  lemma MessageSound(p: Peer, e: Event)
    requires e.ReceivedKeepalive? || e.ReceivedUpdate? || e.ReceivedNotification? || e.ErrorFound? || e.SendUpdate?
    ensures Sound(p, Step(p, e))
  {
    NotifySound(p);
    IdleSound(p, true, true);
  }

  lemma OpenSound(p: Peer, acceptable: bool, connected: bool)
    ensures Sound(p, EventOpenMessage(p, acceptable, connected))
  {
    var q := Emit(p, SentOpen);
    NotifySound(p);
    NotifySound(q);
    IdleSound(p, true, true);
    IdleSound(q, true, true);
  }

  lemma StepSound(p: Peer, e: Event)
    ensures Sound(p, Step(p, e))
  {
    if e.Start? || e.Stop? || e.TransportOpen? || e.TransportClosed? || e.OpenFailed? || e.TransportFatal? ||
       e.SwapSockets? {
      TransportSound(p, e);
    } else if e.ConnectRetryExpired? || e.HoldExpired? || e.KeepaliveExpired? || e.DelayOpenExpired? ||
              e.IdleHoldExpired? || e.StoppedExpired? {
      TimerSound(p, e);
    } else if e.ReceivedOpen? {
      OpenSound(p, e.acceptable, e.connected);
    } else if IsCallback(e) {
      IdleSound(p, e.restart, if e.NotificationSent? then true else e.automatic);
    } else {
      MessageSound(p, e);
    }
  }

  /** A step that leaves a pending callback behind leaves it in STOPPED. */
  lemma StepKeepsPending(p: Peer, o: Occurrence, pending: bool)
    requires Step(p, o.event).Next? && (pending ==> p.state == Stopped)
    ensures p.log <= Step(p, o.event).value.log
    ensures Pending(p, Step(p, o.event).value, o, pending) ==> Step(p, o.event).value.state == Stopped
  {
    StepSound(p, o.event);
    if p.state == Stopped { LeavesThroughIdle(p, o.event); }
  }

  /** STOPPED is left only for IDLE, if only to pass through. */
  lemma LeavesThroughIdle(p: Peer, e: Event)
    requires p.state == Stopped && Step(p, e).Next? && p.log <= Step(p, e).value.log
    ensures Step(p, e).value.state == Stopped ||
            (EnteredIdle in Fresh(p, Step(p, e).value) && SentNotification !in Fresh(p, Step(p, e).value))
  {
    var q := Step(p, e).value;
    if q.state != Stopped { assert Fresh(p, q)[0] == EnteredIdle; }
  }

  /** Callbacks come only while one is pending. */
  ghost predicate Runs(p: Peer, os: seq<Occurrence>, pending: bool)
    decreases |os|
  {
    os == [] || (
      && (IsCallback(os[0].event) ==> pending)
      && Step(p, os[0].event).Next? && |p.log| <= |Step(p, os[0].event).value.log|
      && Runs(Step(p, os[0].event).value, os[1..], Pending(p, Step(p, os[0].event).value, os[0], pending)))
  }

  /** Peer and pending callback after a run. */
  ghost function Final(p: Peer, os: seq<Occurrence>, pending: bool): (Peer, bool)
    requires Runs(p, os, pending)
    decreases |os|
  {
    if os == [] then (p, pending)
    else
      var q := Step(p, os[0].event).value;
      Final(q, os[1..], Pending(p, q, os[0], pending))
  }

  lemma {:induction false} RunKeepsPending(p: Peer, os: seq<Occurrence>, pending: bool)
    requires Runs(p, os, pending) && (pending ==> p.state == Stopped)
    ensures Final(p, os, pending).1 ==> Final(p, os, pending).0.state == Stopped
    decreases |os|
  {
    if os != [] {
      var q := Step(p, os[0].event).value;
      StepKeepsPending(p, os[0], pending);
      RunKeepsPending(q, os[1..], Pending(p, q, os[0], pending));
    }
  }

  /** In every run from the start, a callback aborts if and only if it comes outside STOPPED, and one that
      is pending never does. */
  lemma CallbackNeverAborts(os: seq<Occurrence>, e: Event)
    requires Runs(INITIAL_PEER, os, false) && IsCallback(e)
    ensures var r := Final(INITIAL_PEER, os, false);
            && (Step(r.0, e).Abort? <==> r.0.state != Stopped)
            && (r.1 ==> Step(r.0, e).Next?)
  {
    RunKeepsPending(INITIAL_PEER, os, false);
  }
}
