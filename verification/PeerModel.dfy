/** The finite state machine of a BGP peer (section 8 of RFC 4271, with a state STOPPED in which a
    NOTIFICATION waits to be sent). */
module PeerModel {
  import opened Wrappers

  datatype State = Idle | Connect | Active | OpenSent | OpenConfirm | Established | Stopped

  /** The peer handler: not created yet, or created and told that the peering is up or down. */
  datatype Handler = NoHandler | HandlerUp | HandlerDown

  /** What can be observed: messages, what the handler is told, and every arrival in IDLE. */
  datatype Output = SentOpen | SentKeepalive | SentUpdate | SentNotification | CameUp | WentDown | EnteredIdle

  datatype Peer = Peer(state: State, handler: Handler, stoppedTimer: bool, log: seq<Output>)

  const INITIAL_PEER := Peer(Idle, NoHandler, false, [])

  function Emit(p: Peer, o: Output): Peer {
    p.(log := p.log + [o])
  }

  // ---- Changing the state -------------------------------------------------------------

  /** BGPPeer::release_resources. */
  function ReleaseResources(p: Peer): Peer {
    if p.handler.HandlerUp? then Emit(p.(handler := HandlerDown), WentDown) else p
  }

  /** Leaving STOPPED clears its timer. */
  function Enter(p: Peer, s: State): Peer {
    p.(state := s, stoppedTimer := if p.state == Stopped && s != Stopped then false else p.stoppedTimer)
  }

  /** set_state to IDLE, up to the restart. */
  function ToIdleOnly(p: Peer): Peer {
    var q := Enter(p, Idle);
    if p.state == Idle then q else ReleaseResources(Emit(q.(stoppedTimer := false), EnteredIdle))
  }

  /** set_state to IDLE. An automatic restart only arms the idle hold timer; any other starts the
      peer again at once. */
  function ToIdle(p: Peer, restart: bool, automatic: bool): Peer {
    var q := ToIdleOnly(p);
    if p.state != Idle && restart && !automatic then Enter(q, Connect) else q
  }

  /** set_state to STOPPED, after a NOTIFICATION. It aborts without a handler to stop. */
  function ToStopped(p: Peer): Outcome<Peer> {
    if p.state == Established && p.handler.NoHandler? then Abort
    else Next(Enter(p, Stopped).(stoppedTimer := if p.state == Stopped then p.stoppedTimer else true))
  }

  /** BGPPeer::established, as set_state calls it. */
  function ToEstablished(p: Peer): Peer {
    var q := Enter(p, Established);
    if p.state == Established then q else Emit(q.(handler := HandlerUp), CameUp)
  }

  /** send_notification and set_state to STOPPED. */
  function Notify(p: Peer): Outcome<Peer> {
    ToStopped(Emit(p, SentNotification))
  }

  // ---- Events -------------------------------------------------------------------------

  /** Everything the environment decides is in the event: the arguments of stop, whether opens are
      delayed, whether the socket is connected, whether a received OPEN is acceptable, and whether an
      UPDATE exceeds the prefix limit. */
  datatype Event =
    | Start
    | Stop(restart: bool, automatic: bool)
    | TransportOpen(delayed: bool)
    | TransportClosed
    | OpenFailed(delayed: bool)
    | TransportFatal
    | ConnectRetryExpired
    | HoldExpired
    | KeepaliveExpired
    | DelayOpenExpired
    | IdleHoldExpired
    | StoppedExpired
    | ReceivedOpen(acceptable: bool, connected: bool)
    | ReceivedKeepalive
    | ReceivedUpdate(overLimit: bool)
    | ReceivedNotification
    | ErrorFound(connected: bool)
    | NotificationSent(restart: bool)
    | NotificationFailed(restart: bool, automatic: bool)
    | SwapSockets(delayed: bool)
    | SendUpdate

  function EventStart(p: Peer): Peer {
    match p.state
    case Stopped => Enter(ToIdle(p, false, true), Connect)
    case Idle => Enter(p, Connect)
    case _ => p
  }

  function EventStop(p: Peer, restart: bool, automatic: bool): Outcome<Peer> {
    match p.state
    case Idle => Next(p)
    case Connect => Next(ToIdle(p, restart, automatic))
    case Active => Next(ToIdle(p, restart, automatic))
    case Stopped => Next(ToIdle(p, restart, automatic))
    case _ => Notify(p)
  }

  function EventOpen(p: Peer, delayed: bool): Outcome<Peer> {
    if p.state != Connect && p.state != Active then Abort
    else if delayed then Next(p)
    else Next(Enter(Emit(p, SentOpen), OpenSent))
  }

  function EventClosed(p: Peer): Peer {
    if p.state == OpenSent then Enter(p, Active) else ToIdle(p, true, true)
  }

  /** The way to ACTIVE leads through IDLE unless opens are delayed. */
  function EventOpenFail(p: Peer, delayed: bool): Outcome<Peer> {
    if p.state != Connect then Abort
    else Next(Enter(if delayed then p else ToIdle(p, false, true), Active))
  }

  function EventTransportFatal(p: Peer): Peer {
    ToIdle(p, true, true)
  }

  function EventConnectRetry(p: Peer): Outcome<Peer> {
    match p.state
    case Idle => Next(p)
    case Stopped => Next(p)
    case Connect => Next(p)
    case Active => Next(Enter(p, Connect))
    case _ => Notify(p)
  }

  function EventHold(p: Peer): Outcome<Peer> {
    match p.state
    case Idle => Next(p)
    case Stopped => Next(p)
    case Connect => Next(ToIdle(p, true, true))
    case Active => Next(ToIdle(p, true, true))
    case _ => Notify(p)
  }

  function EventKeepalive(p: Peer): Outcome<Peer> {
    if p.state == OpenConfirm || p.state == Established then Next(Emit(p, SentKeepalive)) else Abort
  }

  function EventDelayOpen(p: Peer): Outcome<Peer> {
    match p.state
    case Connect => Next(Enter(Emit(p, SentOpen), OpenSent))
    case Active => Next(Enter(Emit(p, SentOpen), OpenSent))
    case OpenConfirm => Next(Enter(Emit(p, SentOpen), OpenSent))
    case _ => Notify(p)
  }

  function EventIdleHold(p: Peer): Outcome<Peer> {
    if p.state != Idle then Abort else Next(EventStart(p))
  }

  /** BGPPeer::hook_stopped, the timer being a one-shot. */
  function EventStoppedTimer(p: Peer): Outcome<Peer> {
    if p.state != Stopped then Abort else Next(ToIdle(p.(stoppedTimer := false), true, true))
  }

  /** notify_peer_of_error: without a connection there is nobody to notify. */
  function NotifyError(p: Peer, connected: bool): Outcome<Peer> {
    if connected then Notify(p) else Next(EventTransportFatal(p))
  }

  function EventOpenMessage(p: Peer, acceptable: bool, connected: bool): Outcome<Peer> {
    if p.state == Stopped then Next(p)
    else if p.state == Connect || p.state == Active || p.state == OpenSent then
      var q := if p.state == OpenSent then p else Emit(p, SentOpen);
      if acceptable then Next(Enter(Emit(q, SentKeepalive), OpenConfirm).(stoppedTimer := false))
      else NotifyError(q, connected)
    else NotifyError(p, connected)
  }

  function EventKeepaliveMessage(p: Peer): Outcome<Peer> {
    match p.state
    case Idle => Abort
    case Connect => Abort
    case Active => Abort
    case Stopped => Next(p)
    case OpenSent => Notify(p)
    case _ => Next(ToEstablished(p))
  }

  /** Within its limit, an UPDATE goes to the handler, which must be there. */
  function EventUpdate(p: Peer, overLimit: bool): Outcome<Peer> {
    match p.state
    case Stopped => Next(p)
    case Established => if p.handler.NoHandler? then Abort else if overLimit then Notify(p) else Next(p)
    case _ => Notify(p)
  }

  function EventNotification(p: Peer): Outcome<Peer> {
    match p.state
    case Idle => Abort
    case Stopped => Next(p)
    case _ => Next(ToIdle(p, true, true))
  }

  /** The callbacks of send_notification. */
  function EventNotified(p: Peer, restart: bool, automatic: bool): Outcome<Peer> {
    if p.state != Stopped then Abort else Next(ToIdle(p, restart, automatic))
  }

  /** The accepted connection of a collision takes over. */
  function EventSwapSockets(p: Peer, delayed: bool): Outcome<Peer> {
    if p.state == Active || p.state == Connect || p.state == OpenSent || p.state == OpenConfirm
    then EventOpen(Enter(p, Active), delayed) else Abort
  }

  function EventSendUpdate(p: Peer): Outcome<Peer> {
    if p.state == Established then Next(Emit(p, SentUpdate)) else Abort
  }

  function Step(p: Peer, e: Event): Outcome<Peer> {
    match e
    case Start => Next(EventStart(p))
    case Stop(restart, automatic) => EventStop(p, restart, automatic)
    case TransportOpen(delayed) => EventOpen(p, delayed)
    case TransportClosed => Next(EventClosed(p))
    case OpenFailed(delayed) => EventOpenFail(p, delayed)
    case TransportFatal => Next(EventTransportFatal(p))
    case ConnectRetryExpired => EventConnectRetry(p)
    case HoldExpired => EventHold(p)
    case KeepaliveExpired => EventKeepalive(p)
    case DelayOpenExpired => EventDelayOpen(p)
    case IdleHoldExpired => EventIdleHold(p)
    case StoppedExpired => EventStoppedTimer(p)
    case ReceivedOpen(acceptable, connected) => EventOpenMessage(p, acceptable, connected)
    case ReceivedKeepalive => EventKeepaliveMessage(p)
    case ReceivedUpdate(overLimit) => EventUpdate(p, overLimit)
    case ReceivedNotification => EventNotification(p)
    case ErrorFound(connected) => NotifyError(p, connected)
    case NotificationSent(restart) => EventNotified(p, restart, true)
    case NotificationFailed(restart, automatic) => EventNotified(p, restart, automatic)
    case SwapSockets(delayed) => EventSwapSockets(p, delayed)
    case SendUpdate => EventSendUpdate(p)
  }

  function Run(p: Peer, es: seq<Event>): Outcome<Peer>
    decreases |es|
  {
    if es == [] then Next(p)
    else
      match Step(p, es[0])
      case Abort => Abort
      case Next(q) => Run(q, es[1..])
  }
}
