/** The queue of route commands to the RIB, with flow control. */
module XrlQueueModel {
  import opened Wrappers

  const XRL_HIWAT: nat := 100
  const XRL_LOWAT: nat := 10

  /** A queued command, known by its identity. */
  type Command = nat

  /** The commands that wait, how many are in flight, the hysteresis flag, and as a record the
      commands that went out and whether the last attempt to send failed. */
  datatype Queue = Queue(waiting: seq<Command>, flying: nat, controlled: bool, sent: seq<Command>, failed: bool)

  const EMPTY_QUEUE := Queue([], 0, false, [], false)

  /** flow_controlled(): on at the high water mark, off at the low one, and in between as it was. */
  function FlowControlled(q: Queue): bool {
    if q.flying >= XRL_HIWAT then true else if q.flying <= XRL_LOWAT then false else q.controlled
  }

  function Refreshed(q: Queue): Queue {
    q.(controlled := FlowControlled(q))
  }

  /** The command at the front goes out. */
  function SendFront(q: Queue): Queue
    requires q.waiting != []
  {
    Refreshed(q.(waiting := q.waiting[1..], flying := q.flying + 1, sent := q.sent + [q.waiting[0]], failed := false))
  }

  /** The loop of start(). The transport takes `room` more commands before a send fails. */
  function SendAll(q: Queue, room: nat): Queue
    decreases |q.waiting|
  {
    if q.waiting == [] then q.(failed := false)
    else if room == 0 then q.(failed := true)
    else
      var q1 := SendFront(q);
      if q1.controlled then q1 else SendAll(q1, room - 1)
  }

  /** start(): nothing is attempted while flow control is on. */
  function Start(q: Queue, room: nat): Queue {
    var q1 := Refreshed(q);
    if q1.controlled then q1 else SendAll(q1, room)
  }

  /** queue_add_route and queue_delete_route. */
  function Enqueue(q: Queue, c: Command, room: nat): Queue {
    Start(q.(waiting := q.waiting + [c]), room)
  }

  /** route_command_done; some errors are fatal. */
  function Done(q: Queue, fatal: bool, room: nat): Outcome<Queue>
    requires q.flying > 0
  {
    if fatal then Abort else Next(Start(q.(flying := q.flying - 1), room))
  }
}
