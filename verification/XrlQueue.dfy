/** The queue object. */
module XrlQueue {
  import opened Wrappers
  import opened XrlQueueModel
  import opened XrlQueueSafety

  class XrlQueue {
    var waiting: seq<Command>
    var flying: nat
    var controlled: bool
    /** What went out, and whether the last send failed. */
    ghost var sent: seq<Command>
    ghost var failed: bool

    constructor ()
      ensures View() == EMPTY_QUEUE && Valid()
    {
      waiting, flying, controlled, sent, failed := [], 0, false, [], false;
    }

    ghost function View(): Queue
      reads this
    {
      Queue(waiting, flying, controlled, sent, failed)
    }

    /** At most 100 commands in flight, and none waits unless enough are or the last send failed. */
    ghost predicate Valid()
      reads this
    {
      Inv(View())
    }

    method FlowControlled() returns (r: bool)
      modifies `controlled
      ensures View() == Refreshed(old(View())) && r == controlled
    {
      if flying >= XRL_HIWAT {
        controlled := true;
      } else if flying <= XRL_LOWAT {
        controlled := false;
      }
      r := controlled;
    }

    /** Send what the transport takes, until flow control sets in. */
    method Start(room: nat)
      modifies this
      ensures View() == XrlQueueModel.Start(old(View()), room)
    {
      var stop := FlowControlled();
      if stop { return; }
      var left: nat := room;
      while true
        invariant left <= room
        invariant SendAll(View(), left) == XrlQueueModel.Start(old(View()), room)
        decreases |waiting|
      {
        if waiting == [] {
          failed := false;
          return;
        }
        if left == 0 {
          failed := true;
          return;
        }
        flying := flying + 1;
        sent, failed := sent + [waiting[0]], false;
        waiting := waiting[1..];
        left := left - 1;
        stop := FlowControlled();
        if stop { return; }
      }
    }

    /** queue_add_route and queue_delete_route. */
    method QueueRoute(c: Command, room: nat)
      modifies this
      ensures View() == Enqueue(old(View()), c, room)
      ensures old(Valid()) ==> Valid() && sent + waiting == old(sent + waiting) + [c]
    {
      if Valid() { StepKeeps(View(), Add(c, room)); }
      waiting := waiting + [c];
      Start(room);
    }

    method RouteCommandDone(fatal: bool, room: nat) returns (aborted: bool)
      requires flying > 0
      modifies this
      ensures aborted == Done(old(View()), fatal, room).Abort?
      ensures !aborted ==> View() == Done(old(View()), fatal, room).value
      ensures old(Valid()) && !aborted ==> Valid() && sent + waiting == old(sent + waiting)
    {
      if Valid() && !fatal { StepKeeps(View(), Answered(fatal, room)); }
      flying := flying - 1;
      if fatal { return true; }
      Start(room);
      aborted := false;
    }
  }
}
