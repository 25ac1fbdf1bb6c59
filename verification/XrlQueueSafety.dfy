/** What holds of the queue in every run. */
module XrlQueueSafety {
  import opened Wrappers
  import opened XrlQueueModel

  // ---- The invariant ------------------------------------------------------------------

  /** A command waits only while more than ten are in flight, unless the last send failed. */
  ghost predicate Inv(q: Queue) {
    && q.flying <= XRL_HIWAT
    && (q.waiting != [] && !q.failed ==> q.flying > XRL_LOWAT && q.controlled)
  }

  /** What start() needs: the last command may have been added, or one less may be in flight. */
  lemma {:induction false} SendAllKeeps(q: Queue, room: nat)
    requires q.flying < XRL_HIWAT
    ensures Inv(SendAll(q, room))
    ensures SendAll(q, room).sent + SendAll(q, room).waiting == q.sent + q.waiting
    ensures SendAll(q, room).flying + |SendAll(q, room).waiting| == q.flying + |q.waiting|
    ensures room >= |q.waiting| ==> !SendAll(q, room).failed
    decreases |q.waiting|
  {
    if q.waiting != [] && room > 0 {
      var q1 := SendFront(q);
      assert q1.sent + q1.waiting == q.sent + q.waiting by {
        assert q.waiting == [q.waiting[0]] + q.waiting[1..];
      }
      if !q1.controlled { SendAllKeeps(q1, room - 1); }
    }
  }

  lemma StartKeeps(q: Queue, room: nat)
    requires q.flying <= XRL_HIWAT
    ensures Inv(Start(q, room))
    ensures Start(q, room).sent + Start(q, room).waiting == q.sent + q.waiting
    ensures Start(q, room).flying + |Start(q, room).waiting| == q.flying + |q.waiting|
    ensures !q.failed && room >= |q.waiting| ==> !Start(q, room).failed
  {
    if !FlowControlled(q) { SendAllKeeps(Refreshed(q), room); }
  }

  // ---- Runs ---------------------------------------------------------------------------

  datatype Event = Add(command: Command, room: nat) | Answered(fatal: bool, room: nat)

  /** An answer comes only for a command in flight. */
  ghost predicate Legal(q: Queue, e: Event) {
    e.Answered? ==> q.flying > 0
  }

  ghost function Step(q: Queue, e: Event): Outcome<Queue>
    requires Legal(q, e)
  {
    match e
    case Add(c, room) => Next(Enqueue(q, c, room))
    case Answered(fatal, room) => Done(q, fatal, room)
  }

  ghost predicate Runs(q: Queue, es: seq<Event>)
    decreases |es|
  {
    es == [] || (Legal(q, es[0]) && Step(q, es[0]).Next? && Runs(Step(q, es[0]).value, es[1..]))
  }

  ghost function Final(q: Queue, es: seq<Event>): Queue
    requires Runs(q, es)
    decreases |es|
  {
    if es == [] then q else Final(Step(q, es[0]).value, es[1..])
  }

  /** The commands of a run in the order in which they were queued. */
  ghost function Queued(es: seq<Event>): seq<Command> {
    if es == [] then [] else (if es[0].Add? then [es[0].command] else []) + Queued(es[1..])
  }

  ghost function Answers(es: seq<Event>): nat {
    if es == [] then 0 else (if es[0].Answered? then 1 else 0) + Answers(es[1..])
  }

  lemma StepKeeps(q: Queue, e: Event)
    requires Inv(q) && Legal(q, e) && Step(q, e).Next?
    ensures var q' := Step(q, e).value;
            && Inv(q')
            && q'.sent + q'.waiting == q.sent + q.waiting + (if e.Add? then [e.command] else [])
            && q'.flying + |q'.waiting| == q.flying + |q.waiting| + (if e.Add? then 1 else -1)
  {
    match e
    case Add(c, room) =>
      StartKeeps(q.(waiting := q.waiting + [c]), room);
    case Answered(_, room) =>
      StartKeeps(q.(flying := q.flying - 1), room);
  }

  lemma {:induction false} RunKeeps(q: Queue, es: seq<Event>)
    requires Inv(q) && Runs(q, es)
    ensures Inv(Final(q, es))
    ensures Final(q, es).sent + Final(q, es).waiting == q.sent + q.waiting + Queued(es)
    ensures Final(q, es).flying + |Final(q, es).waiting| == q.flying + |q.waiting| + |Queued(es)| - Answers(es)
    decreases |es|
  {
    if es != [] {
      StepKeeps(q, es[0]);
      RunKeeps(Step(q, es[0]).value, es[1..]);
    }
  }

  /** In every run: at most 100 commands are in flight; what was sent, followed by what waits, is what
      was queued, in order; the commands in flight are those sent and not answered; and while commands
      wait, more than ten are in flight or the last send failed. */
  lemma FlowControl(es: seq<Event>)
    requires Runs(EMPTY_QUEUE, es)
    ensures var q := Final(EMPTY_QUEUE, es);
            && q.flying <= XRL_HIWAT
            && q.sent + q.waiting == Queued(es)
            && q.flying == |q.sent| - Answers(es)
            && (q.waiting != [] ==> q.flying > XRL_LOWAT || q.failed)
  {
    RunKeeps(EMPTY_QUEUE, es);
    assert |Final(EMPTY_QUEUE, es).sent + Final(EMPTY_QUEUE, es).waiting| == |Queued(es)|;
  }

  /** No event of the run takes the commands in flight down to the low water mark. */
  ghost predicate StaysAbove(q: Queue, es: seq<Event>)
    requires Runs(q, es)
    decreases |es|
  {
    es == [] || (
      && q.flying - (if es[0].Answered? then 1 else 0) > XRL_LOWAT
      && StaysAbove(Step(q, es[0]).value, es[1..]))
  }

  /** Hysteresis: flow control, once on, lets nothing out however the run goes on, until the low
      water mark is reached; commands pile up behind those waiting and only answers come in. */
  lemma {:induction false} NothingSentWhileControlled(q: Queue, es: seq<Event>)
    requires Runs(q, es) && q.controlled && StaysAbove(q, es)
    ensures Final(q, es).controlled && Final(q, es).sent == q.sent
    ensures Final(q, es).waiting == q.waiting + Queued(es) && Final(q, es).flying == q.flying - Answers(es)
    decreases |es|
  {
    if es != [] {
      NothingSentWhileControlled(Step(q, es[0]).value, es[1..]);
    }
  }

  /** In a run in which sends never fail, a waiting command always has an answer to come. */
  ghost predicate NeverFails(q: Queue, es: seq<Event>)
    requires Runs(q, es)
    decreases |es|
  {
    !q.failed && (es == [] || NeverFails(Step(q, es[0]).value, es[1..]))
  }

  lemma {:induction false} NeverFailsFinally(q: Queue, es: seq<Event>)
    requires Runs(q, es) && NeverFails(q, es)
    ensures !Final(q, es).failed
    decreases |es|
  {
    if es != [] { NeverFailsFinally(Step(q, es[0]).value, es[1..]); }
  }

  lemma AnswerPending(es: seq<Event>)
    requires Runs(EMPTY_QUEUE, es) && NeverFails(EMPTY_QUEUE, es)
    ensures Final(EMPTY_QUEUE, es).waiting != [] ==> Final(EMPTY_QUEUE, es).flying > XRL_LOWAT
  {
    FlowControl(es);
    NeverFailsFinally(EMPTY_QUEUE, es);
  }

  /** The transport takes all commands of the queue, and answers without fatal errors. */
  ghost function Drain(n: nat, room: nat): seq<Event> {
    seq(n, _ => Answered(false, room))
  }

  /** From then on, as many answers as there are commands empty the queue and the transport. */
  lemma {:induction false} Drains(q: Queue, room: nat)
    requires Inv(q) && !q.failed && room >= |q.waiting|
    ensures var es := Drain(q.flying + |q.waiting|, room);
            Runs(q, es) && Final(q, es).waiting == [] && Final(q, es).flying == 0
    decreases q.flying + |q.waiting|
  {
    var es := Drain(q.flying + |q.waiting|, room);
    if q.flying + |q.waiting| > 0 {
      var q1 := Step(q, es[0]).value;
      StepKeeps(q, es[0]);
      StartKeeps(q.(flying := q.flying - 1), room);
      assert |q1.waiting| <= |q.waiting| by { WaitingShrinks(q.(flying := q.flying - 1), room); }
      assert es[1..] == Drain(q1.flying + |q1.waiting|, room);
      Drains(q1, room);
    }
  }

  lemma WaitingShrinks(q: Queue, room: nat)
    ensures |Start(q, room).waiting| <= |q.waiting|
  {
    SendAllShrinks(Refreshed(q), room);
  }

  lemma {:induction false} SendAllShrinks(q: Queue, room: nat)
    ensures |SendAll(q, room).waiting| <= |q.waiting|
    decreases |q.waiting|
  {
    if q.waiting != [] && room > 0 && !SendFront(q).controlled { SendAllShrinks(SendFront(q), room - 1); }
  }
}
