/** A concrete run. A registration behind the front of the queue may become covered by the cache;
    its next hop can then be cached and queued at once, and invalidating the range that caches
    it aborts the process. */
module NextHopWitness {
  import opened Wrappers
  import opened Nets
  import opened NextHopModel
  import opened NextHopInvariant
  import opened NextHopSafety
  import opened NextHopAnswers

  const X: Addr := [false, true]
  const Y: Addr := [false, false]
  const Z: Addr := [true, false]
  const LOWER: Net := [false]

  function Fresh(a: Addr): Request {
    Register(a, true, AddRequest(NO_REQUESTS, [], 0), false, 0, false, 0)
  }

  const OLD_X := Register(X, false, NO_REQUESTS, true, 1, true, 1)

  function AnswerX(refs: map<Addr, int>): Entry { Entry(X, 2, 2, true, 1, refs) }

  function AnswerLower(refs: map<Addr, int>): Entry { Entry(Y, 1, 1, true, 1, refs) }

  const DONE := [LookupDone(X, RequestNets(AddRequest(NO_REQUESTS, [], 0)), true)]

  // The states of the run.
  const S1 := State(true, map[], [Fresh(X)], true, None, None, [RegisterInterest(X)], 0, [])
  const S2 := State(true, map[X := AnswerX(map[X := 1])], [], false, None, None, [RegisterInterest(X)], 1, DONE)
  const S3 := S2.(queue := [Fresh(Y)], busy := true, calls := [RegisterInterest(X), RegisterInterest(Y)])
  const S4 := S3.(queue := [Fresh(Y), Fresh(Z)])
  const S5 := S4.(cache := map[], queue := [Fresh(Y), Fresh(Z), OLD_X])
  const S6 := State(true, map[LOWER := AnswerLower(map[Y := 1])], [Fresh(Z), OLD_X], true, None, None,
                    [RegisterInterest(X), RegisterInterest(Y), RegisterInterest(Z)], 2,
                    DONE + [LookupDone(Y, RequestNets(AddRequest(NO_REQUESTS, [], 0)), true)])
  const S7 := S6.(cache := map[LOWER := AnswerLower(map[Y := 1, X := 1])])

  const E1 := RegisterDowncall(X, [], 0)
  const E2 := RegisterReply(Okay, true, X, 2, 2, 1)
  const E3 := RegisterDowncall(Y, [], 0)
  const E4 := RegisterDowncall(Z, [], 0)
  const E5 := Invalidated(X, 2)
  const E6 := RegisterReply(Okay, true, Y, 1, 1, 1)
  const E7 := RegisterDowncall(X, [], 0)

  lemma FindSingle(n: Net, e: Entry, a: Addr)
    ensures Find(map[n := e], a) == if n <= a then Some(n) else None
  {
  }

  /** Registering a next hop nothing covers or asks for queues it. */
  lemma Queues(s: State, a: Addr)
    requires s.ribnameSet && !Covered(s.cache, a) && RegisterIndex(s.queue, a).None?
    ensures RegisterNexthop(s, a, [], 0) == Next(SendIfIdle(s.(queue := s.queue + [Fresh(a)])))
  {
  }

  lemma Step1()
    ensures Step(Init(true), E1) == Next(S1)
  {
    Queues(Init(true), X);
    assert [] + [Fresh(X)] == [Fresh(X)] && [] + [RegisterInterest(X)] == [RegisterInterest(X)];
  }

  lemma RegisterSingle(n: Net, e: Entry, a: Addr, incr: int)
    requires n <= a && a !in e.refs
    ensures CacheRegister(map[n := e], a, incr) == Some(map[n := e.(refs := e.refs[a := incr])])
  {
    FindSingle(n, e, a);
    assert map[n := e][n := AddRef(e, a, incr)] == map[n := AddRef(e, a, incr)];
  }

  lemma Step2()
    ensures Legal(S1, E2) && Step(S1, E2) == Next(S2)
  {
    assert X + Zeros(0) == X;
    assert MakeNet(X, 2) == X;
    FindSingle(X, AnswerX(map[]), X);
    var p0 := Pass(map[X := AnswerX(map[])], [Fresh(X)], []);
    var p1 := Pass(map[X := AnswerX(map[X := 1])], [Fresh(X)], DONE);
    RegisterSingle(X, AnswerX(map[]), X, 1);
    assert SatisfyNew(p0, Fresh(X)) == p1;
    FindSingle(X, AnswerX(map[X := 1]), X);
    assert p1.queue[..0] + p1.queue[1..] == [];
    assert Drain(true, p0, 0) == Drain(true, p1.(queue := []), 0) == Next(p1.(queue := []));
    assert X in p1.cache[X].refs;
  }

  lemma Step3()
    ensures Step(S2, E3) == Next(S3)
  {
    assert X[1] != Y[1];
    FindSingle(X, AnswerX(map[X := 1]), Y);
    Queues(S2, Y);
    assert [] + [Fresh(Y)] == [Fresh(Y)];
    assert [RegisterInterest(X)] + [RegisterInterest(Y)] == [RegisterInterest(X), RegisterInterest(Y)];
  }

  lemma Step4()
    ensures Step(S3, E4) == Next(S4)
  {
    assert X[0] != Z[0];
    FindSingle(X, AnswerX(map[X := 1]), Z);
    Queues(S3, Z);
    assert [Fresh(Y)] + [Fresh(Z)] == [Fresh(Y), Fresh(Z)];
  }

  lemma Step5()
    ensures Step(S4, E5) == Next(S5)
  {
    assert MakeNet(X, 2) == X;
    var refs: map<Addr, int> := map[X := 1];
    var keys := InOrder(refs.Keys);
    assert |keys| == 1 && X in keys;
    assert keys == [X];
    assert S4.cache - {X} == map[];
    var s := S4.(cache := map[]);
    assert RegisterIndex(s.queue, X).None?;
    assert ReregisterNexthop(s, X, 1, true, 1) == Next(s.(queue := s.queue + [OLD_X]));
    assert s.queue + [OLD_X] == S5.queue;
    assert ReregisterAll(s, [X], AnswerX(refs)) == ReregisterAll(S5, [X][1..], AnswerX(refs)) == Next(S5);
  }

  const P5 := Pass(map[LOWER := AnswerLower(map[])], [Fresh(Y), Fresh(Z), OLD_X], DONE)
  const P6 := Pass(S6.cache, S6.queue, S6.upcalls)

  lemma DrainLower()
    ensures Drain(true, P5, 0) == Next(P6)
  {
    var p1 := P6.(queue := P5.queue);
    FindSingle(LOWER, AnswerLower(map[]), Y);
    RegisterSingle(LOWER, AnswerLower(map[]), Y, 1);
    assert SatisfyNew(P5, Fresh(Y)) == p1;
    FindSingle(LOWER, AnswerLower(map[Y := 1]), Y);
    assert p1.queue[..0] + p1.queue[1..] == P6.queue;
    assert Drain(true, P5, 0) == Drain(true, P6, 0);
    assert LOWER[0] != Z[0];
    FindSingle(LOWER, AnswerLower(map[Y := 1]), Z);
  }

  lemma Step6()
    ensures Legal(S5, E6) && Step(S5, E6) == Next(S6)
  {
    assert Y == LOWER + Zeros(1);
    assert MakeNet(Y, 1) == LOWER;
    DrainLower();
    var s := S5.(replies := 1 + 1);
    assert s.cache[LOWER := AnswerLower(map[])] == P5.cache;
    assert Y in P6.cache[LOWER].refs;
    assert S5.calls + [RegisterInterest(Z)] == S6.calls;
    assert TakeAnswer(s, AnswerLower(map[])) == Next(S6);
  }

  lemma Step7()
    ensures Step(S6, E7) == Next(S7)
  {
    RegisterSingle(LOWER, AnswerLower(map[Y := 1]), X, 1);
  }

  ghost const TheRun: seq<Event> := [E1, E2, E3, E4, E5, E6, E7]

  lemma RunsCons(s: State, e: Event, es: seq<Event>, s1: State)
    requires Legal(s, e) && Step(s, e) == Next(s1) && Runs(s1, es)
    ensures Runs(s, [e] + es) && Final(s, [e] + es) == Final(s1, es)
  {
    assert ([e] + es)[1..] == es;
  }

  lemma TheRunReaches()
    ensures Runs(Init(true), TheRun) && Final(Init(true), TheRun) == S7
  {
    Step7(); RunsCons(S6, E7, [], S7);
    Step6(); RunsCons(S5, E6, [E7], S6);
    Step5(); RunsCons(S4, E5, [E6, E7], S5);
    Step4(); RunsCons(S3, E4, [E5, E6, E7], S4);
    Step3(); RunsCons(S2, E3, [E4, E5, E6, E7], S3);
    Step2(); RunsCons(S1, E2, [E3, E4, E5, E6, E7], S2);
    Step1(); RunsCons(Init(true), E1, [E2, E3, E4, E5, E6, E7], S1);
  }

  /** A reachable state in which the head of the queue is uncovered but a later registration is
      covered, and in which the RIB's invalidation of a cached range aborts. */
  lemma InvalidationCanAbort()
    ensures Runs(Init(true), TheRun)
    ensures var s := Final(Init(true), TheRun);
            && |s.queue| == 2 && s.queue[1].Register? && Covered(s.cache, s.queue[1].nexthop)
            && Legal(s, Invalidated(Y, 1)) && Step(s, Invalidated(Y, 1)).Abort?
  {
    TheRunReaches();
    InitInv();
    RunKeepsInv(Init(true), TheRun);
    FindSingle(LOWER, S7.cache[LOWER], X);
    assert RegisterIndex(S7.queue, X) == Some(1);
    assert X in S7.cache[LOWER].refs && AlreadyReregistered(S7.queue, X);
    InvalidationAborts(S7, LOWER);
  }

  /** In the same run the range of X is invalidated, and X is answered all the same. */
  lemma AnswerOutlivesInvalidation()
    ensures Runs(Init(true), [E1, E2, E3, E4]) && Final(Init(true), [E1, E2, E3, E4]) == S4
    ensures X in S4.cache && Step(S4, E5) == Next(S5) && S5.cache == map[]
    ensures Lookup(true, S5.cache, S5.queue, X).Some? && Lookup(true, S5.cache, S5.queue, X).value.0
  {
    Step5();
    Step4(); RunsCons(S3, E4, [], S4);
    Step3(); RunsCons(S2, E3, [E4], S3);
    Step2(); RunsCons(S1, E2, [E3, E4], S2);
    Step1(); RunsCons(Init(true), E1, [E2, E3, E4], S1);
    InvalidationKeepsAnswers([E1, E2, E3, E4], X, 2, X, []);
  }

  // A run that is cut off.
  const T3 := S2.(cache := map[], queue := [Deregister(X, 2)], busy := true,
                  calls := [RegisterInterest(X), DeregisterInterest(X, 2)])
  const T4 := T3.(queue := [Deregister(X, 2), Fresh(Z)])
  const T5 := T4.(queue := [], replies := 2)

  const F3 := DeregisterDowncall(X, [], 0)
  const F4 := RegisterDowncall(Z, [], 0)
  const F5 := DeregisterReply(ResolveFailed, X, 2)

  lemma CutStep3()
    ensures Step(S2, F3) == Next(T3)
  {
    FindSingle(X, S2.cache[X], X);
    assert Holder(S2.cache, X) == Some(X);
    assert S2.cache[X].refs - {X} == map[];
    assert S2.cache - {X} == map[];
    assert CacheDeregister(S2.cache, X) == (map[], true);
    var s := S2.(cache := map[]);
    assert DeregisterNexthop(S2, X, [], 0) == Next(DeregisterFromRib(s, X, 2));
    assert s.queue + [Deregister(X, 2)] == [Deregister(X, 2)];
    assert s.calls + [DeregisterInterest(X, 2)] == T3.calls;
  }

  lemma CutStep4()
    ensures Step(T3, F4) == Next(T4)
  {
    assert RegisterIndex(T3.queue, Z).None?;
    Queues(T3, Z);
    assert T3.queue + [Fresh(Z)] == T4.queue;
  }

  /** The reply RESOLVE_FAILED loses a registration that was waiting: its next hop is registered once
      and referenced nowhere. */
  lemma CutOffLosesReferences()
    ensures Runs(Init(true), [E1, E2, F3, F4, F5])
    ensures var s := Final(Init(true), [E1, E2, F3, F4, F5]);
            CutOff(s) && Refs(T4, Z) == 1 && Refs(s, Z) == 0
  {
    assert QueueRefs([Fresh(Z)], Z) == 1;
    assert T4.queue[1..] == [Fresh(Z)];
    RunsCons(T4, F5, [], T5);
    CutStep4(); RunsCons(T3, F4, [F5], T4);
    CutStep3(); RunsCons(S2, F3, [F4, F5], T3);
    Step2(); RunsCons(S1, E2, [F3, F4, F5], S2);
    Step1(); RunsCons(Init(true), E1, [E2, F3, F4, F5], S1);
  }
}
