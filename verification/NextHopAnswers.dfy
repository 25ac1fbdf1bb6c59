/** What decision can rely on: a next hop keeps being answered while its range is renewed. */
module NextHopAnswers {
  import opened Wrappers
  import opened Nets
  import opened NextHopModel
  import opened NextHopInvariant
  import opened NextHopSafety

  /** The queue holds a re-registration of the next hop that remembers the old resolvability. */
  ghost predicate Remembers(q: seq<Request>, nexthop: Addr, resolvable: bool) {
    exists i :: 0 <= i < |q| && q[i].Register? && q[i].nexthop == nexthop &&
                q[i].reregister && q[i].resolvable == resolvable
  }

  ghost predicate Matches(r: Request, nexthop: Addr) {
    r.Register? && r.nexthop == nexthop
  }

  lemma RegisterIndexIs(q: seq<Request>, i: nat)
    requires QueueOk(q) && i < |q| && q[i].Register?
    ensures RegisterIndex(q, q[i].nexthop) == Some(i)
  {
  }

  /** While it remembers and no entry counts the next hop, lookup gives the old resolvability. */
  lemma RememberedIsAnswered(s: State, nexthop: Addr, resolvable: bool)
    requires Inv(s) && s.ribnameSet && Remembers(s.queue, nexthop, resolvable)
    ensures Lookup(true, s.cache, s.queue, nexthop).Some?
    ensures Holder(s.cache, nexthop).None? ==> Lookup(true, s.cache, s.queue, nexthop).value.0 == resolvable
  {
    var i :| 0 <= i < |s.queue| && s.queue[i].Register? && s.queue[i].nexthop == nexthop
             && s.queue[i].reregister && s.queue[i].resolvable == resolvable;
    RegisterIndexIs(s.queue, i);
    var j := StaleIndex(s.queue, nexthop).value;
    RegisterIndexIs(s.queue, j);
  }

  // ---- How the memory survives changes to the queue -----------------------------------

  lemma RememberAppend(q: seq<Request>, r: Request, nexthop: Addr, resolvable: bool)
    requires Remembers(q, nexthop, resolvable)
    ensures Remembers(q + [r], nexthop, resolvable)
  {
    var i :| 0 <= i < |q| && q[i].Register? && q[i].nexthop == nexthop &&
             q[i].reregister && q[i].resolvable == resolvable;
    assert (q + [r])[i] == q[i];
  }

  lemma RememberUpdate(q: seq<Request>, i: nat, r: Request, nexthop: Addr, resolvable: bool)
    requires Remembers(q, nexthop, resolvable) && i < |q| && q[i].Register? && r.Register?
    requires r.nexthop == q[i].nexthop
    requires q[i].reregister ==> r.reregister && r.resolvable == q[i].resolvable
    ensures Remembers(q[i := r], nexthop, resolvable)
  {
    var k :| 0 <= k < |q| && q[k].Register? && q[k].nexthop == nexthop &&
             q[k].reregister && q[k].resolvable == resolvable;
    assert q[i := r][k] == if k == i then r else q[k];
  }

  lemma RememberErase(q: seq<Request>, i: nat, nexthop: Addr, resolvable: bool)
    requires Remembers(q, nexthop, resolvable) && i < |q| && !Matches(q[i], nexthop)
    ensures Remembers(q[..i] + q[i + 1..], nexthop, resolvable)
  {
    var k :| 0 <= k < |q| && q[k].Register? && q[k].nexthop == nexthop &&
             q[k].reregister && q[k].resolvable == resolvable;
    var q' := q[..i] + q[i + 1..];
    if k < i { assert q'[k] == q[k]; } else { assert q'[k - 1] == q[k]; }
  }

  lemma RememberDeregisterFromRib(s: State, addr: Addr, len: nat, nexthop: Addr, resolvable: bool)
    requires Remembers(s.queue, nexthop, resolvable)
    ensures Remembers(DeregisterFromRib(s, addr, len).queue, nexthop, resolvable)
  {
    RememberAppend(s.queue, Deregister(addr, len), nexthop, resolvable);
  }

  // ---- Invalidation -------------------------------------------------------------------

  lemma ReregisterRemembers(s: State, nexthop: Addr, refCnt: int, resolvable: bool, metric: nat)
    requires Inv(s) && !Covered(s.cache, nexthop)
    requires ReregisterNexthop(s, nexthop, refCnt, resolvable, metric).Next?
    ensures var s' := ReregisterNexthop(s, nexthop, refCnt, resolvable, metric).value;
            s'.cache == s.cache && Remembers(s'.queue, nexthop, resolvable)
  {
    var s' := ReregisterNexthop(s, nexthop, refCnt, resolvable, metric).value;
    if RegisterIndex(s.queue, nexthop).Some? {
      var i := RegisterIndex(s.queue, nexthop).value;
      assert s'.queue[i].reregister;
    } else {
      assert s'.queue[|s.queue|] == Register(nexthop, false, NO_REQUESTS, true, refCnt, resolvable, metric);
    }
  }

  lemma ReregisterKeepsMemory(
    s: State, other: Addr, refCnt: int, r: bool, metric: nat, nexthop: Addr, resolvable: bool)
    requires Inv(s) && !Covered(s.cache, other) && Remembers(s.queue, nexthop, resolvable)
    requires ReregisterNexthop(s, other, refCnt, r, metric).Next?
    ensures Remembers(ReregisterNexthop(s, other, refCnt, r, metric).value.queue, nexthop, resolvable)
  {
    if RegisterIndex(s.queue, other).Some? {
      var i := RegisterIndex(s.queue, other).value;
      RememberUpdate(s.queue, i,
        s.queue[i].(reregister := true, refCnt := refCnt, resolvable := r, metric := metric), nexthop, resolvable);
    } else {
      RememberAppend(s.queue, Register(other, false, NO_REQUESTS, true, refCnt, r, metric), nexthop, resolvable);
    }
  }

  /** The next hops of an entry that left the cache are covered by nothing that stayed. */
  ghost predicate Evicted(c: Cache, e: Entry) {
    forall nh | nh in e.refs :: e.refs[nh] > 0 && !Covered(c, nh)
  }

  lemma RangeEvicted(s: State, n: Net)
    requires Inv(s) && n in s.cache
    ensures Inv(s.(cache := s.cache - {n})) && Evicted(s.cache - {n}, s.cache[n])
  {
    assert EntryOk(n, s.cache[n]);
    RemoveKeepsCache(s.cache, n);
    HeadStaysUncovered(s.cache, s.cache - {n}, s.queue);
    forall nh | nh in s.cache[n].refs ensures !Covered(s.cache - {n}, nh) { RemoveAt(s.cache, n, nh); }
  }

  /** Re-registering a whole range remembers each of its next hops and forgets no other. */
  lemma {:induction false} ReregisterAllRemembers(
    s: State, nexthops: seq<Addr>, e: Entry, nexthop: Addr, resolvable: bool)
    requires Inv(s) && Evicted(s.cache, e) && (forall nh | nh in nexthops :: nh in e.refs)
    requires ReregisterAll(s, nexthops, e).Next?
    requires Remembers(s.queue, nexthop, resolvable) || (nexthop in nexthops && resolvable == e.resolvable)
    ensures var s' := ReregisterAll(s, nexthops, e).value;
            s'.cache == s.cache && Remembers(s'.queue, nexthop, resolvable)
    decreases |nexthops|
  {
    if nexthops != [] {
      var nh := nexthops[0];
      ReregisterKeeps(s, nh, e.refs[nh], e.resolvable, e.metric);
      ReregisterRemembers(s, nh, e.refs[nh], e.resolvable, e.metric);
      if Remembers(s.queue, nexthop, resolvable) {
        ReregisterKeepsMemory(s, nh, e.refs[nh], e.resolvable, e.metric, nexthop, resolvable);
      }
      ReregisterAllRemembers(
        ReregisterNexthop(s, nh, e.refs[nh], e.resolvable, e.metric).value, nexthops[1..], e, nexthop, resolvable);
    }
  }

  /** After the RIB invalidates a range, every next hop it held waits in the queue with the old
      resolvability, and nothing in the cache covers it. */
  lemma InvalidationRemembers(s: State, addr: Addr, len: nat, nexthop: Addr)
    requires Inv(s) && len <= |addr| && MakeNet(addr, len) in s.cache
    requires nexthop in s.cache[MakeNet(addr, len)].refs
    requires RouteInfoInvalid(s, addr, len).Next?
    ensures var s' := RouteInfoInvalid(s, addr, len).value;
            && Remembers(s'.queue, nexthop, s.cache[MakeNet(addr, len)].resolvable)
            && !Covered(s'.cache, nexthop)
  {
    var n := MakeNet(addr, len);
    var e := s.cache[n];
    RangeEvicted(s, n);
    ReregisterAllRemembers(s.(cache := s.cache - {n}), InOrder(e.refs.Keys), e, nexthop, e.resolvable);
  }

  // ---- Every later step ---------------------------------------------------------------

  lemma InvalidateKeepsMemory(s: State, addr: Addr, len: nat, nexthop: Addr, resolvable: bool)
    requires Inv(s) && len <= |addr| && Remembers(s.queue, nexthop, resolvable)
    requires RouteInfoInvalid(s, addr, len).Next?
    ensures Remembers(RouteInfoInvalid(s, addr, len).value.queue, nexthop, resolvable)
    ensures RouteInfoInvalid(s, addr, len).value.cache.Keys <= s.cache.Keys
  {
    var n := MakeNet(addr, len);
    if n in s.cache {
      RangeEvicted(s, n);
      ReregisterAllRemembers(
        s.(cache := s.cache - {n}), InOrder(s.cache[n].refs.Keys), s.cache[n], nexthop, resolvable);
    } else if RouteInfoInvalid(s, addr, len).value.queue != s.queue {
      RememberErase(s.queue, DeregisterIndex(s.queue, addr, len).value, nexthop, resolvable);
    }
  }

  ghost predicate CutsOff(e: Event) {
    e.DeregisterReply? && e.code == ResolveFailed
  }

  /** Until the RIB answers, no step forgets, and no range is added to the cache. */
  lemma StepKeepsMemory(s: State, e: Event, nexthop: Addr, resolvable: bool)
    requires Inv(s) && s.ribnameSet && Legal(s, e) && Step(s, e).Next? && !e.RegisterReply? && !CutsOff(e)
    requires Remembers(s.queue, nexthop, resolvable)
    ensures Remembers(Step(s, e).value.queue, nexthop, resolvable)
    ensures Step(s, e).value.cache.Keys <= s.cache.Keys
  {
    match e
    case RegisterDowncall(nh, net, requester) => RegisterKeepsMemory(s, nh, net, requester, nexthop, resolvable);
    case DeregisterDowncall(nh, net, requester) => DeregisterKeepsMemory(s, nh, net, requester, nexthop, resolvable);
    case DeregisterReply(code, addr, len) => DeregisterReplyKeepsMemory(s, code, addr, len, nexthop, resolvable);
    case MetricChanged(addr, len, metric) =>
    case Invalidated(addr, len) => InvalidateKeepsMemory(s, addr, len, nexthop, resolvable);
  }

  lemma DeregisterReplyKeepsMemory(
    s: State, code: ReplyCode, addr: Addr, len: nat, nexthop: Addr, resolvable: bool)
    requires len <= |addr| && code != ResolveFailed && Remembers(s.queue, nexthop, resolvable)
    requires DeregisterInterestResponse(s, code, addr, len).Next?
    ensures Remembers(DeregisterInterestResponse(s, code, addr, len).value.queue, nexthop, resolvable)
    ensures DeregisterInterestResponse(s, code, addr, len).value.cache == s.cache
  {
    DeregisterReplyQueue(s, code, addr, len);
    RememberErase(s.queue, 0, nexthop, resolvable);
    assert s.queue[..0] + s.queue[1..] == s.queue[1..];
  }

  lemma DeregisterReplyQueue(s: State, code: ReplyCode, addr: Addr, len: nat)
    requires len <= |addr| && code != ResolveFailed
    requires DeregisterInterestResponse(s, code, addr, len).Next?
    ensures s.queue != [] && s.queue[0].Deregister?
    ensures DeregisterInterestResponse(s, code, addr, len).value.queue == s.queue[1..]
    ensures DeregisterInterestResponse(s, code, addr, len).value.cache == s.cache
  {
  }

  lemma RegisterKeepsMemory(s: State, nh: Addr, net: Net, requester: nat, nexthop: Addr, resolvable: bool)
    requires Inv(s) && s.ribnameSet && Remembers(s.queue, nexthop, resolvable)
    requires RegisterNexthop(s, nh, net, requester).Next?
    ensures Remembers(RegisterNexthop(s, nh, net, requester).value.queue, nexthop, resolvable)
    ensures RegisterNexthop(s, nh, net, requester).value.cache.Keys <= s.cache.Keys
  {
    if Covered(s.cache, nh) {
    } else if RegisterIndex(s.queue, nh).Some? {
      var i := RegisterIndex(s.queue, nh).value;
      var r := s.queue[i];
      RememberUpdate(s.queue, i, r.(newRegister := true, requests := AddRequest(r.requests, net, requester)),
        nexthop, resolvable);
    } else {
      RememberAppend(s.queue, Register(nh, true, AddRequest(NO_REQUESTS, net, requester), false, 0, false, 0),
        nexthop, resolvable);
    }
  }

  lemma DeregisterKeepsMemory(s: State, nh: Addr, net: Net, requester: nat, nexthop: Addr, resolvable: bool)
    requires Inv(s) && s.ribnameSet && Remembers(s.queue, nexthop, resolvable)
    requires DeregisterNexthop(s, nh, net, requester).Next?
    ensures Remembers(DeregisterNexthop(s, nh, net, requester).value.queue, nexthop, resolvable)
    ensures DeregisterNexthop(s, nh, net, requester).value.cache.Keys <= s.cache.Keys
  {
    if Holder(s.cache, nh).Some? {
      DeregisterKeepsCache(s.cache, nh);
      var e := s.cache[Holder(s.cache, nh).value];
      var c := CacheDeregister(s.cache, nh).0;
      RememberDeregisterFromRib(s.(cache := c), e.address, e.prefixLen, nexthop, resolvable);
    } else {
      var i := RegisterIndex(s.queue, nh).value;
      var d := EntryDeregister(s.queue[i], net, requester);
      if d.value.Some? { RememberUpdate(s.queue, i, d.value.value, nexthop, resolvable); }
    }
  }

  // ---- When the answer arrives --------------------------------------------------------

  lemma {:induction false} DrainOnlyRemoves(p: Pass, i: nat, newNet: Net, r: Request)
    requires DrainInv(p, i, newNet) && Drain(true, p, i).Next? && r in Drain(true, p, i).value.queue
    ensures r in p.queue
    decreases |p.queue| - i
  {
    if i < |p.queue| {
      if p.queue[i].Deregister? {
        DrainOnlyRemoves(p, i + 1, newNet, r);
      } else if Covered(p.cache, p.queue[i].nexthop) {
        var p' := DrainTurn(p, i, newNet);
        DrainOnlyRemoves(p', i, newNet, r);
      }
    }
  }

  lemma {:induction false} NoMatchNoRefs(q: seq<Request>, nexthop: Addr)
    requires forall r | r in q :: !Matches(r, nexthop)
    ensures QueueRefs(q, nexthop) == 0
  {
    if q != [] {
      assert q[0] in q;
      NoMatchNoRefs(q[1..], nexthop);
    }
  }

  lemma TakeAnswerOnlyRemoves(s: State, e: Entry, r: Request)
    requires CacheOk(s.cache) && AllReferenced(s.cache) && QueueOk(s.queue)
    requires s.ribnameSet && FreshAnswer(s.cache, e)
    requires r.Register? && TakeAnswer(s, e).Next? && r in TakeAnswer(s, e).value.queue
    ensures r in s.queue
  {
    var n := MakeNet(e.address, e.prefixLen);
    FreshAnswerIsNew(s.cache, e);
    AddKeepsCache(s.cache, n, e);
    var p0 := Pass(s.cache[n := e], s.queue, s.upcalls);
    DrainKeeps(p0, 0, n);
    var p := Drain(true, p0, 0).value;
    assert r in p.queue;
    DrainOnlyRemoves(p0, 0, n, r);
  }

  /** A registration left in the queue by an answer was there before, unchanged. */
  lemma ReplyOnlyRemoves(s: State, e: Event, r: Request)
    requires Inv(s) && s.ribnameSet && e.RegisterReply? && Legal(s, e) && Step(s, e).Next?
    requires r.Register? && r in Step(s, e).value.queue
    ensures r in s.queue
  {
    LegalAnswerStep(s, e);
    LegalAnswerFits(s, e);
    if s.invalid.None? { TakeAnswerOnlyRemoves(s.(replies := s.replies + 1), AnswerOf(e), r); }
  }

  /** An answer from the RIB either leaves a remembered next hop waiting, or gives it a cached
      answer, or finds that no reference to it is left. */
  lemma ReplySettlesMemory(s: State, e: Event, nexthop: Addr, resolvable: bool)
    requires Inv(s) && s.ribnameSet && e.RegisterReply? && Legal(s, e) && Step(s, e).Next?
    requires Remembers(s.queue, nexthop, resolvable)
    ensures var s' := Step(s, e).value;
            Remembers(s'.queue, nexthop, resolvable) || Holder(s'.cache, nexthop).Some? || Refs(s, nexthop) == 0
  {
    var s' := Step(s, e).value;
    if !Remembers(s'.queue, nexthop, resolvable) {
      forall r | r in s'.queue && r.Register? ensures r in s.queue { ReplyOnlyRemoves(s, e, r); }
      NoMatchNoRefs(s'.queue, nexthop);
      RegisterReplyRefs(s, e, nexthop);
    }
  }

  // ---- Whole runs ---------------------------------------------------------------------

  ghost predicate NoMatch(q: seq<Request>, nexthop: Addr) {
    forall r | r in q :: !Matches(r, nexthop)
  }

  /** Lookup has something to go by: a waiting re-registration, or a counted answer and nothing
      waiting that would outlive it. */
  ghost predicate Answerable(s: State, nexthop: Addr) {
    || Remembers(s.queue, nexthop, true)
    || Remembers(s.queue, nexthop, false)
    || (Holder(s.cache, nexthop).Some? && NoMatch(s.queue, nexthop))
  }

  lemma AnswerableIsAnswered(s: State, nexthop: Addr)
    requires Inv(s) && s.ribnameSet && Answerable(s, nexthop)
    ensures Lookup(true, s.cache, s.queue, nexthop).Some?
  {
    if Remembers(s.queue, nexthop, true) {
      RememberedIsAnswered(s, nexthop, true);
    } else if Remembers(s.queue, nexthop, false) {
      RememberedIsAnswered(s, nexthop, false);
    }
  }

  /** References that are not queued are counted in the cache. */
  lemma CountedUnlessQueued(s: State, nexthop: Addr)
    requires NoMatch(s.queue, nexthop) && Refs(s, nexthop) > 0
    ensures Holder(s.cache, nexthop).Some?
  {
    NoMatchNoRefs(s.queue, nexthop);
  }

  /** A reply that ends the memory of a next hop leaves nothing queued for it. */
  lemma ReplyForgetsAll(s: State, e: Event, nexthop: Addr, resolvable: bool)
    requires Inv(s) && s.ribnameSet && e.RegisterReply? && Legal(s, e) && Step(s, e).Next?
    requires Remembers(s.queue, nexthop, resolvable) && !Remembers(Step(s, e).value.queue, nexthop, resolvable)
    ensures NoMatch(Step(s, e).value.queue, nexthop)
  {
    forall r | r in Step(s, e).value.queue && r.Register? ensures r in s.queue { ReplyOnlyRemoves(s, e, r); }
  }

  /** A remembered next hop is still remembered after a step that leaves it referenced and not
      counted in the cache. */
  lemma StepKeepsOldAnswer(s: State, e: Event, nexthop: Addr, resolvable: bool)
    requires Inv(s) && s.ribnameSet && Legal(s, e) && Step(s, e).Next?
    requires Remembers(s.queue, nexthop, resolvable) && Refs(Step(s, e).value, nexthop) > 0
    ensures var s' := Step(s, e).value;
            Remembers(s'.queue, nexthop, resolvable) || (Holder(s'.cache, nexthop).Some? && NoMatch(s'.queue, nexthop))
  {
    var s' := Step(s, e).value;
    if e.RegisterReply? {
      if !Remembers(s'.queue, nexthop, resolvable) {
        ReplyForgetsAll(s, e, nexthop, resolvable);
        CountedUnlessQueued(s', nexthop);
      }
    } else if CutsOff(e) {
      assert s'.queue == [];
      CountedUnlessQueued(s', nexthop);
    } else {
      StepKeepsMemory(s, e, nexthop, resolvable);
    }
  }

  // What a step queues when nothing is queued for the next hop.

  lemma {:induction false} ReregisterAllNoMatch(s: State, nexthops: seq<Addr>, e: Entry, nexthop: Addr)
    requires NoMatch(s.queue, nexthop) && nexthop !in nexthops && (forall nh | nh in nexthops :: nh in e.refs)
    requires ReregisterAll(s, nexthops, e).Next?
    ensures NoMatch(ReregisterAll(s, nexthops, e).value.queue, nexthop)
    decreases |nexthops|
  {
    if nexthops != [] {
      var nh := nexthops[0];
      var s1 := ReregisterNexthop(s, nh, e.refs[nh], e.resolvable, e.metric).value;
      assert NoMatch(s1.queue, nexthop) by {
        forall r | r in s1.queue ensures !Matches(r, nexthop) {
          if r !in s.queue { assert r.Register? && r.nexthop == nh; }
        }
      }
      ReregisterAllNoMatch(s1, nexthops[1..], e, nexthop);
    }
  }

  /** An invalidation either queues a counted next hop with its resolvability, or leaves it alone. */
  lemma InvalidateCounted(s: State, addr: Addr, len: nat, nexthop: Addr)
    requires Inv(s) && len <= |addr| && RouteInfoInvalid(s, addr, len).Next?
    requires Holder(s.cache, nexthop).Some? && NoMatch(s.queue, nexthop)
    ensures var s' := RouteInfoInvalid(s, addr, len).value;
            NoMatch(s'.queue, nexthop) || Remembers(s'.queue, nexthop, true) || Remembers(s'.queue, nexthop, false)
  {
    var n := MakeNet(addr, len);
    if n in s.cache {
      if nexthop in s.cache[n].refs {
        InvalidationRemembers(s, addr, len, nexthop);
      } else {
        ReregisterAllNoMatch(s.(cache := s.cache - {n}), InOrder(s.cache[n].refs.Keys), s.cache[n], nexthop);
      }
    }
  }

  lemma RegisterNoMatch(s: State, nh: Addr, net: Net, requester: nat, nexthop: Addr)
    requires s.ribnameSet && RegisterNexthop(s, nh, net, requester).Next?
    requires Covered(s.cache, nexthop) && NoMatch(s.queue, nexthop)
    ensures NoMatch(RegisterNexthop(s, nh, net, requester).value.queue, nexthop)
  {
    forall r | r in RegisterNexthop(s, nh, net, requester).value.queue ensures !Matches(r, nexthop) {
      if r !in s.queue { assert r.Register? && r.nexthop == nh && !Covered(s.cache, nh); }
    }
  }

  lemma DeregisterNoMatch(s: State, nh: Addr, net: Net, requester: nat, nexthop: Addr)
    requires s.ribnameSet && DeregisterNexthop(s, nh, net, requester).Next? && NoMatch(s.queue, nexthop)
    ensures NoMatch(DeregisterNexthop(s, nh, net, requester).value.queue, nexthop)
  {
    if Holder(s.cache, nh).None? {
      var i := RegisterIndex(s.queue, nh).value;
      assert s.queue[i] in s.queue;
    }
  }

  lemma StepKeepsCounted(s: State, e: Event, nexthop: Addr)
    requires Inv(s) && s.ribnameSet && Legal(s, e) && Step(s, e).Next?
    requires Holder(s.cache, nexthop).Some? && NoMatch(s.queue, nexthop) && Refs(Step(s, e).value, nexthop) > 0
    ensures Answerable(Step(s, e).value, nexthop)
  {
    var s' := Step(s, e).value;
    if e.RegisterReply? {
      forall r | r in s'.queue ensures !Matches(r, nexthop) {
        if Matches(r, nexthop) { ReplyOnlyRemoves(s, e, r); }
      }
    } else if e.Invalidated? {
      InvalidateCounted(s, e.addr, e.len, nexthop);
    } else if e.RegisterDowncall? {
      RegisterNoMatch(s, e.nexthop, e.net, e.requester, nexthop);
    } else if e.DeregisterDowncall? {
      DeregisterNoMatch(s, e.nexthop, e.net, e.requester, nexthop);
    } else if e.DeregisterReply? && !CutsOff(e) {
      DeregisterReplyQueue(s, e.code, e.addr, e.len);
    }
    if NoMatch(s'.queue, nexthop) { CountedUnlessQueued(s', nexthop); }
  }

  lemma StepKeepsAnswerable(s: State, e: Event, nexthop: Addr)
    requires Inv(s) && s.ribnameSet && Legal(s, e) && Step(s, e).Next?
    requires Answerable(s, nexthop) && Refs(Step(s, e).value, nexthop) > 0
    ensures Answerable(Step(s, e).value, nexthop)
  {
    if Remembers(s.queue, nexthop, true) {
      StepKeepsOldAnswer(s, e, nexthop, true);
    } else if Remembers(s.queue, nexthop, false) {
      StepKeepsOldAnswer(s, e, nexthop, false);
    } else {
      StepKeepsCounted(s, e, nexthop);
    }
  }

  /** The next hop is referenced in every state of the run after the first. */
  ghost predicate StaysReferenced(s: State, es: seq<Event>, nexthop: Addr)
    requires Runs(s, es)
    decreases |es|
  {
    es == [] || (var s1 := Step(s, es[0]).value; Refs(s1, nexthop) > 0 && StaysReferenced(s1, es[1..], nexthop))
  }

  /** No state of the run after the first counts the next hop in the cache: no answer has come. */
  ghost predicate StaysUncounted(s: State, es: seq<Event>, nexthop: Addr)
    requires Runs(s, es)
    decreases |es|
  {
    es == [] || (
      var s1 := Step(s, es[0]).value;
      Holder(s1.cache, nexthop).None? && StaysUncounted(s1, es[1..], nexthop))
  }

  lemma {:induction false} RunKeepsAnswerable(s: State, es: seq<Event>, nexthop: Addr)
    requires Inv(s) && s.ribnameSet && Runs(s, es) && Answerable(s, nexthop) && StaysReferenced(s, es, nexthop)
    ensures Answerable(Final(s, es), nexthop)
    decreases |es|
  {
    if es != [] {
      StepKeepsInv(s, es[0]);
      StepKeepsAnswerable(s, es[0], nexthop);
      RunKeepsAnswerable(Step(s, es[0]).value, es[1..], nexthop);
    }
  }

  lemma {:induction false} RunKeepsMemory(s: State, es: seq<Event>, nexthop: Addr, resolvable: bool)
    requires Inv(s) && s.ribnameSet && Runs(s, es) && Remembers(s.queue, nexthop, resolvable)
    requires StaysReferenced(s, es, nexthop) && StaysUncounted(s, es, nexthop)
    ensures Remembers(Final(s, es).queue, nexthop, resolvable)
    decreases |es|
  {
    if es != [] {
      StepKeepsInv(s, es[0]);
      StepKeepsOldAnswer(s, es[0], nexthop, resolvable);
      RunKeepsMemory(Step(s, es[0]).value, es[1..], nexthop, resolvable);
    }
  }

  /** Invalidation keeps answers: whatever happens after the RIB invalidates a range, replies of
      every kind included, a next hop of the range is answered as long as it is referenced; and with
      the old resolvability as long as no answer has been counted for it. */
  lemma InvalidationKeepsAnswers(es: seq<Event>, addr: Addr, len: nat, nexthop: Addr, later: seq<Event>)
    requires Runs(Init(true), es) && len <= |addr|
    requires var s := Final(Init(true), es);
             && MakeNet(addr, len) in s.cache && nexthop in s.cache[MakeNet(addr, len)].refs
             && Step(s, Invalidated(addr, len)).Next?
             && Runs(Step(s, Invalidated(addr, len)).value, later)
             && StaysReferenced(Step(s, Invalidated(addr, len)).value, later, nexthop)
    ensures var s := Final(Init(true), es);
            var s1 := Step(s, Invalidated(addr, len)).value;
            var f := Final(s1, later);
            && Lookup(true, f.cache, f.queue, nexthop).Some?
            && (StaysUncounted(s1, later, nexthop) ==>
                  Lookup(true, f.cache, f.queue, nexthop).value.0 == s.cache[MakeNet(addr, len)].resolvable)
  {
    var s := Final(Init(true), es);
    var resolvable := s.cache[MakeNet(addr, len)].resolvable;
    InitInv();
    RunKeepsInv(Init(true), es);
    StepKeepsInv(s, Invalidated(addr, len));
    InvalidationRemembers(s, addr, len, nexthop);
    var s1 := Step(s, Invalidated(addr, len)).value;
    RunKeepsInv(s1, later);
    RunKeepsAnswerable(s1, later, nexthop);
    AnswerableIsAnswered(Final(s1, later), nexthop);
    if StaysUncounted(s1, later, nexthop) {
      RunKeepsMemory(s1, later, nexthop, resolvable);
      FinalUncounted(s1, later, nexthop);
      RememberedIsAnswered(Final(s1, later), nexthop, resolvable);
    }
  }

  lemma {:induction false} FinalUncounted(s: State, es: seq<Event>, nexthop: Addr)
    requires Runs(s, es) && Holder(s.cache, nexthop).None? && StaysUncounted(s, es, nexthop)
    ensures Holder(Final(s, es).cache, nexthop).None?
    decreases |es|
  {
    if es != [] { FinalUncounted(Step(s, es[0]).value, es[1..], nexthop); }
  }

  // ---- When invalidation aborts -------------------------------------------------------

  ghost predicate AlreadyReregistered(q: seq<Request>, nexthop: Addr) {
    RegisterIndex(q, nexthop).Some? && q[RegisterIndex(q, nexthop).value].reregister
  }

  lemma SameForOthers(q: seq<Request>, q': seq<Request>, other: Addr)
    requires |q| <= |q'|
    requires forall i | 0 <= i < |q'| && Matches(q'[i], other) :: i < |q| && q'[i] == q[i]
    requires forall i | 0 <= i < |q| && Matches(q[i], other) :: q'[i] == q[i]
    ensures AlreadyReregistered(q', other) <==> AlreadyReregistered(q, other)
  {
    assert forall i | 0 <= i < |q| :: Matches(q[i], other) <==> Matches(q'[i], other);
    if RegisterIndex(q, other).Some? { assert Matches(q'[RegisterIndex(q, other).value], other); }
  }

  lemma ReregisterOthers(s: State, nh: Addr, refCnt: int, r: bool, metric: nat, other: Addr)
    requires Inv(s) && !Covered(s.cache, nh) && other != nh
    requires ReregisterNexthop(s, nh, refCnt, r, metric).Next?
    ensures AlreadyReregistered(ReregisterNexthop(s, nh, refCnt, r, metric).value.queue, other)
       <==> AlreadyReregistered(s.queue, other)
  {
    SameForOthers(s.queue, ReregisterNexthop(s, nh, refCnt, r, metric).value.queue, other);
  }

  lemma {:induction false} ReregisterAllAborts(s: State, nexthops: seq<Addr>, e: Entry)
    requires Inv(s) && Evicted(s.cache, e) && Distinct(nexthops) && (forall nh | nh in nexthops :: nh in e.refs)
    ensures ReregisterAll(s, nexthops, e).Abort? <==> exists nh :: nh in nexthops && AlreadyReregistered(s.queue, nh)
    decreases |nexthops|
  {
    if nexthops != [] {
      var nh := nexthops[0];
      if !AlreadyReregistered(s.queue, nh) {
        assert RegisterIndex(s.queue, nh).Some? ==> RegisterOk(s.queue[RegisterIndex(s.queue, nh).value]);
        var s1 := ReregisterNexthop(s, nh, e.refs[nh], e.resolvable, e.metric).value;
        ReregisterKeeps(s, nh, e.refs[nh], e.resolvable, e.metric);
        ReregisterRemembers(s, nh, e.refs[nh], e.resolvable, e.metric);
        forall other | other in nexthops[1..]
          ensures AlreadyReregistered(s1.queue, other) <==> AlreadyReregistered(s.queue, other) {
          ReregisterOthers(s, nh, e.refs[nh], e.resolvable, e.metric, other);
        }
        ReregisterAllAborts(s1, nexthops[1..], e);
        assert forall x :: x in nexthops <==> x == nh || x in nexthops[1..];
      }
    }
  }

  /** Invalidating a cached range aborts exactly when one of its next hops also has a
      re-registration waiting in the queue: the entry would be re-registered twice. */
  lemma InvalidationAborts(s: State, n: Net)
    requires Inv(s) && n in s.cache
    ensures RouteInfoInvalid(s, s.cache[n].address, s.cache[n].prefixLen).Abort?
       <==> exists nh :: nh in s.cache[n].refs && AlreadyReregistered(s.queue, nh)
  {
    var e := s.cache[n];
    assert EntryOk(n, e);
    RangeEvicted(s, n);
    InOrderDistinct(e.refs.Keys);
    ReregisterAllAborts(s.(cache := s.cache - {n}), InOrder(e.refs.Keys), e);
  }

  /** A reply to a deregistration fires no assertion about the queue: it aborts only on an XRL
      error, or when the saved invalidation names another range. */
  lemma DeregisterReplyAborts(s: State, code: ReplyCode, addr: Addr, len: nat)
    requires Inv(s) && Legal(s, DeregisterReply(code, addr, len))
    ensures Step(s, DeregisterReply(code, addr, len)).Abort? <==>
            || code == OtherError
            || (code == CommandFailed && s.invalid.Some?
                && !(|s.invalid.value| == len && addr == MaskedAddr(s.invalid.value, |addr|)))
  {
  }
}
