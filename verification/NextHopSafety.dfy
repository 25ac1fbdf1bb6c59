/** Whole runs of the next-hop resolver. */
module NextHopSafety {
  import opened Wrappers
  import opened Nets
  import opened NextHopModel
  import opened NextHopInvariant

  /** What can happen to the resolver: downcalls from the route tables, answers from the RIB and
      notices from the RIB. */
  datatype Event =
    | RegisterDowncall(nexthop: Addr, net: Net, requester: nat)
    | DeregisterDowncall(nexthop: Addr, net: Net, requester: nat)
    | RegisterReply(code: ReplyCode, resolves: bool, addr: Addr, len: nat, realLen: nat, metric: nat)
    | DeregisterReply(code: ReplyCode, addr: Addr, len: nat)
    | MetricChanged(addr: Addr, len: nat, metric: nat)
    | Invalidated(addr: Addr, len: nat)

  /** The RIB answers the request it was sent last, once. An answer is a range that holds the
      next hop asked for and overlaps no range the cache still holds. */
  ghost predicate Legal(s: State, e: Event) {
    match e
    case RegisterDowncall(_, _, _) => true
    case DeregisterDowncall(_, _, _) => true
    case RegisterReply(code, _, addr, len, realLen, _) =>
      && s.replies < |s.calls| && s.calls[|s.calls| - 1].RegisterInterest?
      && len <= |addr| && realLen <= |addr|
      && var nexthop := s.calls[|s.calls| - 1].nexthop;
      && len <= |nexthop| && addr == MaskByPrefixLen(nexthop, len)
      && forall m | m in s.cache :: Disjoint(m, MakeNet(addr, len))
    case DeregisterReply(code, addr, len) =>
      && s.replies < |s.calls| && s.calls[|s.calls| - 1] == DeregisterInterest(addr, len)
      && len <= |addr|
    case MetricChanged(addr, len, _) => len <= |addr|
    case Invalidated(addr, len) => len <= |addr|
  }

  ghost function Step(s: State, e: Event): Outcome<State>
    requires Legal(s, e)
  {
    match e
    case RegisterDowncall(nh, net, requester) => RegisterNexthop(s, nh, net, requester)
    case DeregisterDowncall(nh, net, requester) => DeregisterNexthop(s, nh, net, requester)
    case RegisterReply(code, resolves, addr, len, realLen, metric) =>
      RegisterInterestResponse(s, code, resolves, addr, len, realLen, metric)
    case DeregisterReply(code, addr, len) => DeregisterInterestResponse(s, code, addr, len)
    case MetricChanged(addr, len, metric) => RouteInfoChanged(s, addr, len, metric)
    case Invalidated(addr, len) => RouteInfoInvalid(s, addr, len)
  }

  // ---- Queue operations ---------------------------------------------------------------

  lemma EnqueueKeeps(s: State, r: Request)
    requires Inv(s)
    requires r.Register? ==> RegisterOk(r) && RegisterIndex(s.queue, r.nexthop).None? && !Covered(s.cache, r.nexthop)
    ensures Inv(Enqueue(s, r))
  {
    FirstRegisterConcat(s.queue, [r]);
  }

  lemma EnqueueRefs(s: State, r: Request, a: Addr)
    ensures Refs(Enqueue(s, r), a) == Refs(s, a) + RequestRefs(r, a)
  {
    QueueRefsConcat(s.queue, [r], a);
  }

  lemma DeregisterFromRibKeeps(s: State, addr: Addr, len: nat)
    requires Inv(s)
    ensures Inv(DeregisterFromRib(s, addr, len))
  {
    if DeregisterIndex(s.queue, addr, len).None? { EnqueueKeeps(s, Deregister(addr, len)); }
  }

  lemma DeregisterFromRibRefs(s: State, addr: Addr, len: nat, a: Addr)
    ensures Refs(DeregisterFromRib(s, addr, len), a) == Refs(s, a)
  {
    EnqueueRefs(s, Deregister(addr, len), a);
  }

  /** A queued registration may change its counters in place. */
  lemma UpdateKeeps(s: State, i: nat, r: Request)
    requires Inv(s) && i < |s.queue| && s.queue[i].Register?
    requires r.Register? && r.nexthop == s.queue[i].nexthop && RegisterOk(r)
    ensures Inv(s.(queue := s.queue[i := r]))
  {
    FirstRegisterUpdate(s.queue, i, r);
  }

  // ---- Downcalls ----------------------------------------------------------------------

  lemma RegisterKeeps(s: State, nexthop: Addr, net: Net, requester: nat)
    requires Inv(s)
    ensures var o := RegisterNexthop(s, nexthop, net, requester);
            o.Next? && Inv(o.value) && o.value.ribnameSet == s.ribnameSet
  {
    if !s.ribnameSet {
    } else if Covered(s.cache, nexthop) {
      RegisterKeepsCache(s.cache, nexthop, 1);
      HeadStaysUncovered(s.cache, CacheRegister(s.cache, nexthop, 1).value, s.queue);
    } else if RegisterIndex(s.queue, nexthop).Some? {
      var i := RegisterIndex(s.queue, nexthop).value;
      var r := s.queue[i];
      assert RegisterOk(r);
      UpdateKeeps(s, i, r.(newRegister := true, requests := AddRequest(r.requests, net, requester)));
    } else {
      EnqueueKeeps(s, Register(nexthop, true, AddRequest(NO_REQUESTS, net, requester), false, 0, false, 0));
    }
  }

  lemma RegisterRefs(s: State, nexthop: Addr, net: Net, requester: nat, a: Addr)
    requires s.ribnameSet && RegisterNexthop(s, nexthop, net, requester).Next?
    ensures Refs(RegisterNexthop(s, nexthop, net, requester).value, a)
         == Refs(s, a) + if a == nexthop then 1 else 0
  {
    if Covered(s.cache, nexthop) {
      RegisterAt(s.cache, nexthop, 1, a);
    } else if RegisterIndex(s.queue, nexthop).Some? {
      var i := RegisterIndex(s.queue, nexthop).value;
      var r := s.queue[i];
      QueueRefsUpdate(s.queue, i, r.(newRegister := true, requests := AddRequest(r.requests, net, requester)), a);
    } else {
      EnqueueRefs(s, Register(nexthop, true, AddRequest(NO_REQUESTS, net, requester), false, 0, false, 0), a);
    }
  }

  lemma DeregisterKeeps(s: State, nexthop: Addr, net: Net, requester: nat)
    requires Inv(s) && DeregisterNexthop(s, nexthop, net, requester).Next?
    ensures var s' := DeregisterNexthop(s, nexthop, net, requester).value;
            Inv(s') && s'.ribnameSet == s.ribnameSet
  {
    if !s.ribnameSet {
    } else if Holder(s.cache, nexthop).Some? {
      var (c, last) := CacheDeregister(s.cache, nexthop);
      var e := s.cache[Holder(s.cache, nexthop).value];
      DeregisterKeepsCache(s.cache, nexthop);
      HeadStaysUncovered(s.cache, c, s.queue);
      DeregisterFromRibKeeps(s.(cache := c), e.address, e.prefixLen);
    } else {
      var i := RegisterIndex(s.queue, nexthop).value;
      var d := EntryDeregister(s.queue[i], net, requester);
      assert RegisterOk(s.queue[i]);
      if d.value.Some? { UpdateKeeps(s, i, d.value.value); }
    }
  }

  lemma DeregisterRefs(s: State, nexthop: Addr, net: Net, requester: nat, a: Addr)
    requires Inv(s) && s.ribnameSet && DeregisterNexthop(s, nexthop, net, requester).Next?
    ensures Refs(DeregisterNexthop(s, nexthop, net, requester).value, a)
         == Refs(s, a) - if a == nexthop && DeregisterFinds(s, nexthop, net, requester) then 1 else 0
  {
    if Holder(s.cache, nexthop).Some? {
      var (c, last) := CacheDeregister(s.cache, nexthop);
      var e := s.cache[Holder(s.cache, nexthop).value];
      DeregisterAt(s.cache, nexthop, a);
      DeregisterFromRibRefs(s.(cache := c), e.address, e.prefixLen, a);
    } else {
      var i := RegisterIndex(s.queue, nexthop).value;
      var d := EntryDeregister(s.queue[i], net, requester);
      if d.value.Some? { QueueRefsUpdate(s.queue, i, d.value.value, a); }
    }
  }

  // ---- Notices from the RIB -----------------------------------------------------------

  lemma ReregisterKeeps(s: State, nexthop: Addr, refCnt: int, resolvable: bool, metric: nat)
    requires Inv(s) && refCnt > 0 && ReregisterNexthop(s, nexthop, refCnt, resolvable, metric).Next?
    ensures var s' := ReregisterNexthop(s, nexthop, refCnt, resolvable, metric).value;
            Inv(s') && s'.ribnameSet == s.ribnameSet
  {
    if Covered(s.cache, nexthop) {
      RegisterKeepsCache(s.cache, nexthop, refCnt);
      HeadStaysUncovered(s.cache, CacheRegister(s.cache, nexthop, refCnt).value, s.queue);
    } else if RegisterIndex(s.queue, nexthop).Some? {
      var i := RegisterIndex(s.queue, nexthop).value;
      assert RegisterOk(s.queue[i]);
      UpdateKeeps(s, i, s.queue[i].(reregister := true, refCnt := refCnt, resolvable := resolvable, metric := metric));
    } else {
      EnqueueKeeps(s, Register(nexthop, false, NO_REQUESTS, true, refCnt, resolvable, metric));
    }
  }

  lemma ReregisterRefs(s: State, nexthop: Addr, refCnt: int, resolvable: bool, metric: nat, a: Addr)
    requires ReregisterNexthop(s, nexthop, refCnt, resolvable, metric).Next?
    ensures Refs(ReregisterNexthop(s, nexthop, refCnt, resolvable, metric).value, a)
         == Refs(s, a) + if a == nexthop then refCnt else 0
  {
    if Covered(s.cache, nexthop) {
      RegisterAt(s.cache, nexthop, refCnt, a);
    } else if RegisterIndex(s.queue, nexthop).Some? {
      var i := RegisterIndex(s.queue, nexthop).value;
      QueueRefsUpdate(s.queue, i,
        s.queue[i].(reregister := true, refCnt := refCnt, resolvable := resolvable, metric := metric), a);
    } else {
      EnqueueRefs(s, Register(nexthop, false, NO_REQUESTS, true, refCnt, resolvable, metric), a);
    }
  }

  ghost predicate Distinct(s: seq<Addr>) {
    forall i, j | 0 <= i < j < |s| :: s[i] != s[j]
  }

  lemma {:induction false} ReregisterAllKeeps(s: State, nexthops: seq<Addr>, e: Entry)
    requires Inv(s)
    requires forall nh | nh in nexthops :: nh in e.refs && e.refs[nh] > 0
    requires ReregisterAll(s, nexthops, e).Next?
    ensures var s' := ReregisterAll(s, nexthops, e).value;
            Inv(s') && s'.ribnameSet == s.ribnameSet
    decreases |nexthops|
  {
    if nexthops != [] {
      var nh := nexthops[0];
      ReregisterKeeps(s, nh, e.refs[nh], e.resolvable, e.metric);
      ReregisterAllKeeps(ReregisterNexthop(s, nh, e.refs[nh], e.resolvable, e.metric).value, nexthops[1..], e);
    }
  }

  lemma {:induction false} ReregisterAllRefs(s: State, nexthops: seq<Addr>, e: Entry, a: Addr)
    requires forall nh | nh in nexthops :: nh in e.refs
    requires Distinct(nexthops) && ReregisterAll(s, nexthops, e).Next?
    ensures Refs(ReregisterAll(s, nexthops, e).value, a) == Refs(s, a) + if a in nexthops then e.refs[a] else 0
    decreases |nexthops|
  {
    if nexthops != [] {
      var nh := nexthops[0];
      ReregisterRefs(s, nh, e.refs[nh], e.resolvable, e.metric, a);
      ReregisterAllRefs(ReregisterNexthop(s, nh, e.refs[nh], e.resolvable, e.metric).value, nexthops[1..], e, a);
      assert a in nexthops <==> a == nh || a in nexthops[1..];
    }
  }

  lemma InOrderDistinct(keys: set<Net>)
    ensures Distinct(InOrder(keys))
  {
    var s := InOrder(keys);
    forall i, j | 0 <= i < j < |s| ensures s[i] != s[j] { PrecedesTotal(s[i], s[j]); }
  }

  /** A deregistration behind the front may be dropped. */
  lemma EraseKeeps(s: State, i: nat)
    requires Inv(s) && 0 < i < |s.queue| && s.queue[i].Deregister?
    ensures Inv(s.(queue := s.queue[..i] + s.queue[i + 1..]))
  {
    var q := s.queue[..i] + s.queue[i + 1..];
    FirstRegisterEraseDereg(s.queue, i);
    assert forall k | 0 <= k < |q| :: q[k] == s.queue[if k < i then k else k + 1];
  }

  lemma InvalidateKeeps(s: State, addr: Addr, len: nat)
    requires Inv(s) && len <= |addr| && RouteInfoInvalid(s, addr, len).Next?
    ensures var s' := RouteInfoInvalid(s, addr, len).value;
            Inv(s') && s'.ribnameSet == s.ribnameSet
  {
    if MakeNet(addr, len) in s.cache {
      EvictKeeps(s, MakeNet(addr, len));
    } else {
      UnknownRangeKeeps(s, addr, len);
    }
  }

  lemma EvictKeeps(s: State, n: Net)
    requires Inv(s) && n in s.cache
    requires ReregisterAll(s.(cache := s.cache - {n}), InOrder(s.cache[n].refs.Keys), s.cache[n]).Next?
    ensures var s' := ReregisterAll(s.(cache := s.cache - {n}), InOrder(s.cache[n].refs.Keys), s.cache[n]).value;
            Inv(s') && s'.ribnameSet == s.ribnameSet
  {
    assert EntryOk(n, s.cache[n]);
    RemoveKeepsCache(s.cache, n);
    HeadStaysUncovered(s.cache, s.cache - {n}, s.queue);
    ReregisterAllKeeps(s.(cache := s.cache - {n}), InOrder(s.cache[n].refs.Keys), s.cache[n]);
  }

  lemma UnknownRangeKeeps(s: State, addr: Addr, len: nat)
    requires Inv(s) && len <= |addr| && MakeNet(addr, len) !in s.cache && RouteInfoInvalid(s, addr, len).Next?
    ensures var s' := RouteInfoInvalid(s, addr, len).value;
            Inv(s') && s'.ribnameSet == s.ribnameSet
  {
    if RouteInfoInvalid(s, addr, len).value.queue != s.queue {
      EraseKeeps(s, DeregisterIndex(s.queue, addr, len).value);
    }
  }

  lemma EvictRefs(s: State, n: Net, a: Addr)
    requires Inv(s) && n in s.cache
    requires ReregisterAll(s.(cache := s.cache - {n}), InOrder(s.cache[n].refs.Keys), s.cache[n]).Next?
    ensures var o := ReregisterAll(s.(cache := s.cache - {n}), InOrder(s.cache[n].refs.Keys), s.cache[n]);
            Refs(o.value, a) == Refs(s, a)
  {
    var e := s.cache[n];
    RemoveAt(s.cache, n, a);
    if a in e.refs { HolderUnique(s.cache, n, a); }
    InOrderDistinct(e.refs.Keys);
    ReregisterAllRefs(s.(cache := s.cache - {n}), InOrder(e.refs.Keys), e, a);
  }

  /** The references of an invalidated range move; none appear or vanish. */
  lemma InvalidateRefs(s: State, addr: Addr, len: nat, a: Addr)
    requires Inv(s) && len <= |addr| && RouteInfoInvalid(s, addr, len).Next?
    ensures Refs(RouteInfoInvalid(s, addr, len).value, a) == Refs(s, a)
  {
    if MakeNet(addr, len) in s.cache {
      EvictRefs(s, MakeNet(addr, len), a);
    } else {
      UnknownRangeRefs(s, addr, len, a);
    }
  }

  lemma UnknownRangeRefs(s: State, addr: Addr, len: nat, a: Addr)
    requires len <= |addr| && MakeNet(addr, len) !in s.cache && RouteInfoInvalid(s, addr, len).Next?
    ensures Refs(RouteInfoInvalid(s, addr, len).value, a) == Refs(s, a)
  {
    if DeregisterIndex(s.queue, addr, len).Some? {
      QueueRefsErase(s.queue, DeregisterIndex(s.queue, addr, len).value, a);
    }
  }

  lemma ChangedKeeps(s: State, addr: Addr, len: nat, metric: nat)
    requires Inv(s) && len <= |addr| && RouteInfoChanged(s, addr, len, metric).Next?
    ensures var s' := RouteInfoChanged(s, addr, len, metric).value;
            Inv(s') && s'.ribnameSet == s.ribnameSet
  {
    var n := MakeNet(addr, len);
    assert EntryOk(n, s.cache[n]);
    UpdateKeepsCache(s.cache, n, s.cache[n].(metric := metric));
    HeadStaysUncovered(s.cache, s.cache[n := s.cache[n].(metric := metric)], s.queue);
  }

  lemma ChangedRefs(s: State, addr: Addr, len: nat, metric: nat, a: Addr)
    requires len <= |addr| && RouteInfoChanged(s, addr, len, metric).Next?
    ensures Refs(RouteInfoChanged(s, addr, len, metric).value, a) == Refs(s, a)
  {
    var s' := RouteInfoChanged(s, addr, len, metric).value;
    assert s'.cache.Keys == s.cache.Keys;
    SameKeysSameFind(s.cache, s'.cache, a);
  }

  // ---- Replies from the RIB -----------------------------------------------------------

  /** Once the deregistration at the front is answered, the next request goes out. */
  lemma PopFrontKeeps(s: State)
    requires Inv(s) && OneOutstanding(s) && s.queue != [] && s.queue[0].Deregister?
    ensures Inv(PopFront(s)) && PopFront(s).ribnameSet == s.ribnameSet
    ensures forall a :: QueueRefs(PopFront(s).queue, a) == QueueRefs(s.queue, a)
    ensures PopFront(s).cache == s.cache
  {
  }

  lemma DeregisterReplyStep(s: State, code: ReplyCode, addr: Addr, len: nat)
    requires Inv(s) && Legal(s, DeregisterReply(code, addr, len))
    requires DeregisterInterestResponse(s, code, addr, len).Next?
    ensures var s' := DeregisterInterestResponse(s, code, addr, len).value;
            && Inv(s') && s'.ribnameSet == s.ribnameSet
            && forall a :: Refs(s', a) == Refs(s, a) - if code == ResolveFailed then QueueRefs(s.queue, a) else 0
  {
    if code == Okay {
      PopFrontKeeps(s);
    } else if code == CommandFailed {
      PopFrontKeeps(NoteFailure(s, addr, len).value);
    }
  }

  /** Every entry but the fresh one is referenced. */
  ghost predicate ReferencedBut(c: Cache, newNet: Net) {
    forall m | m in c && m != newNet :: c[m].refs != map[]
  }

  lemma RegisterKeepsReferenced(c: Cache, nexthop: Addr, incr: int, newNet: Net)
    requires ReferencedBut(c, newNet) && Covered(c, nexthop)
    ensures ReferencedBut(CacheRegister(c, nexthop, incr).value, newNet)
  {
    var n := Find(c, nexthop).value;
    assert nexthop in AddRef(c[n], nexthop, incr).refs;
  }

  lemma SatisfyKeeps(p: Pass, r: Request, newNet: Net)
    requires CacheOk(p.cache) && ReferencedBut(p.cache, newNet)
    requires r.Register? && RegisterOk(r) && Covered(p.cache, r.nexthop)
    ensures var o := Satisfy(true, p, r);
            && o.Next? && o.value.queue == p.queue
            && CacheOk(o.value.cache) && o.value.cache.Keys == p.cache.Keys && ReferencedBut(o.value.cache, newNet)
  {
    var p1 := SatisfyNew(p, r);
    if r.newRegister && r.requests.total != 0 {
      RegisterKeepsCache(p.cache, r.nexthop, r.requests.total);
      RegisterKeepsReferenced(p.cache, r.nexthop, r.requests.total, newNet);
      CoveredAfterRegister(p.cache, r.nexthop, r.requests.total);
    }
    if r.reregister && r.refCnt != 0 {
      RegisterKeepsCache(p1.cache, r.nexthop, r.refCnt);
      RegisterKeepsReferenced(p1.cache, r.nexthop, r.refCnt, newNet);
      RegisterAt(p1.cache, r.nexthop, r.refCnt, r.nexthop);
    }
  }

  /** Handing an answer to one queued registration moves its references into the cache. */
  lemma SatisfyRefs(p: Pass, r: Request, a: Addr)
    requires r.Register? && RegisterOk(r) && Covered(p.cache, r.nexthop) && Satisfy(true, p, r).Next?
    ensures CacheRefs(Satisfy(true, p, r).value.cache, a) == CacheRefs(p.cache, a) + RequestRefs(r, a)
  {
    CoveredAfterRegister(p.cache, r.nexthop, r.requests.total);
    RegisterAt(p.cache, r.nexthop, r.requests.total, a);
    RegisterAt(SatisfyNew(p, r).cache, r.nexthop, r.refCnt, a);
  }

  /** What holds while a fresh answer is handed out: positions below i are deregistrations. */
  ghost predicate DrainInv(p: Pass, i: nat, newNet: Net) {
    && CacheOk(p.cache) && ReferencedBut(p.cache, newNet) && QueueOk(p.queue)
    && i <= |p.queue| && forall j | 0 <= j < i :: p.queue[j].Deregister?
  }

  lemma EraseKeepsQueue(q: seq<Request>, i: nat)
    requires QueueOk(q) && i < |q|
    ensures QueueOk(q[..i] + q[i + 1..])
  {
    var q' := q[..i] + q[i + 1..];
    assert forall k | 0 <= k < |q'| :: q'[k] == q[if k < i then k else k + 1];
  }

  function Erased(q: seq<Request>, i: nat): seq<Request>
    requires i < |q|
  {
    q[..i] + q[i + 1..]
  }

  /** One turn of the loop over the queue. */
  lemma DrainTurn(p: Pass, i: nat, newNet: Net) returns (p': Pass)
    requires DrainInv(p, i, newNet) && i < |p.queue| && p.queue[i].Register?
    requires Covered(p.cache, p.queue[i].nexthop)
    ensures Satisfy(true, p, p.queue[i]).Next?
    ensures p' == Satisfy(true, p, p.queue[i]).value.(queue := Erased(p.queue, i))
    ensures DrainInv(p', i, newNet) && p'.cache.Keys == p.cache.Keys
    ensures Drain(true, p, i) == Drain(true, p', i)
  {
    var r := p.queue[i];
    assert RegisterOk(r);
    SatisfyKeeps(p, r, newNet);
    EraseKeepsQueue(p.queue, i);
    DrainUnfold(true, p, i, Satisfy(true, p, r).value);
    p' := Satisfy(true, p, r).value.(queue := Erased(p.queue, i));
  }

  /** The loop never aborts, keeps the ranges, and leaves an uncovered registration in front. */
  lemma {:induction false} DrainKeeps(p: Pass, i: nat, newNet: Net)
    requires DrainInv(p, i, newNet)
    ensures Drain(true, p, i).Next?
    ensures var p' := Drain(true, p, i).value;
            && CacheOk(p'.cache) && p'.cache.Keys == p.cache.Keys && ReferencedBut(p'.cache, newNet)
            && QueueOk(p'.queue) && HeadUncovered(p'.cache, p'.queue)
    decreases |p.queue| - i
  {
    FirstRegisterAt(p.queue, i);
    if i < |p.queue| {
      if p.queue[i].Deregister? {
        DrainKeeps(p, i + 1, newNet);
      } else if Covered(p.cache, p.queue[i].nexthop) {
        var p' := DrainTurn(p, i, newNet);
        DrainKeeps(p', i, newNet);
      }
    }
  }

  lemma {:induction false} DrainRefs(p: Pass, i: nat, newNet: Net, a: Addr)
    requires DrainInv(p, i, newNet) && Drain(true, p, i).Next?
    ensures var p' := Drain(true, p, i).value;
            CacheRefs(p'.cache, a) + QueueRefs(p'.queue, a) == CacheRefs(p.cache, a) + QueueRefs(p.queue, a)
    decreases |p.queue| - i
  {
    if i < |p.queue| {
      if p.queue[i].Deregister? {
        DrainRefs(p, i + 1, newNet, a);
      } else if Covered(p.cache, p.queue[i].nexthop) {
        var p' := DrainTurn(p, i, newNet);
        SatisfyRefs(p, p.queue[i], a);
        QueueRefsErase(p.queue, i, a);
        DrainRefs(p', i, newNet, a);
      }
    }
  }

  function AnswerOf(e: Event): Entry
    requires e.RegisterReply?
  {
    Entry(e.addr, e.len, e.realLen, e.resolves, e.metric, map[])
  }

  /** A fresh answer overlaps nothing, so neither assertion of add_entry can fire. */
  ghost predicate FreshAnswer(c: Cache, e: Entry) {
    && e.prefixLen <= |e.address| && e.refs == map[]
    && EntryOk(MakeNet(e.address, e.prefixLen), e)
    && forall m | m in c :: Disjoint(m, MakeNet(e.address, e.prefixLen))
  }

  lemma FreshAnswerIsNew(c: Cache, e: Entry)
    requires CacheOk(c) && FreshAnswer(c, e)
    ensures MakeNet(e.address, e.prefixLen) !in c
    ensures forall m | m in c :: c[m].address != e.address
  {
    var n := MakeNet(e.address, e.prefixLen);
    forall m | m in c ensures c[m].address != e.address {
      assert EntryOk(m, c[m]);
      if c[m].address == e.address { PrefixesNested(m, n, e.address); }
    }
  }

  /** The request in flight is the registration at the front, so the answer fits it. */
  lemma LegalAnswerFits(s: State, e: Event)
    requires Inv(s) && e.RegisterReply? && Legal(s, e)
    ensures s.queue != [] && s.queue[0].Register?
    ensures e.len <= |s.queue[0].nexthop| && e.addr == MaskByPrefixLen(s.queue[0].nexthop, e.len)
    ensures MakeNet(e.addr, e.len) == MakeNet(s.queue[0].nexthop, e.len)
    ensures FreshAnswer(s.cache, AnswerOf(e))
  {
    var nexthop := s.queue[0].nexthop;
    assert e.addr == MakeNet(nexthop, e.len) + Zeros(|nexthop| - e.len);
    assert MakeNet(e.addr, e.len) == MakeNet(nexthop, e.len);
  }

  /** Between an answer and the next request: nothing is in flight but the flag is still up. */
  ghost predicate Settling(s: State) {
    && CacheOk(s.cache) && AllReferenced(s.cache) && QueueOk(s.queue) && HeadUncovered(s.cache, s.queue)
    && s.busy && |s.calls| == s.replies
  }

  lemma SettlingDeregister(s: State, addr: Addr, len: nat)
    requires Settling(s)
    ensures Settling(DeregisterFromRib(s, addr, len))
  {
    FirstRegisterConcat(s.queue, [Deregister(addr, len)]);
  }

  lemma SettlingSend(s: State)
    requires Settling(s)
    ensures Inv(SendNext(s))
  {
  }

  lemma SettleKeeps(s: State, n: Net, addr: Addr, len: nat)
    requires CacheOk(s.cache) && ReferencedBut(s.cache, n) && QueueOk(s.queue) && HeadUncovered(s.cache, s.queue)
    requires s.busy && |s.calls| == s.replies && n in s.cache
    ensures Settle(s, n, addr, len).Next? && Inv(Settle(s, n, addr, len).value)
    ensures Settle(s, n, addr, len).value.ribnameSet == s.ribnameSet
  {
    if s.cache[n].refs == map[] {
      var s1 := s.(cache := s.cache - {n});
      RemoveKeepsCache(s.cache, n);
      HeadStaysUncovered(s.cache, s1.cache, s.queue);
      SettlingDeregister(s1, addr, len);
      SettlingSend(DeregisterFromRib(s1, addr, len));
    } else {
      SettlingSend(s);
    }
  }

  lemma SettleRefs(s: State, n: Net, addr: Addr, len: nat, a: Addr)
    requires CacheOk(s.cache) && n in s.cache
    ensures Settle(s, n, addr, len).Next? && Refs(Settle(s, n, addr, len).value, a) == Refs(s, a)
  {
    if s.cache[n].refs == map[] {
      RemoveAt(s.cache, n, a);
      DeregisterFromRibRefs(s.(cache := s.cache - {n}), addr, len, a);
    }
  }

  lemma TakeAnswerKeeps(s: State, e: Entry)
    requires CacheOk(s.cache) && AllReferenced(s.cache) && QueueOk(s.queue)
    requires s.ribnameSet && s.busy && |s.calls| == s.replies && FreshAnswer(s.cache, e)
    ensures TakeAnswer(s, e).Next? && Inv(TakeAnswer(s, e).value) && TakeAnswer(s, e).value.ribnameSet
  {
    var n := MakeNet(e.address, e.prefixLen);
    FreshAnswerIsNew(s.cache, e);
    AddKeepsCache(s.cache, n, e);
    var p0 := Pass(s.cache[n := e], s.queue, s.upcalls);
    DrainKeeps(p0, 0, n);
    var p := Drain(true, p0, 0).value;
    assert n in p.cache.Keys;
    SettleKeeps(s.(cache := p.cache, queue := p.queue, upcalls := p.upcalls), n, e.address, e.prefixLen);
  }

  lemma TakeAnswerRefs(s: State, e: Entry, a: Addr)
    requires CacheOk(s.cache) && AllReferenced(s.cache) && QueueOk(s.queue)
    requires s.ribnameSet && FreshAnswer(s.cache, e)
    ensures TakeAnswer(s, e).Next? && Refs(TakeAnswer(s, e).value, a) == Refs(s, a)
  {
    var n := MakeNet(e.address, e.prefixLen);
    FreshAnswerIsNew(s.cache, e);
    AddKeepsCache(s.cache, n, e);
    AddAt(s.cache, n, e, a);
    var p0 := Pass(s.cache[n := e], s.queue, s.upcalls);
    DrainKeeps(p0, 0, n);
    DrainRefs(p0, 0, n, a);
    var p := Drain(true, p0, 0).value;
    assert n in p.cache.Keys;
    SettleRefs(s.(cache := p.cache, queue := p.queue, upcalls := p.upcalls), n, e.address, e.prefixLen, a);
  }

  /** Comparing the saved range with the masked address of an answer compares the ranges. */
  lemma InvalidMatch(saved: Net, addr: Addr, len: nat, nexthop: Addr)
    requires len <= |nexthop| && len <= |addr| && addr == MaskByPrefixLen(nexthop, len)
    ensures (|saved| == len && addr == MaskedAddr(saved, |addr|)) <==> saved == MakeNet(addr, len)
  {
    if saved == MakeNet(addr, len) {
      assert addr == MakeNet(nexthop, len) + Zeros(|nexthop| - len);
      assert saved == MakeNet(nexthop, len);
    }
  }

  /** What a legal answer does: it is thrown away if an invalidation overtook it, else taken in. */
  lemma LegalAnswerStep(s: State, e: Event)
    requires Inv(s) && e.RegisterReply? && Legal(s, e) && e.code == Okay
    ensures Step(s, e) ==
            if s.invalid.None? then TakeAnswer(s.(replies := s.replies + 1), AnswerOf(e))
            else if s.invalid.value == MakeNet(e.addr, e.len) then
              Next(SendNext(s.(replies := s.replies + 1, invalid := None)))
            else Abort
  {
    LegalAnswerFits(s, e);
    if s.invalid.Some? { InvalidMatch(s.invalid.value, e.addr, e.len, s.queue[0].nexthop); }
  }

  /** A legal answer fires no assertion. The only abort left is an invalidation flag saved for
      some other range. */
  lemma RegisterReplyKeeps(s: State, e: Event)
    requires Inv(s) && s.ribnameSet && e.RegisterReply? && Legal(s, e) && e.code == Okay
    ensures Step(s, e).Abort? <==> s.invalid.Some? && s.invalid.value != MakeNet(e.addr, e.len)
    ensures Step(s, e).Next? ==> Inv(Step(s, e).value) && Step(s, e).value.ribnameSet
  {
    LegalAnswerStep(s, e);
    LegalAnswerFits(s, e);
    if s.invalid.None? { TakeAnswerKeeps(s.(replies := s.replies + 1), AnswerOf(e)); }
  }

  lemma RegisterReplyRefs(s: State, e: Event, a: Addr)
    requires Inv(s) && s.ribnameSet && e.RegisterReply? && Legal(s, e) && Step(s, e).Next?
    ensures Refs(Step(s, e).value, a) == Refs(s, a)
  {
    LegalAnswerStep(s, e);
    LegalAnswerFits(s, e);
    if s.invalid.None? { TakeAnswerRefs(s.(replies := s.replies + 1), AnswerOf(e), a); }
  }

  // ---- Steps and runs -----------------------------------------------------------------

  /** Every step keeps the invariant. */
  lemma StepKeepsInv(s: State, e: Event)
    requires Inv(s) && s.ribnameSet && Legal(s, e) && Step(s, e).Next?
    ensures Inv(Step(s, e).value) && Step(s, e).value.ribnameSet
  {
    match e
    case RegisterDowncall(nh, net, requester) => RegisterKeeps(s, nh, net, requester);
    case DeregisterDowncall(nh, net, requester) => DeregisterKeeps(s, nh, net, requester);
    case RegisterReply(code, _, _, _, _, _) => RegisterReplyKeeps(s, e);
    case DeregisterReply(code, addr, len) => DeregisterReplyStep(s, code, addr, len);
    case MetricChanged(addr, len, metric) => ChangedKeeps(s, addr, len, metric);
    case Invalidated(addr, len) => InvalidateKeeps(s, addr, len);
  }

  /** What a step is worth to a next hop: a registration adds one, a deregistration that finds a
      record takes one, an unresolved deregistration from the RIB loses what is queued, and nothing
      else counts. */
  ghost function Credit(s: State, e: Event, a: Addr): int {
    match e
    case RegisterDowncall(nh, _, _) => if nh == a then 1 else 0
    case DeregisterDowncall(nh, net, requester) =>
      if nh == a && DeregisterFinds(s, nh, net, requester) then -1 else 0
    case DeregisterReply(code, _, _) => if code == ResolveFailed then -QueueRefs(s.queue, a) else 0
    case _ => 0
  }

  /** Replies and notices from the RIB only move references. */
  lemma StepConservesRefs(s: State, e: Event, a: Addr)
    requires Inv(s) && s.ribnameSet && Legal(s, e) && Step(s, e).Next?
    ensures Refs(Step(s, e).value, a) == Refs(s, a) + Credit(s, e, a)
  {
    match e
    case RegisterDowncall(nh, net, requester) => RegisterRefs(s, nh, net, requester, a);
    case DeregisterDowncall(nh, net, requester) => DeregisterRefs(s, nh, net, requester, a);
    case RegisterReply(code, _, _, _, _, _) => RegisterReplyRefs(s, e, a);
    case DeregisterReply(code, addr, len) => DeregisterReplyStep(s, code, addr, len);
    case MetricChanged(addr, len, metric) => ChangedRefs(s, addr, len, metric, a);
    case Invalidated(addr, len) => InvalidateRefs(s, addr, len, a);
  }

  /** The events are legal one after the other and none aborts. */
  ghost predicate Runs(s: State, es: seq<Event>)
    decreases |es|
  {
    es == [] || (Legal(s, es[0]) && Step(s, es[0]).Next? && Runs(Step(s, es[0]).value, es[1..]))
  }

  ghost function Final(s: State, es: seq<Event>): State
    requires Runs(s, es)
    decreases |es|
  {
    if es == [] then s else Final(Step(s, es[0]).value, es[1..])
  }

  /** Registrations minus deregistrations that found a record, over a run. */
  ghost function Balance(s: State, es: seq<Event>, a: Addr): int
    requires Runs(s, es)
    decreases |es|
  {
    if es == [] then 0 else Credit(s, es[0], a) + Balance(Step(s, es[0]).value, es[1..], a)
  }

  lemma {:induction false} RunKeepsInv(s: State, es: seq<Event>)
    requires Inv(s) && s.ribnameSet && Runs(s, es)
    ensures Inv(Final(s, es)) && Final(s, es).ribnameSet
    decreases |es|
  {
    if es != [] {
      StepKeepsInv(s, es[0]);
      RunKeepsInv(Step(s, es[0]).value, es[1..]);
    }
  }

  lemma {:induction false} RunConservesFrom(s: State, es: seq<Event>, a: Addr)
    requires Inv(s) && s.ribnameSet && Runs(s, es)
    ensures Refs(Final(s, es), a) == Refs(s, a) + Balance(s, es, a)
    decreases |es|
  {
    if es != [] {
      StepKeepsInv(s, es[0]);
      StepConservesRefs(s, es[0], a);
      RunConservesFrom(Step(s, es[0]).value, es[1..], a);
    }
  }

  /** Reference conservation: in every run from start-up, the references held by the cache and
      the queue for a next hop are its registrations minus its successful deregistrations. */
  lemma RunConservesRefs(es: seq<Event>, a: Addr)
    requires Runs(Init(true), es)
    ensures Refs(Final(Init(true), es), a) == Balance(Init(true), es, a) >= 0
  {
    InitInv();
    RunKeepsInv(Init(true), es);
    RunConservesFrom(Init(true), es, a);
    RefsNonNegative(Final(Init(true), es), a);
  }

  /** After a RESOLVE_FAILED reply nothing is ever sent again, so no reply comes either, and no range
      is added to the cache: what is not covered by then stays unanswered. */
  lemma {:induction false} CutOffForGood(s: State, es: seq<Event>)
    requires Inv(s) && s.ribnameSet && CutOff(s) && Runs(s, es)
    ensures CutOff(Final(s, es)) && Final(s, es).calls == s.calls && Final(s, es).cache.Keys <= s.cache.Keys
    ensures forall e | e in es :: !e.RegisterReply? && !e.DeregisterReply?
    decreases |es|
  {
    if es != [] {
      var s1 := Step(s, es[0]).value;
      StepKeepsInv(s, es[0]);
      CutOffStep(s, es[0]);
      CutOffForGood(s1, es[1..]);
      assert forall e | e in es :: e == es[0] || e in es[1..];
    }
  }

  lemma CutOffStep(s: State, e: Event)
    requires Inv(s) && s.ribnameSet && CutOff(s) && Legal(s, e) && Step(s, e).Next?
    ensures var s' := Step(s, e).value; CutOff(s') && s'.calls == s.calls && s'.cache.Keys <= s.cache.Keys
  {
    match e
    case RegisterDowncall(nh, net, requester) =>
    case DeregisterDowncall(nh, net, requester) => if Holder(s.cache, nh).Some? { DeregisterKeepsCache(s.cache, nh); }
    case MetricChanged(addr, len, metric) =>
    case Invalidated(addr, len) =>
      var n := MakeNet(addr, len);
      if n in s.cache { ReregisterAllCutOff(s.(cache := s.cache - {n}), InOrder(s.cache[n].refs.Keys), s.cache[n]); }
  }

  lemma {:induction false} ReregisterAllCutOff(s: State, nexthops: seq<Addr>, e: Entry)
    requires CutOff(s) && (forall nh | nh in nexthops :: nh in e.refs) && ReregisterAll(s, nexthops, e).Next?
    ensures var s' := ReregisterAll(s, nexthops, e).value;
            CutOff(s') && s'.calls == s.calls && s'.cache.Keys == s.cache.Keys
    decreases |nexthops|
  {
    if nexthops != [] {
      var s1 := ReregisterNexthop(s, nexthops[0], e.refs[nexthops[0]], e.resolvable, e.metric).value;
      ReregisterAllCutOff(s1, nexthops[1..], e);
    }
  }

  lemma InitInv()
    ensures Inv(Init(true))
  {
  }

  lemma RefsNonNegative(s: State, a: Addr)
    requires Inv(s)
    ensures Refs(s, a) >= 0
  {
    QueueRefsNonNegative(s.queue, a);
    if Holder(s.cache, a).Some? {
      var n := Holder(s.cache, a).value;
      assert EntryOk(n, s.cache[n]);
    }
  }

  lemma {:induction false} QueueRefsNonNegative(q: seq<Request>, a: Addr)
    requires QueueOk(q)
    ensures QueueRefs(q, a) >= 0
  {
    if q != [] {
      assert q[0].Register? ==> RegisterOk(q[0]);
      QueueRefsNonNegative(q[1..], a);
    }
  }
}
