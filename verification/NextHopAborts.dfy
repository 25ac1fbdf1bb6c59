/** Exactly when each event aborts the resolver. */
module NextHopAborts {
  import opened Wrappers
  import opened Nets
  import opened NextHopModel
  import opened NextHopInvariant
  import opened NextHopSafety
  import NextHopAnswers

  /** The waiting entry of a next hop has nothing that the deregistration could take away. */
  predicate NothingToTake(r: Request, net: Net, requester: nat)
    requires r.Register?
  {
    r.reregister && r.refCnt == 0 && !(r.newRegister && RemoveRequest(r.requests, net, requester).Some?)
  }

  /** Neither does the cache count the next hop, nor is there anything to take from its queue entry. */
  predicate DeregisterFails(s: State, nexthop: Addr, net: Net, requester: nat) {
    && Holder(s.cache, nexthop).None?
    && match RegisterIndex(s.queue, nexthop)
       case None => true
       case Some(i) => NothingToTake(s.queue[i], net, requester)
  }

  /** The request under way asks for a next hop in the range. */
  predicate Asked(q: seq<Request>, addr: Addr, len: nat)
    requires len <= |addr|
  {
    q != [] && q[0].Register? && len <= |q[0].nexthop| && MakeNet(addr, len) == MakeNet(q[0].nexthop, len)
  }

  /** A notice about a range that is not cached: the resolver is cut off and nothing has been queued
      since; or the notice overtakes the answer or the deregistration under way, and one is saved
      already; or it has to do with no request, and another one is waited for. */
  predicate UncachedFails(s: State, addr: Addr, len: nat)
    requires len <= |addr|
  {
    || (s.busy && s.queue == [])
    || (s.queue != [] && (Asked(s.queue, addr, len) || s.queue[0] == Deregister(addr, len)) && s.invalid.Some?)
    || (!Asked(s.queue, addr, len) && Deregister(addr, len) !in s.queue && s.tardy.Some? &&
        !(|s.tardy.value| == len && MaskedAddr(s.tardy.value, |addr|) == addr))
  }

  ghost predicate Aborts(s: State, e: Event)
    requires Legal(s, e)
  {
    match e
    case RegisterDowncall(_, _, _) => false
    case DeregisterDowncall(nh, net, requester) => DeregisterFails(s, nh, net, requester)
    case RegisterReply(code, _, addr, len, _, _) =>
      code != Okay || (s.invalid.Some? && s.invalid.value != MakeNet(addr, len))
    case DeregisterReply(code, addr, len) =>
      || code == OtherError
      || (code == CommandFailed && s.invalid.Some? &&
          !(|s.invalid.value| == len && addr == MaskedAddr(s.invalid.value, |addr|)))
    case MetricChanged(addr, len, _) => MakeNet(addr, len) !in s.cache || s.cache[MakeNet(addr, len)].address != addr
    case Invalidated(addr, len) =>
      var n := MakeNet(addr, len);
      if n in s.cache then
        s.cache[n].address != addr ||
        exists nh :: nh in s.cache[n].refs && NextHopAnswers.AlreadyReregistered(s.queue, nh)
      else UncachedFails(s, addr, len)
  }

  /** In every state of every run an event aborts if and only if its condition holds. */
  lemma StepAborts(s: State, e: Event)
    requires Inv(s) && s.ribnameSet && Legal(s, e)
    ensures Step(s, e).Abort? <==> Aborts(s, e)
  {
    match e
    case RegisterDowncall(nh, net, requester) => RegisterKeeps(s, nh, net, requester);
    case DeregisterDowncall(nh, net, requester) => DeregisterAborts(s, nh, net, requester);
    case RegisterReply(code, _, _, _, _, _) => if code == Okay { RegisterReplyKeeps(s, e); }
    case DeregisterReply(code, addr, len) => NextHopAnswers.DeregisterReplyAborts(s, code, addr, len);
    case MetricChanged(_, _, _) =>
    case Invalidated(addr, len) => InvalidatedAborts(s, addr, len);
  }

  lemma DeregisterAborts(s: State, nexthop: Addr, net: Net, requester: nat)
    requires Inv(s) && s.ribnameSet
    ensures DeregisterNexthop(s, nexthop, net, requester).Abort? <==> DeregisterFails(s, nexthop, net, requester)
  {
    if RegisterIndex(s.queue, nexthop).Some? {
      assert RegisterOk(s.queue[RegisterIndex(s.queue, nexthop).value]);
    }
  }

  lemma InvalidatedAborts(s: State, addr: Addr, len: nat)
    requires Inv(s) && len <= |addr|
    ensures RouteInfoInvalid(s, addr, len).Abort? <==> Aborts(s, Invalidated(addr, len))
  {
    var n := MakeNet(addr, len);
    if n in s.cache {
      var e := s.cache[n];
      assert EntryOk(n, e);
      if e.address == addr {
        NextHopAnswers.InvalidationAborts(s, n);
      }
    } else {
      UncachedAborts(s, addr, len);
    }
  }

  lemma UncachedAborts(s: State, addr: Addr, len: nat)
    requires Inv(s) && len <= |addr| && MakeNet(addr, len) !in s.cache
    ensures RouteInfoInvalid(s, addr, len).Abort? <==> UncachedFails(s, addr, len)
  {
    assert s.busy || s.queue == [];
  }

  /** A downcall aborts only on a next hop that is not counted in the cache; and on any that the
      resolver has no record of. */
  lemma UnknownNexthopAborts(s: State, nexthop: Addr, net: Net, requester: nat)
    requires Inv(s) && s.ribnameSet
    ensures Holder(s.cache, nexthop).None? && RegisterIndex(s.queue, nexthop).None? ==>
              DeregisterNexthop(s, nexthop, net, requester).Abort? && Refs(s, nexthop) == 0
  {
    if Holder(s.cache, nexthop).None? && RegisterIndex(s.queue, nexthop).None? {
      NoQueueRefs(s.queue, nexthop);
    }
  }

  lemma {:induction false} NoQueueRefs(q: seq<Request>, nexthop: Addr)
    requires forall i | 0 <= i < |q| :: !(q[i].Register? && q[i].nexthop == nexthop)
    ensures QueueRefs(q, nexthop) == 0
  {
    if q != [] { NoQueueRefs(q[1..], nexthop); }
  }
}
