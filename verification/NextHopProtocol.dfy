/** The resolver's objects driven by the events of the protocol: what holds of every run holds of
    them. */
module NextHopProtocol {
  import opened Wrappers
  import opened Nets
  import opened NextHopModel
  import opened NextHopInvariant
  import opened NextHopSafety
  import NextHopResolver

  lemma {:induction false} RunThen(s: State, es: seq<Event>, e: Event)
    requires Runs(s, es) && Legal(Final(s, es), e) && Step(Final(s, es), e).Next?
    ensures Runs(s, es + [e]) && Final(s, es + [e]) == Step(Final(s, es), e).value
    decreases |es|
  {
    if es == [] {
      assert es + [e] == [e] && [e][1..] == [];
    } else {
      assert (es + [e])[0] == es[0] && (es + [e])[1..] == es[1..] + [e];
      RunThen(Step(s, es[0]).value, es[1..], e);
    }
  }

  /** The state that the history leads to. */
  ghost predicate LeadsTo(es: seq<Event>, s: State) {
    Runs(Init(true), es) && Final(Init(true), es) == s
  }

  /** No count in the cache is ever zero. */
  lemma CountsStayPositive(es: seq<Event>, s: State)
    requires LeadsTo(es, s)
    ensures Inv(s) && NextHopResolver.Counted(s.cache)
  {
    InitInv();
    RunKeepsInv(Init(true), es);
    forall n | n in s.cache ensures forall nh | nh in s.cache[n].refs :: s.cache[n].refs[nh] != 0 {
      assert EntryOk(n, s.cache[n]);
    }
  }

  class Driver {
    const resolver: NextHopResolver.Resolver
    /** The events so far. */
    ghost var history: seq<Event>

    ghost predicate Valid()
      reads this, resolver, resolver.cache, resolver.cache.entries
    {
      resolver.Valid() && LeadsTo(history, resolver.View())
    }

    /** The event was taken, or aborted as it does in the model. */
    twostate predicate Took(e: Event, aborted: bool)
      requires old(Valid()) && Legal(old(resolver.View()), e)
      reads this, resolver, resolver.cache, resolver.cache.entries
    {
      && aborted == Step(old(resolver.View()), e).Abort?
      && (!aborted ==> Valid() && history == old(history) + [e])
    }

    /** At any time the objects hold exactly the references of their history. */
    lemma HoldsReferences(nexthop: Addr)
      requires Valid()
      ensures Refs(resolver.View(), nexthop) == Balance(Init(true), history, nexthop) >= 0
    {
      RunConservesRefs(history, nexthop);
    }

    constructor ()
      ensures Valid() && history == []
      ensures fresh(resolver) && fresh(resolver.cache) && fresh(resolver.cache.entries)
    {
      resolver := new NextHopResolver.Resolver(true);
      history := [];
    }

    method Register(nexthop: Addr, net: Net, requester: nat) returns (aborted: bool, known: bool)
      requires Valid()
      modifies this, resolver, resolver.cache`contents, resolver.cache.entries
      ensures Took(RegisterDowncall(nexthop, net, requester), aborted)
    {
      ghost var s, e := resolver.View(), RegisterDowncall(nexthop, net, requester);
      aborted, known := resolver.RegisterNexthop(nexthop, net, requester);
      if !aborted {
        RunThen(Init(true), history, e);
        history := history + [e];
      }
    }

    method Deregister(nexthop: Addr, net: Net, requester: nat) returns (aborted: bool)
      requires Valid()
      modifies this, resolver, resolver.cache, resolver.cache.entries
      ensures Took(DeregisterDowncall(nexthop, net, requester), aborted)
    {
      ghost var e := DeregisterDowncall(nexthop, net, requester);
      aborted := resolver.DeregisterNexthop(nexthop, net, requester);
      if !aborted {
        RunThen(Init(true), history, e);
        history := history + [e];
      }
    }

    /** The RIB answers a registration. */
    method Answer(code: ReplyCode, resolves: bool, addr: Addr, len: nat, realLen: nat, metric: nat)
      returns (aborted: bool)
      requires Valid() && Legal(resolver.View(), RegisterReply(code, resolves, addr, len, realLen, metric))
      modifies this, resolver, resolver.cache, resolver.cache.entries
      ensures Took(RegisterReply(code, resolves, addr, len, realLen, metric), aborted)
    {
      ghost var e := RegisterReply(code, resolves, addr, len, realLen, metric);
      aborted := resolver.RegisterInterestResponse(code, resolves, addr, len, realLen, metric);
      if !aborted {
        RunThen(Init(true), history, e);
        history := history + [e];
      }
    }

    /** The RIB confirms a deregistration, or says that it failed. */
    method Confirm(code: ReplyCode, addr: Addr, len: nat) returns (aborted: bool)
      requires Valid() && Legal(resolver.View(), DeregisterReply(code, addr, len))
      modifies this, resolver
      ensures Took(DeregisterReply(code, addr, len), aborted)
    {
      ghost var e := DeregisterReply(code, addr, len);
      aborted := resolver.DeregisterInterestResponse(code, addr, len);
      if !aborted {
        RunThen(Init(true), history, e);
        history := history + [e];
      }
    }

    method ChangeMetric(addr: Addr, len: nat, metric: nat) returns (aborted: bool)
      requires Valid() && len <= |addr|
      modifies this, resolver, resolver.cache`contents, resolver.cache.entries
      ensures Took(MetricChanged(addr, len, metric), aborted)
    {
      ghost var e := MetricChanged(addr, len, metric);
      aborted := resolver.RouteInfoChanged(addr, len, metric);
      if !aborted {
        RunThen(Init(true), history, e);
        history := history + [e];
      }
    }

    method Invalidate(addr: Addr, len: nat) returns (aborted: bool)
      requires Valid() && len <= |addr|
      modifies this, resolver, resolver.cache, resolver.cache.entries
      ensures Took(Invalidated(addr, len), aborted)
    {
      ghost var e := Invalidated(addr, len);
      CountsStayPositive(history, resolver.View());
      aborted := resolver.RouteInfoInvalid(addr, len);
      if !aborted {
        RunThen(Init(true), history, e);
        history := history + [e];
      }
    }
  }
}
