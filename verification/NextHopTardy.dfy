/** Which late notice the resolver waits for: one of a range whose deregistration failed. */
module NextHopTardy {
  import opened Wrappers
  import opened Nets
  import opened NextHopModel
  import opened NextHopSafety

  /** The RIB no longer knew the range that was given back, and no notice of that has come. */
  ghost predicate Fails(s: State, e: Event) {
    e.DeregisterReply? && e.code == CommandFailed && s.invalid.None?
  }

  lemma {:induction false} ReregisterAllTardy(s: State, nexthops: seq<Addr>, e: Entry)
    requires (forall nh | nh in nexthops :: nh in e.refs) && ReregisterAll(s, nexthops, e).Next?
    ensures ReregisterAll(s, nexthops, e).value.tardy == s.tardy
    decreases |nexthops|
  {
    if nexthops != [] {
      var o := ReregisterNexthop(s, nexthops[0], e.refs[nexthops[0]], e.resolvable, e.metric);
      ReregisterAllTardy(o.value, nexthops[1..], e);
    }
  }

  /** Only a failed deregistration starts the wait, for its own range; only the notice of that range
      ends it, or the next failure. */
  lemma StepTardy(s: State, e: Event)
    requires Legal(s, e) && Step(s, e).Next?
    ensures Fails(s, e) ==> Step(s, e).value.tardy == Some(MakeNet(e.addr, e.len))
    ensures !Fails(s, e) ==>
              || Step(s, e).value.tardy == s.tardy
              || (e.Invalidated? && s.tardy == Some(MakeNet(e.addr, e.len)) && Step(s, e).value.tardy == None)
  {
    match e
    case RegisterDowncall(nh, net, requester) => DowncallTardy(s, nh, net, requester);
    case DeregisterDowncall(nh, net, requester) => DowncallTardy(s, nh, net, requester);
    case RegisterReply(_, _, _, _, _, _) => ReplyTardy(s, e);
    case DeregisterReply(_, _, _) =>
    case MetricChanged(_, _, _) =>
    case Invalidated(addr, len) => InvalidTardy(s, addr, len);
  }

  lemma DowncallTardy(s: State, nexthop: Addr, net: Net, requester: nat)
    ensures RegisterNexthop(s, nexthop, net, requester).Next? ==>
              RegisterNexthop(s, nexthop, net, requester).value.tardy == s.tardy
    ensures DeregisterNexthop(s, nexthop, net, requester).Next? ==>
              DeregisterNexthop(s, nexthop, net, requester).value.tardy == s.tardy
  {
  }

  lemma ReplyTardy(s: State, e: Event)
    requires e.RegisterReply? && Legal(s, e) && Step(s, e).Next?
    ensures Step(s, e).value.tardy == s.tardy
  {
  }

  lemma InvalidTardy(s: State, addr: Addr, len: nat)
    requires len <= |addr| && RouteInfoInvalid(s, addr, len).Next?
    ensures var s' := RouteInfoInvalid(s, addr, len).value;
            s'.tardy == s.tardy || (s.tardy == Some(MakeNet(addr, len)) && s'.tardy == None)
  {
    var n := MakeNet(addr, len);
    if n in s.cache {
      ReregisterAllTardy(s.(cache := s.cache - {n}), InOrder(s.cache[n].refs.Keys), s.cache[n]);
    } else if PrematureInvalid(s, addr, len) == Next(None) && s.tardy.Some? {
      assert s.tardy.value == MakeNet(MaskedAddr(s.tardy.value, |addr|), len);
    }
  }

  predicate FailedFor(e: Event, n: Net) {
    e.DeregisterReply? && e.code == CommandFailed && e.len <= |e.addr| && n == MakeNet(e.addr, e.len)
  }

  /** In every run a notice that is swallowed is that of a deregistration that failed. */
  lemma {:induction false} SwallowedHadFailed(s: State, es: seq<Event>, n: Net)
    requires Runs(s, es) && Final(s, es).tardy == Some(n) && s.tardy != Some(n)
    ensures exists i :: 0 <= i < |es| && FailedFor(es[i], n)
    decreases |es|
  {
    assert es != [];
    StepTardy(s, es[0]);
    var s1 := Step(s, es[0]).value;
    if s1.tardy == Some(n) {
      assert FailedFor(es[0], n);
    } else {
      SwallowedHadFailed(s1, es[1..], n);
      var i :| 0 <= i < |es[1..]| && FailedFor(es[1..][i], n);
      assert es[i + 1] == es[1..][i];
    }
  }
}
