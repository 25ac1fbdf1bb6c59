/** The next-hop resolver with the state the source updates in place: the cache object, the queue
    of requests and the flags. Every method is proved to take the step of the same name in
    NextHopModel; `aborted` reports a failed XLOG_ASSERT or an XLOG_FATAL. */
module NextHopResolver {
  import opened Wrappers
  import opened Nets
  import opened NextHopModel
  import C = NextHopCache

  lemma AnnounceNext(us: seq<Upcall>, todo: set<Addr>, nh: Addr)
    requires IsLeast(nh, todo)
    ensures us + [IgpNexthopChanged(nh)] + ChangedUpcalls(InOrder(todo - {nh})) == us + ChangedUpcalls(InOrder(todo))
  {
    InOrderFirst(todo, nh);
    var rest := InOrder(todo - {nh});
    assert ([nh] + rest)[1..] == rest;
  }

  lemma ReregisterNext(s: State, todo: set<Addr>, nh: Addr, e: Entry)
    requires IsLeast(nh, todo) && todo <= e.refs.Keys
    ensures var o := ReregisterNexthop(s, nh, e.refs[nh], e.resolvable, e.metric);
            ReregisterAll(s, InOrder(todo), e) ==
            if o.Abort? then Abort else ReregisterAll(o.value, InOrder(todo - {nh}), e)
  {
    InOrderFirst(todo, nh);
    var rest := InOrder(todo - {nh});
    assert ([nh] + rest)[1..] == rest;
  }

  /** No count in the cache is zero; see NextHopProtocol. */
  ghost predicate Counted(c: NextHopModel.Cache) {
    forall n | n in c :: forall nh | nh in c[n].refs :: c[n].refs[nh] != 0
  }

  /** The next hops are visited in address order. */
  method First(todo: set<Addr>) returns (nh: Addr)
    requires todo != {}
    ensures IsLeast(nh, todo)
  {
    ghost var order := InOrder(todo);
    nh :| IsLeast(nh, todo);
  }

  class Resolver {
    const ribnameSet: bool
    const cache: C.Cache
    var queue: seq<Request>
    var busy: bool
    var invalid: Option<Net>
    var tardy: Option<Net>
    var calls: seq<RibCall>
    var replies: nat
    var upcalls: seq<Upcall>

    ghost predicate Valid()
      reads this, cache, cache.entries
    {
      cache.Valid()
    }

    ghost function View(): State
      reads this, cache
    {
      State(ribnameSet, cache.contents, queue, busy, invalid, tardy, calls, replies, upcalls)
    }

    constructor (ribnameSet: bool)
      ensures Valid() && fresh(cache) && fresh(cache.entries)
      ensures View() == Init(ribnameSet)
    {
      this.ribnameSet := ribnameSet;
      cache := new C.Cache();
      queue, busy, invalid, tardy, calls, replies, upcalls := [], false, None, None, [], 0, [];
    }

    // ---- Searching the queue ------------------------------------------------------------

    method FindRegister(nexthop: Addr) returns (r: Option<nat>)
      ensures r == RegisterIndex(queue, nexthop)
    {
      var i := 0;
      while i < |queue|
        invariant 0 <= i <= |queue|
        invariant forall j | 0 <= j < i :: !(queue[j].Register? && queue[j].nexthop == nexthop)
      {
        if queue[i].Register? && queue[i].nexthop == nexthop {
          return Some(i);
        }
        i := i + 1;
      }
      return None;
    }

    method FindDeregister(addr: Addr, len: nat) returns (r: Option<nat>)
      ensures r == DeregisterIndex(queue, addr, len)
    {
      var i := 0;
      while i < |queue|
        invariant 0 <= i <= |queue|
        invariant forall j | 0 <= j < i :: queue[j] != Deregister(addr, len)
      {
        if queue[i] == Deregister(addr, len) {
          return Some(i);
        }
        i := i + 1;
      }
      return None;
    }

    method FindStale(nexthop: Addr) returns (r: Option<nat>)
      ensures r == StaleIndex(queue, nexthop)
    {
      var i := 0;
      while i < |queue|
        invariant 0 <= i <= |queue|
        invariant forall j | 0 <= j < i :: !(queue[j].Register? && queue[j].nexthop == nexthop && queue[j].reregister)
      {
        if queue[i].Register? && queue[i].nexthop == nexthop && queue[i].reregister {
          return Some(i);
        }
        i := i + 1;
      }
      return None;
    }

    // ---- Sending ------------------------------------------------------------------------

    method SendNextRequest()
      requires Valid()
      modifies this
      ensures Valid() && View() == SendNext(old(View()))
    {
      if queue == [] {
        busy := false;
        return;
      }
      busy := true;
      calls := calls + [CallOf(queue[0])];
    }

    method PushBack(r: Request)
      requires Valid()
      modifies this
      ensures Valid() && View() == Enqueue(old(View()), r)
    {
      queue := queue + [r];
      if !busy {
        SendNextRequest();
      }
    }

    method DeregisterFromRib(addr: Addr, len: nat)
      requires Valid()
      modifies this
      ensures Valid() && View() == NextHopModel.DeregisterFromRib(old(View()), addr, len)
    {
      var i := FindDeregister(addr, len);
      if i.None? {
        PushBack(Deregister(addr, len));
      }
    }

    // ---- Lookups and upcalls ------------------------------------------------------------

    method Lookup(nexthop: Addr) returns (r: Option<(bool, nat)>)
      requires Valid()
      ensures r == NextHopModel.Lookup(ribnameSet, cache.contents, queue, nexthop)
    {
      if !ribnameSet {
        return Some((true, 1));
      }
      r := cache.LookupByNexthop(nexthop);
      if r.Some? {
        return;
      }
      var i := FindStale(nexthop);
      if i.Some? {
        r := Some((queue[i.value].resolvable, StaleMetric(queue[i.value])));
      }
    }

    method NextHopChanged(nexthop: Addr, oldResolves: bool, oldMetric: nat) returns (aborted: bool)
      requires Valid()
      modifies this`upcalls
      ensures Valid()
      ensures var o := NextHopModel.NextHopChanged(
                ribnameSet, cache.contents, queue, old(upcalls), nexthop, oldResolves, oldMetric);
              aborted == o.Abort? && (o.Next? ==> upcalls == o.value)
    {
      var r := Lookup(nexthop);
      if r.None? {
        return true;
      }
      var (resolvable, metric) := r.value;
      var changed := false;
      if resolvable != oldResolves {
        changed := true;
      }
      if resolvable && metric != oldMetric {
        changed := true;
      }
      if changed {
        upcalls := upcalls + [IgpNexthopChanged(nexthop)];
      }
      return false;
    }

    // ---- Downcalls from the route tables ------------------------------------------------

    /** True when the RIB has already answered for the next hop. */
    method RegisterNexthop(nexthop: Addr, net: Net, requester: nat) returns (aborted: bool, known: bool)
      requires Valid()
      modifies this, cache`contents, cache.entries
      ensures Valid()
      ensures var o := NextHopModel.RegisterNexthop(old(View()), nexthop, net, requester);
              aborted == o.Abort? && (o.Next? ==> View() == o.value)
      ensures !aborted ==> known == (!ribnameSet || Covered(old(cache.contents), nexthop))
    {
      if !ribnameSet {
        return false, true;
      }
      known := cache.RegisterNexthop(nexthop, 1);
      if known {
        return false, true;
      }
      var i := FindRegister(nexthop);
      if i.Some? {
        var r := queue[i.value];
        if !r.reregister && !r.newRegister {
          return true, false;
        }
        queue := queue[i.value := r.(newRegister := true, requests := AddRequest(r.requests, net, requester))];
        return false, false;
      }
      PushBack(Register(nexthop, true, AddRequest(NO_REQUESTS, net, requester), false, 0, false, 0));
      return false, false;
    }

    method DeregisterQueued(nexthop: Addr, net: Net, requester: nat) returns (aborted: bool)
      requires Valid()
      modifies this`queue
      ensures var o := NextHopModel.DeregisterQueued(old(View()), nexthop, net, requester);
              aborted == o.Abort? && (o.Next? ==> View() == o.value)
    {
      var i := FindRegister(nexthop);
      if i.None? {
        return true;
      }
      var d := EntryDeregister(queue[i.value], net, requester);
      if d.Abort? {
        return true;
      }
      if d.value.Some? {
        queue := queue[i.value := d.value.value];
      }
      return false;
    }

    method DeregisterNexthop(nexthop: Addr, net: Net, requester: nat) returns (aborted: bool)
      requires Valid()
      modifies this, cache, cache.entries
      ensures Valid()
      ensures var o := NextHopModel.DeregisterNexthop(old(View()), nexthop, net, requester);
              aborted == o.Abort? && (o.Next? ==> View() == o.value)
    {
      if !ribnameSet {
        return false;
      }
      var found, last, addr, len := cache.DeregisterNexthop(nexthop);
      if found {
        assert View() == old(View()).(cache := CacheDeregister(old(cache.contents), nexthop).0);
        if last {
          DeregisterFromRib(addr, len);
        }
        return false;
      }
      assert View() == old(View());
      aborted := DeregisterQueued(nexthop, net, requester);
    }

    // ---- Notices from the RIB -----------------------------------------------------------

    method AskAgain(nexthop: Addr, refCnt: int, resolvable: bool, metric: nat) returns (aborted: bool)
      requires Valid()
      modifies this
      ensures Valid()
      ensures var o := NextHopModel.AskAgain(old(View()), nexthop, refCnt, resolvable, metric);
              aborted == o.Abort? && (o.Next? ==> View() == o.value)
    {
      var i := FindRegister(nexthop);
      if i.Some? {
        var r := queue[i.value];
        if r.reregister || r.refCnt != 0 {
          return true;
        }
        queue := queue[i.value := r.(reregister := true, refCnt := refCnt, resolvable := resolvable, metric := metric)];
        return false;
      }
      PushBack(Register(nexthop, false, NO_REQUESTS, true, refCnt, resolvable, metric));
      return false;
    }

    method ReregisterNexthop(nexthop: Addr, refCnt: int, resolvable: bool, metric: nat) returns (aborted: bool)
      requires Valid() && refCnt != 0
      modifies this, cache`contents, cache.entries
      ensures Valid()
      ensures var o := NextHopModel.ReregisterNexthop(old(View()), nexthop, refCnt, resolvable, metric);
              aborted == o.Abort? && (o.Next? ==> View() == o.value)
    {
      var covered := cache.RegisterNexthop(nexthop, refCnt);
      if covered {
        aborted := NextHopChanged(nexthop, resolvable, metric);
        return;
      }
      assert View() == old(View());
      aborted := AskAgain(nexthop, refCnt, resolvable, metric);
    }

    /** Re-register every next hop of a range that left the cache, in address order. */
    method ReregisterAll(refs: map<Addr, int>, resolvable: bool, metric: nat, ghost e: Entry) returns (aborted: bool)
      requires Valid() && e.refs == refs && e.resolvable == resolvable && e.metric == metric
      requires forall nh | nh in refs :: refs[nh] != 0
      modifies this, cache`contents, cache.entries
      ensures Valid()
      ensures var o := NextHopModel.ReregisterAll(old(View()), InOrder(refs.Keys), e);
              aborted == o.Abort? && (o.Next? ==> View() == o.value)
    {
      var todo := refs.Keys;
      ghost var whole := NextHopModel.ReregisterAll(View(), InOrder(todo), e);
      while todo != {}
        invariant Valid() && todo <= refs.Keys && cache.entries == old(cache.entries)
        invariant NextHopModel.ReregisterAll(View(), InOrder(todo), e) == whole
        decreases |todo|
      {
        var nh := First(todo);
        ReregisterNext(View(), todo, nh, e);
        var failed := ReregisterNexthop(nh, refs[nh], resolvable, metric);
        if failed {
          return true;
        }
        todo := todo - {nh};
      }
      return false;
    }

    method PrematureInvalid(addr: Addr, len: nat) returns (aborted: bool, matched: bool)
      requires Valid() && len <= |addr|
      modifies this
      ensures Valid()
      ensures var o := NextHopModel.PrematureInvalid(old(View()), addr, len);
              && aborted == o.Abort?
              && (o.Next? ==> matched == o.value.Some? && View() == if matched then o.value.value else old(View()))
    {
      if !busy {
        return false, false;
      }
      if queue == [] {
        return true, false;
      }
      if queue[0].Register? && len <= |queue[0].nexthop| && MakeNet(addr, len) == MakeNet(queue[0].nexthop, len) {
        if invalid.Some? {
          return true, false;
        }
        invalid := Some(MakeNet(addr, len));
        return false, true;
      }
      var i := FindDeregister(addr, len);
      if i.None? {
        return false, false;
      }
      if i.value == 0 {
        if invalid.Some? {
          return true, false;
        }
        invalid := Some(MakeNet(addr, len));
      } else {
        queue := queue[..i.value] + queue[i.value + 1..];
      }
      return false, true;
    }

    method TardyInvalid(addr: Addr, len: nat) returns (aborted: bool)
      requires Valid() && len <= |addr|
      modifies this`tardy
      ensures var o := NextHopModel.TardyInvalid(old(View()), addr, len);
              aborted == o.Abort? && (o.Next? ==> View() == o.value)
    {
      if tardy.None? {
        return false;
      }
      if |tardy.value| != len || MaskedAddr(tardy.value, |addr|) != addr {
        return true;
      }
      tardy := None;
      return false;
    }

    /** rib_client_route_info_invalid. */
    method RouteInfoInvalid(addr: Addr, len: nat) returns (aborted: bool)
      requires Valid() && len <= |addr| && Counted(cache.contents)
      modifies this, cache, cache.entries
      ensures Valid()
      ensures var o := NextHopModel.RouteInfoInvalid(old(View()), addr, len);
              aborted == o.Abort? && (o.Next? ==> View() == o.value)
    {
      var n := MakeNet(addr, len);
      if n !in cache.byPrefix {
        var failed, matched := PrematureInvalid(addr, len);
        if failed || matched {
          return failed;
        }
        aborted := TardyInvalid(addr, len);
        return;
      }
      var resolvable, metric := cache.byPrefix[n].resolvable, cache.byPrefix[n].metric;
      ghost var e := cache.contents[n];
      if cache.byPrefix[n].address != addr {
        return true;
      }
      var refs := cache.DeleteEntry(addr, len);
      assert View() == old(View()).(cache := old(cache.contents) - {n});
      aborted := ReregisterAll(refs, resolvable, metric, e);
    }

    /** Tell decision about each next hop, in address order. */
    method AnnounceChanges(nexthops: set<Addr>)
      modifies this`upcalls
      ensures upcalls == old(upcalls) + ChangedUpcalls(InOrder(nexthops))
    {
      var todo := nexthops;
      while todo != {}
        invariant upcalls + ChangedUpcalls(InOrder(todo)) == old(upcalls) + ChangedUpcalls(InOrder(nexthops))
        decreases |todo|
      {
        var nh :| IsLeast(nh, todo);
        AnnounceNext(upcalls, todo, nh);
        upcalls := upcalls + [IgpNexthopChanged(nh)];
        todo := todo - {nh};
      }
    }

    /** rib_client_route_info_changed. */
    method RouteInfoChanged(addr: Addr, len: nat, metric: nat) returns (aborted: bool)
      requires Valid() && len <= |addr|
      modifies this`upcalls, cache`contents, cache.entries
      ensures Valid()
      ensures var o := NextHopModel.RouteInfoChanged(old(View()), addr, len, metric);
              aborted == o.Abort? && (o.Next? ==> View() == o.value)
    {
      var n := MakeNet(addr, len);
      if n !in cache.byPrefix || cache.byPrefix[n].address != addr {
        return true;
      }
      var refs := cache.ChangeEntry(addr, len, metric);
      AnnounceChanges(refs.Keys);
      return false;
    }

    // ---- Replies from the RIB -----------------------------------------------------------

    ghost function PassView(): Pass
      reads this, cache
    {
      Pass(cache.contents, queue, upcalls)
    }

    /** Give the answer that covers a queued registration to the requesters who wait for it. */
    method SatisfyNew(r: Request, n: Net)
      requires Valid() && r.Register? && Find(cache.contents, r.nexthop) == Some(n)
      modifies this`upcalls, cache`contents, cache.entries
      ensures Valid() && PassView() == NextHopModel.SatisfyNew(old(PassView()), r)
    {
      if r.newRegister && r.requests.total != 0 {
        var resolvable := cache.byPrefix[n].resolvable;
        var _ := cache.RegisterNexthop(r.nexthop, r.requests.total);
        upcalls := upcalls + [LookupDone(r.nexthop, RequestNets(r.requests), resolvable)];
      }
    }

    /** Give it to the references carried over from an invalidated answer. */
    method SatisfyOld(r: Request) returns (aborted: bool)
      requires Valid() && r.Register? && Covered(cache.contents, r.nexthop)
      modifies this`upcalls, cache`contents, cache.entries
      ensures Valid()
      ensures var o := NextHopModel.SatisfyOld(ribnameSet, old(PassView()), r);
              aborted == o.Abort? && (o.Next? ==> PassView() == o.value)
    {
      if r.reregister && r.refCnt != 0 {
        var _ := cache.RegisterNexthop(r.nexthop, r.refCnt);
        aborted := NextHopChanged(r.nexthop, r.resolvable, StaleMetric(r));
        return;
      }
      return false;
    }

    method Satisfy(r: Request, n: Net) returns (aborted: bool)
      requires Valid() && r.Register? && Find(cache.contents, r.nexthop) == Some(n)
      modifies this`upcalls, cache`contents, cache.entries
      ensures Valid()
      ensures var o := NextHopModel.Satisfy(ribnameSet, old(PassView()), r);
              aborted == o.Abort? && (o.Next? ==> PassView() == o.value)
    {
      CoveredAfterRegister(cache.contents, r.nexthop, r.requests.total);
      SatisfyNew(r, n);
      aborted := SatisfyOld(r);
    }

    /** One turn of the loop over the queue. */
    method DrainOne(i: nat) returns (aborted: bool, stop: bool)
      requires Valid() && i < |queue| && queue[i].Register?
      modifies this`queue, this`upcalls, cache`contents, cache.entries
      ensures Valid()
      ensures aborted ==> Drain(ribnameSet, old(PassView()), i).Abort?
      ensures !aborted && stop ==> Drain(ribnameSet, old(PassView()), i) == Next(PassView())
      ensures !aborted && !stop ==> |queue| == |old(queue)| - 1 && i <= |queue|
                                    && Drain(ribnameSet, old(PassView()), i) == Drain(ribnameSet, PassView(), i)
    {
      var r := queue[i];
      var covering := cache.Find(r.nexthop);
      if covering.None? {
        return false, true;
      }
      if !r.newRegister && !r.reregister {
        return true, true;
      }
      ghost var p := PassView();
      aborted := Satisfy(r, covering.value);
      if aborted {
        return true, true;
      }
      DrainUnfold(ribnameSet, p, i, PassView());
      queue := queue[..i] + queue[i + 1..];
      return false, false;
    }

    /** The loop over the queue: satisfied registrations leave it, deregistrations are passed
        over, and the first registration that no answer covers ends it. */
    method DrainQueue() returns (aborted: bool)
      requires Valid()
      modifies this`queue, this`upcalls, cache`contents, cache.entries
      ensures Valid()
      ensures var o := Drain(ribnameSet, old(PassView()), 0);
              aborted == o.Abort? && (o.Next? ==> PassView() == o.value)
    {
      var i := 0;
      while i < |queue|
        invariant Valid() && 0 <= i <= |queue|
        invariant Drain(ribnameSet, old(PassView()), 0) == Drain(ribnameSet, PassView(), i)
        decreases |queue| - i
      {
        if queue[i].Deregister? {
          i := i + 1;
        } else {
          var failed, stop := DrainOne(i);
          if failed || stop {
            return failed;
          }
        }
      }
      return false;
    }

    /** validate_entry and the next request: an entry without references is given back. */
    method Settle(addr: Addr, len: nat) returns (aborted: bool)
      requires Valid() && len <= |addr|
      requires MakeNet(addr, len) in cache.contents ==> cache.contents[MakeNet(addr, len)].address == addr
      modifies this, cache
      ensures Valid() && cache.entries == old(cache.entries)
      ensures var o := NextHopModel.Settle(old(View()), MakeNet(addr, len), addr, len);
              aborted == o.Abort? && (o.Next? ==> View() == o.value)
    {
      var n := MakeNet(addr, len);
      if n !in cache.byPrefix {
        return true;
      }
      if cache.byPrefix[n].refs == map[] {
        var _ := cache.DeleteEntry(addr, len);
        DeregisterFromRib(addr, len);
      }
      SendNextRequest();
      return false;
    }

    /** add_entry, the loop over the queue, and validate_entry. */
    method TakeAnswer(nexthop: Addr, resolves: bool, addr: Addr, len: nat, realLen: nat, metric: nat)
      returns (aborted: bool)
      requires Valid() && len <= |nexthop| && len <= |addr| && realLen <= |addr|
      requires addr == MaskByPrefixLen(nexthop, len)
      modifies this, cache, cache.entries
      ensures Valid()
      ensures var o := NextHopModel.TakeAnswer(old(View()), Entry(addr, len, realLen, resolves, metric, map[]));
              aborted == o.Abort? && (o.Next? ==> View() == o.value)
    {
      var failed := cache.AddEntry(addr, nexthop, len, realLen, resolves, metric);
      if failed {
        return true;
      }
      assert cache.contents[MakeNet(addr, len)].address == addr;
      failed := DrainQueue();
      if failed {
        return true;
      }
      aborted := Settle(addr, len);
    }

    method AcceptAnswer(resolves: bool, addr: Addr, len: nat, realLen: nat, metric: nat) returns (aborted: bool)
      requires Valid() && AnswersFront(queue, addr, len) && realLen <= |addr|
      modifies this, cache, cache.entries
      ensures Valid()
      ensures var o := NextHopModel.AcceptAnswer(old(View()), resolves, addr, len, realLen, metric);
              aborted == o.Abort? && (o.Next? ==> View() == o.value)
    {
      if invalid.Some? {
        if |invalid.value| != len || addr != MaskedAddr(invalid.value, |addr|) {
          return true;
        }
        invalid := None;
        SendNextRequest();
        return false;
      }
      var nexthop := queue[0].nexthop;
      if addr != MaskByPrefixLen(nexthop, len) {
        return true;
      }
      aborted := TakeAnswer(nexthop, resolves, addr, len, realLen, metric);
    }

    /** One reply more has come. */
    method CountReply()
      requires Valid()
      modifies this`replies
      ensures Valid() && View() == old(View()).(replies := old(View()).replies + 1)
    {
      replies := replies + 1;
    }

    method RegisterInterestResponse(
      code: ReplyCode, resolves: bool, addr: Addr, len: nat, realLen: nat, metric: nat) returns (aborted: bool)
      requires Valid()
      modifies this, cache, cache.entries
      ensures Valid()
      ensures var o := NextHopModel.RegisterInterestResponse(old(View()), code, resolves, addr, len, realLen, metric);
              aborted == o.Abort? && (o.Next? ==> View() == o.value)
    {
      CountReply();
      if code != Okay || realLen > |addr| || !AnswersFront(queue, addr, len) {
        return true;
      }
      aborted := AcceptAnswer(resolves, addr, len, realLen, metric);
    }

    /** The RIB had already dropped the range: its notice came first or is still to come. */
    method NoteFailure(addr: Addr, len: nat) returns (aborted: bool)
      requires Valid() && len <= |addr|
      modifies this`invalid, this`tardy
      ensures var o := NextHopModel.NoteFailure(old(View()), addr, len);
              aborted == o.Abort? && (o.Next? ==> View() == o.value)
    {
      if invalid.Some? {
        if |invalid.value| != len || MaskedAddr(invalid.value, |addr|) != addr {
          return true;
        }
        invalid := None;
      } else {
        tardy := Some(MakeNet(addr, len));
      }
      return false;
    }

    method DeregisterInterestResponse(code: ReplyCode, addr: Addr, len: nat) returns (aborted: bool)
      requires Valid() && len <= |addr|
      modifies this
      ensures Valid()
      ensures var o := NextHopModel.DeregisterInterestResponse(old(View()), code, addr, len);
              aborted == o.Abort? && (o.Next? ==> View() == o.value)
    {
      if queue == [] || queue[0] != Deregister(addr, len) || code == OtherError {
        return true;
      }
      if code == ResolveFailed {
        replies := replies + 1;
        queue := [];
        return false;
      }
      if code == CommandFailed {
        var failed := NoteFailure(addr, len);
        if failed {
          return true;
        }
      }
      replies := replies + 1;
      queue := queue[1..];
      SendNextRequest();
      return false;
    }
  }
}
