/** What every step of the next-hop resolver keeps. */
module NextHopInvariant {
  import opened Wrappers
  import opened Nets
  import opened NextHopModel

  // ---- The cache ----------------------------------------------------------------------

  /** An entry sits at its own prefix, its next hops lie inside it and are counted. */
  ghost predicate EntryOk(n: Net, e: Entry) {
    && e.prefixLen <= |e.address| && e.realPrefixLen <= |e.address|
    && n == MakeNet(e.address, e.prefixLen)
    && e.address == MaskByPrefixLen(e.address, e.prefixLen)
    && forall nh | nh in e.refs :: n <= nh && e.refs[nh] > 0
  }

  ghost predicate CacheOk(c: Cache) {
    && (forall n | n in c :: EntryOk(n, c[n]))
    && (forall n, m | n in c && m in c && n != m :: Disjoint(n, m))
  }

  ghost predicate AllReferenced(c: Cache) {
    forall n | n in c :: c[n].refs != map[]
  }

  /** References to the next hop held by the cache. */
  ghost function CacheRefs(c: Cache, nexthop: Addr): int {
    match Holder(c, nexthop)
    case None => 0
    case Some(n) => c[n].refs[nexthop]
  }

  /** Ranges do not overlap, so a covering entry is the one that `find` returns. */
  lemma FindUnique(c: Cache, n: Net, a: Addr)
    requires CacheOk(c) && n in c && n <= a
    ensures Find(c, a) == Some(n)
  {
    PrefixesNested(n, Find(c, a).value, a);
  }

  /** Only one entry can hold references to a next hop, so CacheRefs counts all of them. */
  lemma HolderUnique(c: Cache, n: Net, nexthop: Addr)
    requires CacheOk(c) && n in c && nexthop in c[n].refs
    ensures Holder(c, nexthop) == Some(n)
  {
    assert EntryOk(n, c[n]);
    FindUnique(c, n, nexthop);
  }

  lemma SameKeysSameFind(c: Cache, c': Cache, a: Addr)
    requires c.Keys == c'.Keys
    ensures Find(c', a) == Find(c, a)
  {
    SameKeysSameFindUpTo(c, c', a, |a|);
  }

  lemma {:induction false} SameKeysSameFindUpTo(c: Cache, c': Cache, a: Addr, len: nat)
    requires c.Keys == c'.Keys && len <= |a|
    ensures FindUpTo(c', a, len) == FindUpTo(c, a, len)
  {
    assert a[..len] in c <==> a[..len] in c'.Keys;
    if len > 0 { SameKeysSameFindUpTo(c, c', a, len - 1); }
  }

  lemma UpdateKeepsCache(c: Cache, n: Net, e: Entry)
    requires CacheOk(c) && n in c && EntryOk(n, e)
    ensures CacheOk(c[n := e]) && c[n := e].Keys == c.Keys
  {
    var c' := c[n := e];
    forall m | m in c' ensures EntryOk(m, c'[m]) { if m != n { assert EntryOk(m, c[m]); } }
  }

  lemma RegisterKeepsCache(c: Cache, nexthop: Addr, incr: int)
    requires CacheOk(c) && Covered(c, nexthop) && incr > 0
    ensures var c' := CacheRegister(c, nexthop, incr).value;
            CacheOk(c') && c'.Keys == c.Keys && (AllReferenced(c) ==> AllReferenced(c'))
  {
    var n := Find(c, nexthop).value;
    assert EntryOk(n, c[n]);
    UpdateKeepsCache(c, n, AddRef(c[n], nexthop, incr));
  }

  /** Registering moves only the count of the next hop registered, and holds it from then on. */
  lemma RegisterAt(c: Cache, nexthop: Addr, incr: int, a: Addr)
    requires Covered(c, nexthop)
    ensures var c' := CacheRegister(c, nexthop, incr).value;
            && Find(c', a) == Find(c, a)
            && CacheRefs(c', a) == CacheRefs(c, a) + (if a == nexthop then incr else 0)
            && Holder(c', a) == if a == nexthop then Find(c, a) else Holder(c, a)
  {
    var c' := CacheRegister(c, nexthop, incr).value;
    assert c'.Keys == c.Keys;
    SameKeysSameFind(c, c', a);
  }

  lemma RemoveKeepsCache(c: Cache, n: Net)
    requires CacheOk(c) && n in c
    ensures CacheOk(c - {n}) && (AllReferenced(c) ==> AllReferenced(c - {n}))
  {
    forall m | m in c - {n} ensures EntryOk(m, (c - {n})[m]) { assert EntryOk(m, c[m]); }
  }

  /** Taking an entry out hides exactly what lies in its range. */
  lemma RemoveAt(c: Cache, n: Net, a: Addr)
    requires CacheOk(c) && n in c
    ensures Find(c - {n}, a) == if n <= a then None else Find(c, a)
    ensures Holder(c - {n}, a) == if a in c[n].refs then None else Holder(c, a)
    ensures CacheRefs(c - {n}, a) == if a in c[n].refs then 0 else CacheRefs(c, a)
  {
    var c' := c - {n};
    RemoveKeepsCache(c, n);
    assert EntryOk(n, c[n]);
    if n <= a {
      FindUnique(c, n, a);
      assert forall m | m in c' :: m in c && Disjoint(n, m);
      forall m | m in c' ensures !(m <= a) {
        if m <= a { PrefixesNested(n, m, a); }
      }
    } else if Find(c, a).Some? {
      FindUnique(c', Find(c, a).value, a);
    }
  }

  lemma DeregisterKeepsCache(c: Cache, nexthop: Addr)
    requires CacheOk(c) && AllReferenced(c) && Holder(c, nexthop).Some?
    ensures var c' := CacheDeregister(c, nexthop).0;
            CacheOk(c') && AllReferenced(c') && c'.Keys <= c.Keys
  {
    var n := Holder(c, nexthop).value;
    var (c', last) := CacheDeregister(c, nexthop);
    assert EntryOk(n, c[n]);
    if last {
      RemoveKeepsCache(c, n);
    } else {
      UpdateKeepsCache(c, n, c'[n]);
    }
  }

  /** An entry leaves the cache only when the next hop was its last one. */
  lemma LastHeldAlone(c: Cache, nexthop: Addr)
    requires Holder(c, nexthop).Some? && CacheDeregister(c, nexthop).1
    ensures var n := Holder(c, nexthop).value;
            c[n].refs == map[nexthop := 1] && CacheDeregister(c, nexthop).0 == c - {n}
  {
    var refs := c[Holder(c, nexthop).value].refs;
    assert nexthop in refs[nexthop := refs[nexthop] - 1];
    assert refs[nexthop] == 1 && refs - {nexthop} == map[];
    assert forall a | a in refs :: a == nexthop || a in refs - {nexthop};
  }

  lemma DropAt(c: Cache, n: Net, nexthop: Addr, a: Addr)
    requires n in c && nexthop in c[n].refs && !DropReference(c, n, nexthop).1
    ensures var c' := DropReference(c, n, nexthop).0;
            && c'.Keys == c.Keys && (forall m | m in c && m != n :: c'[m] == c[m])
            && (a != nexthop ==>
                  (a in c'[n].refs <==> a in c[n].refs) && (a in c[n].refs ==> c'[n].refs[a] == c[n].refs[a]))
            && (if c[n].refs[nexthop] == 1 then nexthop !in c'[n].refs
                else nexthop in c'[n].refs && c'[n].refs[nexthop] == c[n].refs[nexthop] - 1)
  {
  }

  /** Deregistering takes one reference from the next hop and leaves the others alone. */
  lemma DeregisterAt(c: Cache, nexthop: Addr, a: Addr)
    requires CacheOk(c) && Holder(c, nexthop).Some?
    ensures var c' := CacheDeregister(c, nexthop).0;
            && CacheRefs(c', a) == CacheRefs(c, a) - (if a == nexthop then 1 else 0)
            && (a != nexthop ==> Holder(c', a) == Holder(c, a))
            && (!Covered(c, a) ==> !Covered(c', a))
  {
    var n := Holder(c, nexthop).value;
    if CacheDeregister(c, nexthop).1 {
      LastHeldAlone(c, nexthop);
      RemoveAt(c, n, a);
    } else {
      DropAt(c, n, nexthop, a);
      SameKeysSameFind(c, CacheDeregister(c, nexthop).0, a);
    }
  }

  /** A fresh answer that overlaps no cached range adds itself and nothing else. */
  lemma AddKeepsCache(c: Cache, n: Net, e: Entry)
    requires CacheOk(c) && EntryOk(n, e) && forall m | m in c :: Disjoint(m, n)
    ensures n !in c && CacheOk(c[n := e])
  {
    var c' := c[n := e];
    forall m | m in c' ensures EntryOk(m, c'[m]) { if m != n { assert EntryOk(m, c[m]); } }
  }

  lemma AddAt(c: Cache, n: Net, e: Entry, a: Addr)
    requires CacheOk(c) && EntryOk(n, e) && e.refs == map[]
    requires forall m | m in c :: Disjoint(m, n)
    ensures CacheRefs(c[n := e], a) == CacheRefs(c, a)
    ensures Holder(c[n := e], a) == Holder(c, a)
    ensures Find(c[n := e], a) == if n <= a then Some(n) else Find(c, a)
  {
    var c' := c[n := e];
    AddKeepsCache(c, n, e);
    if n <= a {
      FindUnique(c', n, a);
      forall m | m in c ensures !(m <= a) {
        if m <= a { PrefixesNested(n, m, a); }
      }
    } else if Find(c, a).Some? {
      FindUnique(c', Find(c, a).value, a);
    }
  }

  // ---- The queue ----------------------------------------------------------------------

  ghost predicate RegisterOk(r: Request)
    requires r.Register?
  {
    && (r.newRegister || r.reregister)
    && r.requests.total == |r.requests.nets|
    && (!r.newRegister ==> r.requests.total == 0)
    && r.refCnt >= 0
    && (!r.reregister ==> r.refCnt == 0)
  }

  /** At most one registration per next hop, each with sound counters. */
  ghost predicate QueueOk(q: seq<Request>) {
    && (forall i | 0 <= i < |q| && q[i].Register? :: RegisterOk(q[i]))
    && (forall i, j | 0 <= i < j < |q| && q[i].Register? && q[j].Register? :: q[i].nexthop != q[j].nexthop)
  }

  /** References carried by one request: downcalls still waiting plus carried-over references. */
  ghost function RequestRefs(r: Request, nexthop: Addr): int {
    if r.Register? && r.nexthop == nexthop then r.requests.total + r.refCnt else 0
  }

  ghost function QueueRefs(q: seq<Request>, nexthop: Addr): int {
    if q == [] then 0 else RequestRefs(q[0], nexthop) + QueueRefs(q[1..], nexthop)
  }

  lemma {:induction false} QueueRefsConcat(p: seq<Request>, q: seq<Request>, nexthop: Addr)
    ensures QueueRefs(p + q, nexthop) == QueueRefs(p, nexthop) + QueueRefs(q, nexthop)
  {
    if p == [] {
      assert p + q == q;
    } else {
      assert (p + q)[1..] == p[1..] + q;
      QueueRefsConcat(p[1..], q, nexthop);
    }
  }

  lemma QueueRefsSplit(q: seq<Request>, i: nat, nexthop: Addr)
    requires i < |q|
    ensures QueueRefs(q, nexthop)
         == QueueRefs(q[..i], nexthop) + RequestRefs(q[i], nexthop) + QueueRefs(q[i + 1..], nexthop)
  {
    assert q == q[..i] + q[i..] && q[i..][1..] == q[i + 1..];
    QueueRefsConcat(q[..i], q[i..], nexthop);
  }

  lemma QueueRefsUpdate(q: seq<Request>, i: nat, r: Request, nexthop: Addr)
    requires i < |q|
    ensures QueueRefs(q[i := r], nexthop)
         == QueueRefs(q, nexthop) - RequestRefs(q[i], nexthop) + RequestRefs(r, nexthop)
  {
    QueueRefsSplit(q, i, nexthop);
    QueueRefsSplit(q[i := r], i, nexthop);
    assert q[i := r][..i] == q[..i] && q[i := r][i + 1..] == q[i + 1..];
  }

  lemma QueueRefsErase(q: seq<Request>, i: nat, nexthop: Addr)
    requires i < |q|
    ensures QueueRefs(q[..i] + q[i + 1..], nexthop) == QueueRefs(q, nexthop) - RequestRefs(q[i], nexthop)
  {
    QueueRefsSplit(q, i, nexthop);
    QueueRefsConcat(q[..i], q[i + 1..], nexthop);
  }

  /** The next hop of the first registration in the queue. */
  ghost function FirstRegister(q: seq<Request>): Option<Addr> {
    if q == [] then None
    else if q[0].Register? then Some(q[0].nexthop)
    else FirstRegister(q[1..])
  }

  lemma {:induction false} FirstRegisterConcat(p: seq<Request>, q: seq<Request>)
    ensures FirstRegister(p + q) == if FirstRegister(p).Some? then FirstRegister(p) else FirstRegister(q)
  {
    if p == [] {
      assert p + q == q;
    } else {
      assert (p + q)[1..] == p[1..] + q;
      FirstRegisterConcat(p[1..], q);
    }
  }

  lemma {:induction false} FirstRegisterUpdate(q: seq<Request>, i: nat, r: Request)
    requires i < |q| && q[i].Register? && r.Register? && r.nexthop == q[i].nexthop
    ensures FirstRegister(q[i := r]) == FirstRegister(q)
  {
    if i > 0 {
      assert q[i := r][1..] == q[1..][i - 1 := r];
      FirstRegisterUpdate(q[1..], i - 1, r);
    }
  }

  lemma {:induction false} FirstRegisterEraseDereg(q: seq<Request>, i: nat)
    requires i < |q| && q[i].Deregister?
    ensures FirstRegister(q[..i] + q[i + 1..]) == FirstRegister(q)
  {
    if i == 0 {
      assert q[..0] + q[1..] == q[1..];
    } else {
      assert (q[..i] + q[i + 1..])[1..] == q[1..][..i - 1] + q[1..][i..];
      FirstRegisterEraseDereg(q[1..], i - 1);
    }
  }

  /** Coverage depends on the ranges held, and only shrinks with them. */
  lemma CoverageShrinks(c: Cache, c': Cache, a: Addr)
    requires c'.Keys <= c.Keys && !Covered(c, a)
    ensures !Covered(c', a)
  {
    assert forall n | n in c' :: n in c.Keys;
  }

  lemma {:induction false} FirstRegisterAt(q: seq<Request>, i: nat)
    requires i <= |q| && forall j | 0 <= j < i :: q[j].Deregister?
    ensures i == |q| ==> FirstRegister(q) == None
    ensures i < |q| && q[i].Register? ==> FirstRegister(q) == Some(q[i].nexthop)
  {
    if i > 0 { FirstRegisterAt(q[1..], i - 1); }
  }

  // ---- The whole state ----------------------------------------------------------------

  /** The first registration waiting is one no cached answer covers. */
  ghost predicate HeadUncovered(c: Cache, q: seq<Request>) {
    FirstRegister(q).Some? ==> !Covered(c, FirstRegister(q).value)
  }

  /** Busy exactly when something is queued, and then exactly one request is unanswered: the
      one at the front of the queue. */
  ghost predicate OneOutstanding(s: State) {
    && (s.busy <==> s.queue != [])
    && |s.calls| == s.replies + (if s.busy then 1 else 0)
    && (s.busy ==> s.calls[|s.calls| - 1] == CallOf(s.queue[0]))
  }

  /** After a deregistration that could not be resolved the queue was emptied and nothing sent: the
      resolver believes it is busy while no answer is to come. */
  ghost predicate CutOff(s: State) {
    s.busy && |s.calls| == s.replies
  }

  ghost predicate Inv(s: State) {
    && CacheOk(s.cache) && AllReferenced(s.cache)
    && QueueOk(s.queue)
    && HeadUncovered(s.cache, s.queue)
    && (OneOutstanding(s) || CutOff(s))
  }

  lemma HeadStaysUncovered(c: Cache, c': Cache, q: seq<Request>)
    requires HeadUncovered(c, q) && c'.Keys <= c.Keys
    ensures HeadUncovered(c', q)
  {
    if FirstRegister(q).Some? { CoverageShrinks(c, c', FirstRegister(q).value); }
  }

  /** All references to a next hop, wherever they are. */
  ghost function Refs(s: State, nexthop: Addr): int {
    CacheRefs(s.cache, nexthop) + QueueRefs(s.queue, nexthop)
  }
}
