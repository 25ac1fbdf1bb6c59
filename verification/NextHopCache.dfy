/** The cache of answers from the RIB, with its two indexes over shared, mutable entries. */
module NextHopCache {
  import opened Wrappers
  import opened Nets
  import M = NextHopModel

  class NextHopEntry {
    const address: Addr
    const prefixLen: nat
    const realPrefixLen: nat
    const resolvable: bool
    var metric: nat
    var refs: map<Addr, int>

    constructor (address: Addr, prefixLen: nat, realPrefixLen: nat, resolvable: bool, metric: nat)
      ensures this.address == address && this.prefixLen == prefixLen && this.realPrefixLen == realPrefixLen
      ensures this.resolvable == resolvable && this.metric == metric && refs == map[]
    {
      this.address := address;
      this.prefixLen := prefixLen;
      this.realPrefixLen := realPrefixLen;
      this.resolvable := resolvable;
      this.metric := metric;
      this.refs := map[];
    }

    function Value(): M.Entry
      reads this
    {
      M.Entry(address, prefixLen, realPrefixLen, resolvable, metric, refs)
    }

    /** The keys of the two indexes. */
    predicate InBounds() {
      prefixLen <= |address| && realPrefixLen <= |address|
    }

    function PrefixKey(): Net
      requires InBounds()
    {
      MakeNet(address, prefixLen)
    }

    function RealKey(): Net
      requires InBounds()
    {
      MakeNet(address, realPrefixLen)
    }
  }

  type Prefixes = map<Net, NextHopEntry>
  type RealPrefixes = map<Net, set<NextHopEntry>>

  /** Each entry of the by-prefix index sits at its own prefix. */
  ghost predicate Keyed(p: Prefixes) {
    forall n | n in p :: p[n].InBounds() && p[n].PrefixKey() == n
  }

  lemma DistinctEntries(p: Prefixes, n: Net)
    requires Keyed(p) && n in p
    ensures forall m | m in p && m != n :: p[m] != p[n]
  {
    forall m | m in p && m != n ensures p[m] != p[n] { assert p[m].PrefixKey() == m && p[n].PrefixKey() == n; }
  }

  /** What the real-prefix index has to be: under each real prefix the entries that have it. */
  ghost function RealIndex(p: Prefixes): RealPrefixes
    requires Keyed(p)
  {
    map k | k in (set n | n in p :: p[n].RealKey()) :: Sharing(p, k)
  }

  ghost function Sharing(p: Prefixes, k: Net): set<NextHopEntry>
    requires Keyed(p)
  {
    set n | n in p && p[n].RealKey() == k :: p[n]
  }

  /** The address and the real prefix length identify an entry. */
  ghost predicate Identified(p: Prefixes) {
    forall n, m | n in p && m in p && p[n].address == p[m].address && p[n].realPrefixLen == p[m].realPrefixLen :: n == m
  }

  /** The real-prefix index with one more entry. */
  function RealInsert(r: RealPrefixes, e: NextHopEntry): RealPrefixes
    requires e.InBounds()
  {
    var k := e.RealKey();
    r[k := (if k in r then r[k] else {}) + {e}]
  }

  lemma SharingInsert(p: Prefixes, e: NextHopEntry, k: Net)
    requires Keyed(p) && e.InBounds() && e.PrefixKey() !in p
    ensures Keyed(p[e.PrefixKey() := e])
    ensures Sharing(p[e.PrefixKey() := e], k) == if k == e.RealKey() then Sharing(p, k) + {e} else Sharing(p, k)
  {
    var p' := p[e.PrefixKey() := e];
    assert p'[e.PrefixKey()] == e;
    forall x | x in Sharing(p, k) ensures x in Sharing(p', k) {
      var n :| n in p && p[n].RealKey() == k && p[n] == x;
      assert n in p' && p'[n] == x;
    }
  }

  lemma InsertIdentified(p: Prefixes, e: NextHopEntry)
    requires Identified(p) && e.InBounds()
    requires forall n | n in p :: !(p[n].address == e.address && p[n].realPrefixLen == e.realPrefixLen)
    ensures Identified(p[e.PrefixKey() := e])
  {
  }

  lemma SharingNonEmpty(p: Prefixes, k: Net)
    requires Keyed(p)
    ensures k in RealIndex(p) <==> Sharing(p, k) != {}
  {
    if k in RealIndex(p) {
      var n :| n in p && p[n].RealKey() == k;
      assert p[n] in Sharing(p, k);
    }
  }

  lemma RealIndexIs(p: Prefixes, r: RealPrefixes)
    requires Keyed(p)
    requires forall k :: k in r <==> Sharing(p, k) != {}
    requires forall k | k in r :: r[k] == Sharing(p, k)
    ensures RealIndex(p) == r
  {
    forall k ensures k in RealIndex(p) <==> k in r { SharingNonEmpty(p, k); }
  }

  lemma InsertAgrees(p: Prefixes, e: NextHopEntry)
    requires Keyed(p) && e.InBounds() && e.PrefixKey() !in p
    ensures var p' := p[e.PrefixKey() := e];
            Keyed(p') && RealIndex(p') == RealInsert(RealIndex(p), e)
  {
    var p', r := p[e.PrefixKey() := e], RealInsert(RealIndex(p), e);
    SharingInsert(p, e, e.RealKey());
    forall k ensures k in r <==> Sharing(p', k) != {}
             ensures k in r ==> r[k] == Sharing(p', k) {
      SharingNonEmpty(p, k);
      SharingInsert(p, e, k);
    }
    RealIndexIs(p', r);
  }

  /** The real-prefix index without the entry; an emptied set goes too. */
  function RealRemove(r: RealPrefixes, e: NextHopEntry): RealPrefixes
    requires e.InBounds() && e.RealKey() in r
  {
    var k := e.RealKey();
    if r[k] - {e} == {} then r - {k} else r[k := r[k] - {e}]
  }

  lemma SharingRemove(p: Prefixes, n: Net, k: Net)
    requires Keyed(p) && n in p
    ensures Keyed(p - {n}) && Sharing(p - {n}, k) == Sharing(p, k) - {p[n]}
  {
    forall x | x in Sharing(p, k) && x != p[n] ensures x in Sharing(p - {n}, k) {
      var m :| m in p && p[m].RealKey() == k && p[m] == x;
      assert m in p - {n};
    }
  }

  lemma RemoveAgrees(p: Prefixes, n: Net)
    requires Keyed(p) && n in p
    ensures p[n].RealKey() in RealIndex(p)
    ensures Keyed(p - {n}) && RealIndex(p - {n}) == RealRemove(RealIndex(p), p[n])
  {
    assert p[n] in Sharing(p, p[n].RealKey());
    SharingNonEmpty(p, p[n].RealKey());
    var r := RealRemove(RealIndex(p), p[n]);
    forall k ensures k in r <==> Sharing(p - {n}, k) != {}
             ensures k in r ==> r[k] == Sharing(p - {n}, k) {
      SharingNonEmpty(p, k);
      SharingRemove(p, n, k);
      assert k != p[n].RealKey() ==> p[n] !in Sharing(p, k);
    }
    RealIndexIs(p - {n}, r);
  }

  /** Index agreement: an entry is in the by-prefix index at its prefix exactly when it is in a
      real-prefix set, that set is the one at its real prefix, no set is empty, and within a set
      the address identifies the entry. */
  lemma IndexesAgree(p: Prefixes, k: Net, e: NextHopEntry)
    requires Keyed(p) && Identified(p)
    ensures k in RealIndex(p) ==> RealIndex(p)[k] != {}
    ensures k in RealIndex(p) && e in RealIndex(p)[k] <==>
            e.InBounds() && e.RealKey() == k && e.PrefixKey() in p && p[e.PrefixKey()] == e
    ensures k in RealIndex(p) ==>
              forall f | e in RealIndex(p)[k] && f in RealIndex(p)[k] && e.address == f.address :: e == f
  {
    SharingNonEmpty(p, k);
    if e.InBounds() && e.PrefixKey() in p && p[e.PrefixKey()] == e && e.RealKey() == k {
      assert e in Sharing(p, k);
    }
    if k in RealIndex(p) {
      forall f | e in RealIndex(p)[k] && f in RealIndex(p)[k] && e.address == f.address ensures e == f {
        assert |e.RealKey()| == e.realPrefixLen && |f.RealKey()| == f.realPrefixLen;
        assert p[e.PrefixKey()] == e && p[f.PrefixKey()] == f;
      }
    }
  }

  lemma RemoveUpdated(c: M.Cache, n: Net, e: M.Entry)
    ensures c[n := e] - {n} == c - {n}
  {
  }

  class Cache {
    var byPrefix: Prefixes
    var byReal: RealPrefixes
    ghost var entries: set<NextHopEntry>

    ghost var contents: M.Cache   // what the cache holds, as values

    ghost predicate Valid()
      reads this, entries
    {
      Indexed() && Mirrored()
    }

    /** The two indexes agree. */
    ghost predicate Indexed()
      reads `byPrefix, `byReal
    {
      Keyed(byPrefix) && Identified(byPrefix) && byReal == RealIndex(byPrefix)
    }

    /** The values are those of the entries. */
    ghost predicate Mirrored()
      reads this, entries
    {
      && contents.Keys == byPrefix.Keys
      && forall n | n in byPrefix :: byPrefix[n] in entries && contents[n] == byPrefix[n].Value()
    }

    constructor ()
      ensures Valid() && contents == map[] && entries == {}
    {
      byPrefix := map[];
      byReal := map[];
      entries := {};
      contents := map[];
    }

    /** RefTrie::find on the by-prefix index. */
    method Find(a: Addr) returns (r: Option<Net>)
      requires Valid()
      ensures r == M.Find(contents, a)
    {
      var len := |a|;
      while a[..len] !in byPrefix && len > 0
        invariant 0 <= len <= |a|
        invariant M.FindUpTo(contents, a, |a|) == M.FindUpTo(contents, a, len)
      {
        len := len - 1;
      }
      r := if a[..len] in byPrefix then Some(a[..len]) else None;
    }

    /** rpe_to_pe: the entry of a real-prefix set with the given address. */
    method FindInSet(entries: set<NextHopEntry>, addr: Addr, realLen: nat) returns (r: NextHopEntry?)
      ensures r != null ==> r in entries && r.address == addr && r.realPrefixLen == realLen
      ensures r == null ==> forall e | e in entries :: !(e.address == addr && e.realPrefixLen == realLen)
    {
      var todo := entries;
      while todo != {}
        invariant todo <= entries
        invariant forall e | e in entries && e !in todo :: !(e.address == addr && e.realPrefixLen == realLen)
        decreases |todo|
      {
        var e :| e in todo;
        if e.address == addr && e.realPrefixLen == realLen {
          return e;
        }
        todo := todo - {e};
      }
      r := null;
    }

    /** add_entry, which aborts if the address is not the masked next hop or if either index
        already knows the range. */
    method AddEntry(addr: Addr, nexthop: Addr, len: nat, realLen: nat, resolvable: bool, metric: nat)
      returns (aborted: bool)
      requires Valid() && len <= |nexthop| && len <= |addr| && realLen <= |addr|
      modifies this
      ensures Valid() && old(entries) <= entries && fresh(entries - old(entries))
      ensures aborted <==>
              || addr != MaskByPrefixLen(nexthop, len)
              || MakeNet(addr, len) in old(contents)
              || exists m | m in old(contents) ::
                   old(contents)[m].realPrefixLen == realLen && old(contents)[m].address == addr
      ensures !aborted ==>
              contents == old(contents)[MakeNet(addr, len) := M.Entry(addr, len, realLen, resolvable, metric, map[])]
    {
      if addr != MaskByPrefixLen(nexthop, len) || MakeNet(addr, len) in byPrefix {
        return true;
      }
      var key := MakeNet(addr, realLen);
      if key in byReal {
        var known := FindInSet(byReal[key], addr, realLen);
        if known != null {
          IndexesAgree(byPrefix, key, known);
          assert contents[known.PrefixKey()] == known.Value();
          return true;
        }
      }
      forall n | n in byPrefix ensures !(byPrefix[n].address == addr && byPrefix[n].realPrefixLen == realLen) {
        IndexesAgree(byPrefix, key, byPrefix[n]);
      }
      var entry := new NextHopEntry(addr, len, realLen, resolvable, metric);
      Insert(entry);
      return false;
    }

    /** Enter a new object into both indexes. */
    method Insert(entry: NextHopEntry)
      requires Valid() && entry.InBounds() && entry.PrefixKey() !in byPrefix && entry !in entries
      requires forall n | n in byPrefix ::
                 !(byPrefix[n].address == entry.address && byPrefix[n].realPrefixLen == entry.realPrefixLen)
      modifies this
      ensures Valid() && entries == old(entries) + {entry}
      ensures contents == old(contents)[entry.PrefixKey() := entry.Value()]
    {
      InsertIdentified(byPrefix, entry);
      InsertAgrees(byPrefix, entry);
      byReal := RealInsert(byReal, entry);
      byPrefix := byPrefix[entry.PrefixKey() := entry];
      entries := entries + {entry};
      contents := contents[entry.PrefixKey() := entry.Value()];
    }

    /** delete_entry: the entry leaves both indexes; its next hops are handed back. */
    method DeleteEntry(addr: Addr, len: nat) returns (refs: map<Addr, int>)
      requires Valid() && len <= |addr| && MakeNet(addr, len) in byPrefix
      requires byPrefix[MakeNet(addr, len)].address == addr
      modifies this
      ensures Valid()
      ensures refs == old(byPrefix[MakeNet(addr, len)].refs)
      ensures entries == old(entries)
      ensures contents == old(contents) - {MakeNet(addr, len)}
    {
      var n := MakeNet(addr, len);
      refs := byPrefix[n].refs;
      Unlink(n, addr);
      contents := contents - {n};
    }

    /** Find the entry in its real-prefix set, and take it out of both indexes. */
    method Unlink(n: Net, addr: Addr)
      requires Indexed() && n in byPrefix && byPrefix[n].address == addr
      modifies `byPrefix, `byReal
      ensures Indexed() && byPrefix == old(byPrefix) - {n}
    {
      var en := byPrefix[n];
      RemoveAgrees(byPrefix, n);
      IndexesAgree(byPrefix, en.RealKey(), en);
      var found := FindInSet(byReal[en.RealKey()], addr, en.realPrefixLen);
      assert found == en;
      byReal := RealRemove(byReal, found);
      byPrefix := byPrefix - {n};
    }

    /** Give the entry at a prefix a new set of counted next hops. */
    method SetRefs(n: Net, refs: map<Addr, int>)
      requires Mirrored() && n in byPrefix && forall m | m in byPrefix && m != n :: byPrefix[m] != byPrefix[n]
      modifies this`contents, entries
      ensures Mirrored() && contents == old(contents)[n := old(contents)[n].(refs := refs)]
    {
      var en := byPrefix[n];
      ghost var c := contents;
      en.refs := refs;
      assert c[n].(refs := refs) == en.Value();
      contents := c[n := c[n].(refs := refs)];
      assert contents.Keys == c.Keys;
    }

    /** register_nexthop: true when some entry covers the next hop. */
    method RegisterNexthop(nexthop: Addr, incr: int) returns (ok: bool)
      requires Valid() && incr != 0
      modifies this`contents, entries
      ensures Valid()
      ensures ok == M.CacheRegister(old(contents), nexthop, incr).Some?
      ensures contents == if ok then M.CacheRegister(old(contents), nexthop, incr).value else old(contents)
    {
      var pi := Find(nexthop);
      if pi.None? {
        return false;
      }
      var en := byPrefix[pi.value];
      ghost var e := contents[pi.value];
      DistinctEntries(byPrefix, pi.value);
      if nexthop !in en.refs {
        assert M.AddRef(e, nexthop, incr) == e.(refs := en.refs[nexthop := incr]);
        SetRefs(pi.value, en.refs[nexthop := incr]);
      } else {
        assert M.AddRef(e, nexthop, incr) == e.(refs := en.refs[nexthop := en.refs[nexthop] + incr]);
        SetRefs(pi.value, en.refs[nexthop := en.refs[nexthop] + incr]);
      }
      return true;
    }

    method DropReference(n: Net, nexthop: Addr) returns (last: bool, addr: Addr, len: nat)
      requires Valid() && n in byPrefix && nexthop in byPrefix[n].refs
      modifies this, entries
      ensures Valid() && entries == old(entries)
      ensures (contents, last) == M.DropReference(old(contents), n, nexthop)
      ensures last ==> addr == old(contents)[n].address && len == old(contents)[n].prefixLen
    {
      last, addr, len := false, [], 0;
      var en := byPrefix[n];
      ghost var c := contents;
      DistinctEntries(byPrefix, n);
      var count := en.refs[nexthop] - 1;
      var refs := if count == 0 then en.refs - {nexthop} else en.refs[nexthop := count];
      SetRefs(n, refs);
      if count == 0 && refs == map[] {
        last, addr, len := true, en.address, en.prefixLen;
        var _ := DeleteEntry(en.address, en.prefixLen);
        RemoveUpdated(c, n, c[n].(refs := refs));
      } else {
        assert count != 0 ==> nexthop in refs;
      }
    }

    /** deregister_nexthop: a next hop that loses its last reference leaves its entry, and an
        entry that loses its last next hop leaves the cache. */
    method DeregisterNexthop(nexthop: Addr) returns (found: bool, last: bool, addr: Addr, len: nat)
      requires Valid()
      modifies this, entries
      ensures Valid() && entries == old(entries)
      ensures found == M.Holder(old(contents), nexthop).Some?
      ensures !found ==> contents == old(contents) && !last
      ensures found ==> (contents, last) == M.CacheDeregister(old(contents), nexthop)
      ensures last ==>
                var e := old(contents)[M.Holder(old(contents), nexthop).value];
                addr == e.address && len == e.prefixLen
    {
      found, last, addr, len := false, false, [], 0;
      var pi := Find(nexthop);
      if pi.None? {
        return;
      }
      if nexthop !in byPrefix[pi.value].refs {
        return;
      }
      found := true;
      last, addr, len := DropReference(pi.value, nexthop);
    }

    /** change_entry: a new metric for a cached range. */
    method ChangeEntry(addr: Addr, len: nat, metric: nat) returns (refs: map<Addr, int>)
      requires Valid() && len <= |addr| && MakeNet(addr, len) in byPrefix
      requires byPrefix[MakeNet(addr, len)].address == addr
      modifies this`contents, entries
      ensures Valid()
      ensures refs == old(byPrefix[MakeNet(addr, len)].refs)
      ensures contents == old(contents)[MakeNet(addr, len) := old(contents)[MakeNet(addr, len)].(metric := metric)]
    {
      var en := byPrefix[MakeNet(addr, len)];
      refs := en.refs;
      assert forall m | m in byPrefix && byPrefix[m] == en :: m == MakeNet(addr, len);
      en.metric := metric;
      contents := contents[MakeNet(addr, len) := contents[MakeNet(addr, len)].(metric := metric)];
    }

    /** lookup_by_nexthop: the answer recorded for the next hop itself. */
    method LookupByNexthop(nexthop: Addr) returns (r: Option<(bool, nat)>)
      requires Valid()
      ensures r == match M.Holder(contents, nexthop)
                   case None => None
                   case Some(n) => Some((contents[n].resolvable, contents[n].metric))
    {
      var pi := Find(nexthop);
      if pi.None? || nexthop !in byPrefix[pi.value].refs {
        return None;
      }
      var en := byPrefix[pi.value];
      return Some((en.resolvable, en.metric));
    }
  }
}
