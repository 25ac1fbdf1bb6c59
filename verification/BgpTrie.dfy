/** The route trie that also finds all routes with the same path attributes. */
module BgpTrie {
  import opened Nets
  import opened Chain

  /** Link a new route in after the head of a chain. A temporary route is linked in first, the route
      that stays is copied from it and so lands behind it, and the temporary one leaves again. */
  method LinkBehind(net: Net, attrs: Attrs, head: ChainedRoute, ghost chain: seq<ChainedRoute>)
      returns (copy: ChainedRoute)
    requires Ring(chain) && chain[0] == head
    modifies head, head.next
    ensures fresh(copy) && copy.net == net && copy.attrs == attrs
    ensures Ring([head, copy] + chain[1..])
  {
    assert Linked(chain, 0);
    var temp := new ChainedRoute.After(net, attrs, head, chain, 0);
    ghost var chain1 := chain[..1] + [temp] + chain[1..];
    assert Linked(chain1, 1);
    copy := new ChainedRoute.After(net, attrs, temp, chain1, 1);
    ghost var chain2 := chain1[..2] + [copy] + chain1[2..];
    assert Linked(chain2, 0) && Linked(chain2, 1);
    var _ := temp.Unchain(chain2, 1);
    assert chain2[..1] + chain2[2..] == [head, copy] + chain[1..];
  }

  /** The first route of its chain. */
  method LinkFirst(net: Net, attrs: Attrs) returns (copy: ChainedRoute)
    ensures fresh(copy) && copy.net == net && copy.attrs == attrs
    ensures Ring([copy])
  {
    var temp := new ChainedRoute(net, attrs);
    assert Linked([temp], 0);
    copy := new ChainedRoute.After(net, attrs, temp, [temp], 0);
    assert [temp][..1] + [copy] + [temp][1..] == [temp, copy];
    assert Linked([temp, copy], 0) && Linked([temp, copy], 1);
    var _ := temp.Unchain([temp, copy], 0);
    assert [temp, copy][..0] + [temp, copy][1..] == [copy];
  }

  lemma NeighboursInRing(chain: seq<ChainedRoute>, i: nat)
    requires Ring(chain) && i < |chain|
    ensures chain[i].next in chain && chain[i].prev in chain
  {
    assert Linked(chain, i) && Linked(chain, Predecessor(i, |chain|));
  }

  /** Take a route out of a chain with others; the next one becomes the head if the head leaves. */
  method TakeOut(head: ChainedRoute, found: ChainedRoute, ghost chain: seq<ChainedRoute>, ghost i: nat)
      returns (head': ChainedRoute)
    requires Ring(chain) && chain[0] == head && |chain| > 1 && i < |chain| && chain[i] == found
    modifies found.prev, found.next
    ensures Ring(Without(chain, i)) && Without(chain, i)[0] == head'
  {
    assert Linked(chain, i);
    head' := if head == found then found.next else head;
    var _ := found.Unchain(chain, i);
  }

  lemma BehindElements<T>(s: seq<T>, y: T)
    requires s != []
    ensures forall x :: x in [s[0], y] + s[1..] <==> x == y || x in s
  {
    assert s == [s[0]] + s[1..];
  }

  function Without<T>(s: seq<T>, i: nat): seq<T>
    requires i < |s|
  {
    s[..i] + s[i + 1..]
  }

  lemma WithoutElements<T>(s: seq<T>, i: nat)
    requires i < |s| && NoRepeats(s)
    ensures forall x :: x in Without(s, i) <==> x in s && x != s[i]
  {
    forall x | x in s && x != s[i] ensures x in Without(s, i) {
      var j :| 0 <= j < |s| && s[j] == x;
      assert if j < i then Without(s, i)[j] == x else Without(s, i)[j - 1] == x;
    }
  }

  type Routes = map<Net, ChainedRoute>
  type Pathmap = map<Attrs, ChainedRoute>
  type Chains = map<Attrs, seq<ChainedRoute>>

  /** The chain holds routes of the trie with the given attributes, each once, from the head on. */
  ghost predicate ChainOk(routes: Routes, head: ChainedRoute, chain: seq<ChainedRoute>, a: Attrs) {
    && chain != [] && chain[0] == head && NoRepeats(chain)
    && forall x | x in chain :: x.attrs == a && x.net in routes && routes[x.net] == x
  }

  /** A route of the trie is in the chain of its attributes. */
  ghost predicate RouteOk(chains: Chains, n: Net, x: ChainedRoute) {
    x.net == n && x.attrs in chains && x in chains[x.attrs]
  }

  /** The pathmap has a head for exactly the attributes of the routes in the trie, and the chains
      partition these routes. */
  ghost predicate IndexOk(routes: Routes, pathmap: Pathmap, chains: Chains) {
    && chains.Keys == pathmap.Keys
    && (forall a | a in chains :: ChainOk(routes, pathmap[a], chains[a], a))
    && (forall n | n in routes :: RouteOk(chains, n, routes[n]))
  }

  lemma IndexInsert(routes: Routes, pathmap: Pathmap, chains: Chains, head: ChainedRoute, chain: seq<ChainedRoute>,
                    route: ChainedRoute)
    requires IndexOk(routes, pathmap, chains) && route.net !in routes
    requires chain != [] && chain[0] == head && NoRepeats(chain)
    requires forall x :: x in chain <==> x == route || (route.attrs in chains && x in chains[route.attrs])
    ensures IndexOk(routes[route.net := route], pathmap[route.attrs := head], chains[route.attrs := chain])
  {
    assert route.attrs in chains ==> ChainOk(routes, pathmap[route.attrs], chains[route.attrs], route.attrs);
    var routes', chains' := routes[route.net := route], chains[route.attrs := chain];
    forall a | a in chains && a != route.attrs ensures ChainOk(routes', pathmap[a], chains[a], a) {
      assert ChainOk(routes, pathmap[a], chains[a], a);
    }
    forall n | n in routes ensures RouteOk(chains', n, routes[n]) {
      assert RouteOk(chains, n, routes[n]);
    }
  }

  lemma IndexErase(routes: Routes, pathmap: Pathmap, chains: Chains, head: ChainedRoute, i: nat, route: ChainedRoute)
    requires IndexOk(routes, pathmap, chains) && route.net in routes && routes[route.net] == route
    requires route.attrs in chains && i < |chains[route.attrs]| && chains[route.attrs][i] == route
    requires |chains[route.attrs]| > 1 && Without(chains[route.attrs], i)[0] == head
    ensures IndexOk(routes - {route.net}, pathmap[route.attrs := head],
                    chains[route.attrs := Without(chains[route.attrs], i)])
  {
    var a0 := route.attrs;
    assert ChainOk(routes, pathmap[a0], chains[a0], a0);
    WithoutElements(chains[a0], i);
    var routes', chains' := routes - {route.net}, chains[a0 := Without(chains[a0], i)];
    forall a | a in chains && a != a0 ensures ChainOk(routes', pathmap[a], chains[a], a) {
      assert ChainOk(routes, pathmap[a], chains[a], a);
    }
    forall n | n in routes' ensures RouteOk(chains', n, routes[n]) {
      assert RouteOk(chains, n, routes[n]);
    }
  }

  lemma IndexEraseOnly(routes: Routes, pathmap: Pathmap, chains: Chains, route: ChainedRoute)
    requires IndexOk(routes, pathmap, chains) && route.net in routes && routes[route.net] == route
    requires route.attrs in chains && chains[route.attrs] == [route]
    ensures IndexOk(routes - {route.net}, pathmap - {route.attrs}, chains - {route.attrs})
  {
    var routes' := routes - {route.net};
    forall a | a in chains && a != route.attrs ensures ChainOk(routes', pathmap[a], chains[a], a) {
      assert ChainOk(routes, pathmap[a], chains[a], a);
    }
    forall n | n in routes' ensures RouteOk(chains - {route.attrs}, n, routes[n]) {
      assert RouteOk(chains, n, routes[n]);
    }
  }

  twostate predicate Untouched(x: ChainedRoute)
    reads x
  {
    x.prev == old(x.prev) && x.next == old(x.next)
  }

  twostate lemma RingKept(chain: seq<ChainedRoute>)
    requires old(Ring(chain)) && forall x | x in chain :: Untouched(x)
    ensures Ring(chain)
  {
    forall i | 0 <= i < |chain| ensures Linked(chain, i) {
      assert old(Linked(chain, i));
      assert chain[i] in chain && chain[Successor(i, |chain|)] in chain;
    }
  }

  class BgpTrie {
    var routes: Routes
    var pathmap: Pathmap
    /** The chains, each from its head on, and the routes in them. */
    ghost var chains: Chains
    ghost var nodes: set<ChainedRoute>

    ghost predicate Valid()
      reads this, nodes
    {
      && IndexOk(routes, pathmap, chains)
      && forall a | a in chains :: Held(chains[a]) && Ring(chains[a])
    }

    ghost predicate Held(chain: seq<ChainedRoute>)
      reads this
    {
      forall x | x in chain :: x in nodes
    }

    constructor ()
      ensures Valid() && routes == map[] && chains == map[] && nodes == {}
    {
      routes, pathmap, chains, nodes := map[], map[], map[], {};
    }

    method Store(routes': Routes, pathmap': Pathmap, ghost chains': Chains, ghost nodes': set<ChainedRoute>)
      requires IndexOk(routes', pathmap', chains')
      requires forall a | a in chains' :: Ring(chains'[a]) && forall x | x in chains'[a] :: x in nodes'
      modifies this
      ensures Valid() && routes == routes' && chains == chains' && nodes == nodes'
    {
      routes, pathmap, chains, nodes := routes', pathmap', chains', nodes';
    }

    /** Insert a route for a new net. */
    method Insert(net: Net, attrs: Attrs) returns (route: ChainedRoute)
      requires Valid() && net !in routes
      modifies this, nodes
      ensures Valid() && nodes == old(nodes) + {route} && fresh(route)
      ensures route.net == net && route.attrs == attrs
      ensures routes == old(routes)[net := route]
      ensures chains == old(chains)[attrs := if attrs in old(chains)
                                             then [old(chains)[attrs][0], route] + old(chains)[attrs][1..]
                                             else [route]]
    {
      if attrs in pathmap {
        route := InsertBehind(net, attrs);
      } else {
        route := InsertFirst(net, attrs);
      }
    }

    method InsertBehind(net: Net, attrs: Attrs) returns (route: ChainedRoute)
      requires Valid() && net !in routes && attrs in pathmap
      modifies this, nodes
      ensures Valid() && nodes == old(nodes) + {route} && fresh(route)
      ensures route.net == net && route.attrs == attrs
      ensures routes == old(routes)[net := route]
      ensures chains == old(chains)[attrs := [old(chains)[attrs][0], route] + old(chains)[attrs][1..]]
    {
      ghost var chain := chains[attrs];
      assert ChainOk(routes, pathmap[attrs], chain, attrs);
      NeighboursInRing(chain, 0);
      route := LinkBehind(net, attrs, pathmap[attrs], chain);
      ghost var chain' := [chain[0], route] + chain[1..];
      BehindElements(chain, route);
      IndexInsert(routes, pathmap, chains, pathmap[attrs], chain', route);
      forall a | a in chains && a != attrs ensures Ring(chains[a]) {
        assert ChainOk(routes, pathmap[a], chains[a], a);
        RingKept(chains[a]);
      }
      Store(routes[net := route], pathmap[attrs := pathmap[attrs]], chains[attrs := chain'], nodes + {route});
    }

    method InsertFirst(net: Net, attrs: Attrs) returns (route: ChainedRoute)
      requires Valid() && net !in routes && attrs !in pathmap
      modifies this
      ensures Valid() && nodes == old(nodes) + {route} && fresh(route)
      ensures route.net == net && route.attrs == attrs
      ensures routes == old(routes)[net := route]
      ensures chains == old(chains)[attrs := [route]]
    {
      route := LinkFirst(net, attrs);
      IndexInsert(routes, pathmap, chains, route, [route], route);
      Store(routes[net := route], pathmap[attrs := route], chains[attrs := [route]], nodes + {route});
    }

    /** Erase the route of a net, which must be there. Its attributes are always in the pathmap. */
    method Erase(net: Net) returns (aborted: bool)
      requires Valid()
      modifies this, nodes
      ensures Valid()
      ensures aborted == (net !in old(routes))
      ensures aborted ==> routes == old(routes) && chains == old(chains) && nodes == old(nodes)
      ensures !aborted ==> routes == old(routes) - {net} && nodes == old(nodes) - {old(routes)[net]}
      ensures !aborted ==> Left(old(chains), chains, old(routes)[net])
    {
      if net !in routes { return true; }
      var found := routes[net];
      assert RouteOk(chains, net, found);
      var a := found.attrs;
      ghost var chain := chains[a];
      assert ChainOk(routes, pathmap[a], chain, a);
      ghost var i :| 0 <= i < |chain| && chain[i] == found;
      assert Linked(chain, i);
      if pathmap[a] == found && found.next == found {
        EraseOnly(found);
      } else {
        EraseLinked(found, i);
      }
      aborted := false;
    }

    /** How RibInTable::add_route changes the trie: the route of the net, if there is one, is erased
        before the new one is inserted. */
    method Put(net: Net, attrs: Attrs) returns (route: ChainedRoute)
      requires Valid()
      modifies this, nodes
      ensures Valid() && fresh(route) && route.net == net && route.attrs == attrs
      ensures routes == old(routes)[net := route]
      ensures nodes == old(nodes) - (if net in old(routes) then {old(routes)[net]} else {}) + {route}
    {
      ghost var before, gone := routes, if net in routes then {routes[net]} else {};
      if net in routes { var _ := Erase(net); }
      ghost var left := nodes;
      assert net !in routes && left == old(nodes) - gone;
      route := Insert(net, attrs);
      PutBack(before, net, route);
    }

    method EraseOnly(found: ChainedRoute)
      requires Valid() && found.net in routes && routes[found.net] == found
      requires found.attrs in chains && chains[found.attrs] == [found]
      modifies this
      ensures Valid()
      ensures routes == old(routes) - {found.net} && nodes == old(nodes) - {found}
      ensures chains == old(chains) - {found.attrs}
    {
      IndexEraseOnly(routes, pathmap, chains, found);
      forall a | a in chains && a != found.attrs ensures found !in chains[a] {
        assert ChainOk(routes, pathmap[a], chains[a], a);
      }
      pathmap, chains := pathmap - {found.attrs}, chains - {found.attrs};
      routes := routes - {found.net};
      nodes := nodes - {found};
    }

    method EraseLinked(found: ChainedRoute, ghost i: nat)
      requires Valid() && found.net in routes && routes[found.net] == found && found.attrs in chains
      requires i < |chains[found.attrs]| && chains[found.attrs][i] == found && |chains[found.attrs]| > 1
      modifies this, nodes
      ensures Valid()
      ensures routes == old(routes) - {found.net} && nodes == old(nodes) - {found}
      ensures chains == old(chains)[found.attrs := Without(old(chains)[found.attrs], i)]
    {
      ghost var chain := chains[found.attrs];
      assert ChainOk(routes, pathmap[found.attrs], chain, found.attrs);
      NeighboursInRing(chain, i);
      WithoutElements(chain, i);
      var head := TakeOut(pathmap[found.attrs], found, chain, i);
      IndexErase(routes, pathmap, chains, head, i, found);
      forall a | a in chains && a != found.attrs ensures Ring(chains[a]) && found !in chains[a] {
        assert ChainOk(routes, pathmap[a], chains[a], a);
        RingKept(chains[a]);
      }
      Store(routes - {found.net}, pathmap[found.attrs := head],
            chains[found.attrs := Without(chain, i)], nodes - {found});
    }

    /** Drop everything: first the heads one by one, then the routes. */
    method DeleteAllNodes()
      requires Valid()
      modifies this
      ensures Valid() && routes == map[] && pathmap == map[] && chains == map[]
    {
      while pathmap.Keys != {}
        decreases |pathmap|
      {
        var a :| a in pathmap.Keys;
        pathmap := pathmap - {a};
      }
      routes, chains := map[], map[];
    }

    /** The chain of an attribute list holds exactly the routes with these attributes. */
    lemma ChainIsExact(a: Attrs, x: ChainedRoute)
      requires Valid()
      ensures a in pathmap <==> exists n :: n in routes && routes[n].attrs == a
      ensures a in chains ==> NoRepeats(chains[a])
      ensures (a in chains && x in chains[a]) <==> (x.net in routes && routes[x.net] == x && x.attrs == a)
    {
      if a in chains {
        assert ChainOk(routes, pathmap[a], chains[a], a);
        assert chains[a][0] in chains[a];
      }
      if x.net in routes { assert RouteOk(chains, x.net, routes[x.net]); }
      forall n | n in routes && routes[n].attrs == a ensures a in chains { assert RouteOk(chains, n, routes[n]); }
    }

    /** Walk a chain from its head until it comes round again. */
    method Walk(a: Attrs) returns (visited: seq<ChainedRoute>)
      requires Valid() && a in pathmap
      ensures visited == chains[a] && NoRepeats(visited)
      ensures forall n | n in routes :: routes[n] in visited <==> routes[n].attrs == a
      ensures forall x | x in visited :: x.net in routes && routes[x.net] == x
    {
      ghost var chain := chains[a];
      assert ChainOk(routes, pathmap[a], chain, a);
      var first := pathmap[a];
      var route := first;
      visited := [first];
      assert Linked(chain, 0);
      while route.next != first
        invariant 0 < |visited| <= |chain| && visited == chain[..|visited|] && route == chain[|visited| - 1]
        decreases |chain| - |visited|
      {
        assert Linked(chain, |visited| - 1);
        route := route.next;
        visited := visited + [route];
      }
      assert Linked(chain, |visited| - 1);
      forall n | n in routes ensures routes[n] in chain <==> routes[n].attrs == a {
        assert RouteOk(chains, n, routes[n]);
        ChainIsExact(a, routes[n]);
      }
    }

    /** Erase the route behind the head, whose own link is read first. */
    method EraseSecond(a: Attrs, route: ChainedRoute, ghost first: ChainedRoute, ghost rest: seq<ChainedRoute>,
                       ghost routes0: Routes, ghost chains0: Chains) returns (next: ChainedRoute)
      requires Erasing(a, first, route, rest, routes0, chains0) && route != first
      modifies this, nodes
      ensures rest != [] && Erasing(a, first, next, rest[1..], routes0, chains0) && nodes <= old(nodes)
    {
      ghost var chain := chains[a];
      assert ChainOk(routes, pathmap[a], chain, a);
      assert chain[1] == route && Linked(chain, 1) && route in chain;
      next := route.next;
      var _ := Erase(route.net);
      assert Without(chain, 1) == [first] + rest[1..];
      RemainderStep(routes0, old(routes), a, route.net);
    }

    /** Delete a whole chain, the head last. */
    method DeleteChain(a: Attrs) returns (deleted: seq<ChainedRoute>)
      requires Valid() && a in pathmap
      modifies this, nodes
      ensures Valid() && chains == old(chains) - {a}
      ensures deleted == old(chains)[a][1..] + [old(chains)[a][0]]
      ensures Remainder(old(routes), routes, a)
      ensures forall n | n in routes :: routes[n].attrs != a
    {
      var first := pathmap[a];
      assert ChainOk(routes, first, chains[a], a);
      deleted := EraseBehind(a, first);
      EraseHead(a, first, old(routes), old(chains));
      deleted := deleted + [first];
      SameButGone(old(chains), chains, a);
      forall n | n in routes ensures routes[n].attrs != a { assert RouteOk(chains, n, routes[n]); }
    }

    method EraseBehind(a: Attrs, first: ChainedRoute) returns (deleted: seq<ChainedRoute>)
      requires Valid() && a in chains && chains[a][0] == first
      modifies this, nodes
      ensures Erasing(a, first, first, [], old(routes), old(chains)) && nodes <= old(nodes)
      ensures deleted == old(chains)[a][1..]
    {
      ghost var all := chains[a][1..];
      ghost var rest := all;
      assert chains[a] == [first] + rest;
      assert Linked(chains[a], 0);
      var route := first.next;
      deleted := [];
      while route != first
        invariant Erasing(a, first, route, rest, old(routes), old(chains)) && nodes <= old(nodes)
        invariant deleted + rest == all
        decreases |rest|
      {
        ErasingNext(a, first, route, rest, old(routes), old(chains));
        Shifted(deleted, rest);
        deleted := deleted + [route];
        route := EraseSecond(a, route, first, rest, old(routes), old(chains));
        rest := rest[1..];
      }
      ErasingDone(a, first, rest, old(routes), old(chains));
    }

    lemma ErasingDone(a: Attrs, first: ChainedRoute, rest: seq<ChainedRoute>, routes0: Routes, chains0: Chains)
      requires Erasing(a, first, first, rest, routes0, chains0)
      ensures rest == []
    {
      assert ChainOk(routes, pathmap[a], chains[a], a);
      assert forall i | 0 <= i < |rest| :: chains[a][i + 1] == rest[i];
    }

    lemma ErasingNext(a: Attrs, first: ChainedRoute, route: ChainedRoute, rest: seq<ChainedRoute>, routes0: Routes,
                      chains0: Chains)
      requires Erasing(a, first, route, rest, routes0, chains0) && route != first
      ensures rest != [] && rest[0] == route
    {
    }

    /** What is left of the chain, and the next route to go. */
    ghost predicate Erasing(
      a: Attrs, first: ChainedRoute, route: ChainedRoute, rest: seq<ChainedRoute>, routes0: Routes, chains0: Chains)
      reads this, nodes
    {
      && Valid() && a in chains && chains[a] == [first] + rest && route == (if rest == [] then first else rest[0])
      && SameBut(chains0, chains, a) && Remainder(routes0, routes, a)
    }

    method EraseHead(a: Attrs, first: ChainedRoute, ghost routes0: Routes, ghost chains0: Chains)
      requires Erasing(a, first, first, [], routes0, chains0)
      modifies this, nodes
      ensures Valid() && a !in chains && SameBut(chains0, chains, a) && Remainder(routes0, routes, a)
    {
      assert ChainOk(routes, pathmap[a], chains[a], a);
      assert first in chains[a];
      var _ := Erase(first.net);
      RemainderStep(routes0, old(routes), a, first.net);
    }
  }

  lemma Shifted<T>(s: seq<T>, rest: seq<T>)
    requires rest != []
    ensures s + [rest[0]] + rest[1..] == s + rest
  {
    assert rest == [rest[0]] + rest[1..];
  }

  lemma SameButGone(chains: Chains, chains': Chains, a: Attrs)
    requires SameBut(chains, chains', a) && a !in chains'
    ensures chains' == chains - {a}
  {
  }

  lemma RemainderStep(routes: Routes, routes': Routes, a: Attrs, n: Net)
    requires Remainder(routes, routes', a) && n in routes' && routes'[n].attrs == a
    ensures Remainder(routes, routes' - {n}, a)
  {
  }

  ghost predicate SameBut(chains: Chains, chains': Chains, a: Attrs) {
    forall b | b != a :: (b in chains' <==> b in chains) && (b in chains ==> chains'[b] == chains[b])
  }

  /** Only routes with the given attributes are gone. */
  ghost predicate Remainder(routes: Routes, routes': Routes, a: Attrs) {
    && (forall n | n in routes && n !in routes' :: routes[n].attrs == a)
    && (forall n | n in routes' :: n in routes && routes'[n] == routes[n])
  }

  lemma PutBack(m: map<Net, ChainedRoute>, net: Net, route: ChainedRoute)
    ensures (m - {net})[net := route] == m[net := route]
  {
  }

  /** A route left its chain, and the chain went if it was the last. */
  ghost predicate Left(chains: Chains, chains': Chains, x: ChainedRoute) {
    && x.attrs in chains
    && var c := chains[x.attrs];
       exists i | 0 <= i < |c| && c[i] == x ::
         chains' == if |c| == 1 then chains - {x.attrs} else chains[x.attrs := Without(c, i)]
  }
}
