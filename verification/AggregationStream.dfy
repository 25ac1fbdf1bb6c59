/** The table downstream of an aggregation table, told only through the messages it is sent, holds
    exactly what the parent's routes call for, after every change of the parent. */
module AggregationStream {
  import opened Wrappers
  import opened Nets
  import opened AggregationModel
  import opened AggregationSafety

  /** The routes of the parent table. */
  type Parent = map<Net, Route>

  ghost function At(t: Table, k: (Net, Marker)): Option<Attrs> {
    if k in t then Some(t[k]) else None
  }

  ghost predicate Feeds(p: Parent, a: Net, n: Net) {
    n in p && Aggregable(p[n]) && AggNet(p[n]) == a
  }

  ghost predicate IsComponent(p: Parent, a: Net, c: Component) {
    Feeds(p, a, c.net) && c.attrs == p[c.net].attrs
  }

  /** What the table downstream should hold: a route that is not aggregated as it is; a component
      once for IBGP, and once for EBGP with the marker that tells whether it was aggregated, unless
      the aggregate stands for it; and an aggregate unless it is suppressed. */
  ghost function Expected(p: Parent, aggs: Aggregates, k: (Net, Marker)): Option<Attrs> {
    var n := k.0;
    match k.1
    case Ignore => if n in p && !Aggregable(p[n]) then Some(p[n].attrs) else None
    case IbgpOnly => if n in p && Aggregable(p[n]) then Some(p[n].attrs) else None
    case Aggregate => if n in aggs && !aggs[n].suppressed then Some(aggs[n].attrs) else None
    case NotAggregated => ExpectedCopy(p, aggs, n, true)
    case WasAggregated => ExpectedCopy(p, aggs, n, false)
  }

  ghost function ExpectedCopy(p: Parent, aggs: Aggregates, n: Net, suppressed: bool): Option<Attrs> {
    if n in p && Aggregable(p[n]) && AggNet(p[n]) in aggs && aggs[AggNet(p[n])].suppressed == suppressed &&
       HasCopy(AggNet(p[n]), suppressed, n)
    then Some(p[n].attrs) else None
  }

  ghost predicate AggOk(p: Parent, agg: Agg, a: Net, id: nat) {
    && agg.net == a && agg.components != [] && Sorted(agg.components) && Evaluated(agg, id)
    && forall c :: c in agg.components <==> IsComponent(p, a, c)
  }

  ghost predicate AggsOk(p: Parent, aggs: Aggregates, id: nat) {
    && (forall n | n in p :: p[n].net == n)
    && (forall n | n in p && Aggregable(p[n]) :: AggNet(p[n]) in aggs)
    && forall a | a in aggs :: AggOk(p, aggs[a], a, id)
  }

  ghost predicate Agrees(p: Parent, aggs: Aggregates, t: Table) {
    forall k :: At(t, k) == Expected(p, aggs, k)
  }

  ghost predicate Inv(p: Parent, aggs: Aggregates, t: Table, id: nat) {
    AggsOk(p, aggs, id) && Agrees(p, aggs, t)
  }

  lemma InitInv(id: nat)
    ensures Inv(map[], map[], map[], id)
  {
  }

  // ---- Local and global ---------------------------------------------------------------

  /** What an aggregate has downstream, read off the invariant. */
  lemma LocalFromInv(p: Parent, aggs: Aggregates, t: Table, a: Net, id: nat)
    requires Inv(p, aggs, t, id) && a in aggs
    ensures LocalOk(t, aggs[a])
  {
    var agg := aggs[a];
    assert AggOk(p, agg, a, id);
    forall c | c in agg.components ensures CopyOk(t, agg.net, agg.suppressed, c) {
      assert IsComponent(p, a, c);
      assert At(t, (c.net, NotAggregated)) == ExpectedCopy(p, aggs, c.net, true);
      assert At(t, (c.net, WasAggregated)) == ExpectedCopy(p, aggs, c.net, false);
    }
    assert At(t, (a, Aggregate)) == Expected(p, aggs, (a, Aggregate));
  }

  /** Only the net and the aggregate concerned differ before and after a step. */
  ghost predicate Confined(p: Parent, aggs: Aggregates, p': Parent, aggs': Aggregates, a: Net, n: Net) {
    && (forall m | m != n :: (m in p' <==> m in p) && (m in p ==> p'[m] == p[m]))
    && (forall b | b != a :: (b in aggs' <==> b in aggs) && (b in aggs ==> aggs'[b] == aggs[b]))
  }

  /** The aggregate after a step: stored with its components, or gone for want of any. */
  ghost predicate Stored(p': Parent, aggs': Aggregates, agg: Agg, id: nat) {
    && (agg.net in aggs' <==> agg.components != [])
    && (agg.net in aggs' ==> aggs'[agg.net] == agg)
    && Sorted(agg.components) && Evaluated(agg, id)
    && forall c :: c in agg.components <==> IsComponent(p', agg.net, c)
  }

  ghost predicate Framed(t: Table, t': Table, a: Net, cs: seq<Component>, n: Net) {
    forall k | k != (a, Aggregate) && !IsCopyOf(cs, k) && k.0 != n :: SameAt(t, t', k)
  }

  lemma HasIff(cs: seq<Component>, n: Net)
    ensures Has(cs, n) <==> exists c :: c in cs && c.net == n
  {
    if Has(cs, n) {
      var i :| 0 <= i < |cs| && cs[i].net == n;
      assert cs[i] in cs;
    }
  }

  /** A key of another net agrees after the step if it did before. */
  lemma KeyAgrees(p: Parent, aggs: Aggregates, t: Table, p': Parent, aggs': Aggregates, t': Table,
                  agg: Agg, n: Net, k: (Net, Marker), id: nat)
    requires At(t, k) == Expected(p, aggs, k)
    requires Confined(p, aggs, p', aggs', agg.net, n) && Stored(p', aggs', agg, id)
    requires LocalOk(t', agg) && Framed(t, t', agg.net, agg.components, n)
    requires k.0 != n
    ensures At(t', k) == Expected(p', aggs', k)
  {
    HasIff(agg.components, k.0);
    if IsCopyOf(agg.components, k) {
      var c :| c in agg.components && c.net == k.0;
      assert IsComponent(p', agg.net, c) && CopyOk(t', agg.net, agg.suppressed, c);
    } else if k != (agg.net, Aggregate) {
      assert SameAt(t, t', k);
      if Feeds(p', agg.net, k.0) {
        assert IsComponent(p', agg.net, Component(k.0, p'[k.0].attrs));
      }
    }
  }

  /** The aggregate's own key, which may be that of the net concerned. */
  lemma AggregateAgrees(p: Parent, aggs: Aggregates, t: Table, p': Parent, aggs': Aggregates, t': Table,
                        agg: Agg, n: Net, k: (Net, Marker), id: nat)
    requires At(t, k) == Expected(p, aggs, k)
    requires Confined(p, aggs, p', aggs', agg.net, n) && Stored(p', aggs', agg, id)
    requires LocalOk(t', agg)
    requires k.1 == Aggregate && (k != (agg.net, Aggregate) ==> SameAt(t, t', k))
    ensures At(t', k) == Expected(p', aggs', k)
  {
  }

  lemma OthersKept(p: Parent, aggs: Aggregates, p': Parent, aggs': Aggregates, agg: Agg, n: Net, id: nat)
    requires AggsOk(p, aggs, id)
    requires Confined(p, aggs, p', aggs', agg.net, n) && Stored(p', aggs', agg, id)
    requires n in p' ==> p'[n].net == n
    requires n in p && Aggregable(p[n]) ==> AggNet(p[n]) == agg.net
    requires n in p' && Aggregable(p'[n]) ==> AggNet(p'[n]) == agg.net
    ensures AggsOk(p', aggs', id)
  {
    forall m | m in p' && Aggregable(p'[m]) ensures AggNet(p'[m]) in aggs' {
      if AggNet(p'[m]) == agg.net {
        assert IsComponent(p', agg.net, Component(m, p'[m].attrs));
      } else {
        assert m != n && m in p;
      }
    }
    forall b | b in aggs' ensures AggOk(p', aggs'[b], b, id) {
      if b != agg.net {
        assert AggOk(p, aggs[b], b, id);
        forall c ensures IsComponent(p, b, c) <==> IsComponent(p', b, c) {}
      }
    }
  }

  // ---- Routes that are not aggregated -------------------------------------------------

  lemma UnaffectedAggs(p: Parent, p': Parent, aggs: Aggregates, n: Net, id: nat)
    requires AggsOk(p, aggs, id)
    requires forall m | m != n :: (m in p' <==> m in p) && (m in p ==> p'[m] == p[m])
    requires n in p ==> !Aggregable(p[n])
    requires n in p' ==> !Aggregable(p'[n]) && p'[n].net == n
    ensures AggsOk(p', aggs, id)
  {
    forall a | a in aggs ensures AggOk(p', aggs[a], a, id) {
      assert AggOk(p, aggs[a], a, id);
      forall c ensures IsComponent(p, a, c) <==> IsComponent(p', a, c) {}
    }
  }

  /** Adding, deleting or replacing a route that is not aggregated touches one key. */
  lemma PlainKeeps(p: Parent, p': Parent, aggs: Aggregates, t: Table, t': Table, n: Net, id: nat)
    requires Inv(p, aggs, t, id)
    requires forall m | m != n :: (m in p' <==> m in p) && (m in p ==> p'[m] == p[m])
    requires n in p ==> !Aggregable(p[n])
    requires n in p' ==> !Aggregable(p'[n]) && p'[n].net == n
    requires forall k | k != (n, Ignore) :: SameAt(t, t', k)
    requires At(t', (n, Ignore)) == if n in p' then Some(p'[n].attrs) else None
    ensures Inv(p', aggs, t', id)
  {
    UnaffectedAggs(p, p', aggs, n, id);
    forall k ensures At(t', k) == Expected(p', aggs, k) {
      assert At(t, k) == Expected(p, aggs, k);
      if k != (n, Ignore) { assert SameAt(t, t', k); }
    }
  }

  // ---- Adding -------------------------------------------------------------------------

  /** The aggregate a new component joins. */
  ghost function Joined(aggs: Aggregates, r: Route): Agg
    requires Aggregable(r)
  {
    if AggNet(r) in aggs then aggs[AggNet(r)] else NewAgg(AggNet(r), r.brief)
  }

  lemma AbsentAt(p: Parent, aggs: Aggregates, t: Table, n: Net, id: nat)
    requires Inv(p, aggs, t, id) && n !in p
    ensures (n, Ignore) !in t && (n, IbgpOnly) !in t && (n, NotAggregated) !in t && (n, WasAggregated) !in t
  {
    assert At(t, (n, Ignore)) == Expected(p, aggs, (n, Ignore));
    assert At(t, (n, IbgpOnly)) == Expected(p, aggs, (n, IbgpOnly));
    assert At(t, (n, NotAggregated)) == Expected(p, aggs, (n, NotAggregated));
    assert At(t, (n, WasAggregated)) == Expected(p, aggs, (n, WasAggregated));
  }

  lemma JoinedLocal(p: Parent, aggs: Aggregates, t: Table, r: Route, id: nat)
    requires Inv(p, aggs, t, id) && Aggregable(r) && r.net !in p
    ensures var agg := Joined(aggs, r);
            && agg.net == AggNet(r) && LocalOk(t, agg) && Sorted(agg.components) && !Has(agg.components, r.net)
            && (forall c :: c in agg.components <==> IsComponent(p, agg.net, c))
  {
    var a := AggNet(r);
    var agg := Joined(aggs, r);
    if a in aggs {
      LocalFromInv(p, aggs, t, a, id);
      assert AggOk(p, agg, a, id);
      HasIff(agg.components, r.net);
    } else {
      assert At(t, (a, Aggregate)) == Expected(p, aggs, (a, Aggregate));
      forall c ensures !IsComponent(p, a, c) {}
    }
  }

  lemma JoinedEvaluable(p: Parent, aggs: Aggregates, t: Table, r: Route, id: nat)
    requires Inv(p, aggs, t, id) && Aggregable(r) && r.net !in p
    ensures var agg := Joined(aggs, r);
            Evaluable(agg.(components := Insert(agg.components, Component(r.net, r.attrs))), id)
  {
    var agg := Joined(aggs, r);
    var c := Component(r.net, r.attrs);
    JoinedLocal(p, aggs, t, r, id);
    InsertSorted(agg.components, c);
    SortedDistinct(Insert(agg.components, c));
    InsertElements(agg.components, c);
    if AggNet(r) in aggs { assert AggOk(p, agg, AggNet(r), id); }
  }

  /** The copy of the new component joins the others. */
  lemma CopyDelivers(t: Table, agg: Agg, r: Route)
    requires LocalOk(t, agg) && !Has(agg.components, r.net)
    requires (r.net, NotAggregated) !in t && (r.net, WasAggregated) !in t
    ensures DeliverAll(t, Copy(agg, r)).Some?
    ensures var t' := DeliverAll(t, Copy(agg, r)).value;
            && LocalOk(t', agg.(components := Insert(agg.components, Component(r.net, r.attrs))))
            && forall k | k != (r.net, NotAggregated) && k != (r.net, WasAggregated) :: SameAt(t, t', k)
  {
    DeliverOne(t, AddRoute(r.net, MarkerOf(agg.suppressed), r.attrs));
    var t' := DeliverAll(t, Copy(agg, r)).value;
    var c := Component(r.net, r.attrs);
    InsertElements(agg.components, c);
    HasIff(agg.components, r.net);
    forall x | x in Insert(agg.components, c) ensures CopyOk(t', agg.net, agg.suppressed, x) {
      if x != c {
        assert SameAt(t, t', (x.net, NotAggregated)) && SameAt(t, t', (x.net, WasAggregated));
      }
    }
  }

  lemma LastMessage(t: Table, ms1: seq<Message>, ms2: seq<Message>, m: Message)
    requires DeliverAll(t, ms1).Some? && DeliverAll(DeliverAll(t, ms1).value, ms2).Some?
    requires Deliver(DeliverAll(DeliverAll(t, ms1).value, ms2).value, m).Some?
    ensures DeliverAll(t, ms1 + ms2 + [m]) == Deliver(DeliverAll(DeliverAll(t, ms1).value, ms2).value, m)
  {
    DeliverConcat(t, ms1, ms2);
    DeliverConcat(t, ms1 + ms2, [m]);
    DeliverOne(DeliverAll(t, ms1 + ms2).value, m);
  }

  lemma LocalKept(t: Table, t': Table, agg: Agg, k: (Net, Marker))
    requires LocalOk(t, agg) && k.1 == IbgpOnly
    requires forall x | x != k :: SameAt(t, t', x)
    ensures LocalOk(t', agg)
  {
    assert SameAt(t, t', (agg.net, Aggregate));
    forall c | c in agg.components ensures CopyOk(t', agg.net, agg.suppressed, c) {
      assert SameAt(t, t', (c.net, NotAggregated)) && SameAt(t, t', (c.net, WasAggregated));
    }
  }

  ghost function Grown(aggs: Aggregates, r: Route): Agg
    requires Aggregable(r)
  {
    var agg := Joined(aggs, r);
    agg.(components := Insert(agg.components, Component(r.net, r.attrs)))
  }

  /** The aggregate with its new component. */
  lemma AddStores(p: Parent, aggs: Aggregates, t: Table, r: Route, id: nat, merge: Merge)
    requires Inv(p, aggs, t, id) && Aggregable(r) && r.net !in p
    ensures var agg := Reevaluate(Grown(aggs, r), id, merge).0;
            && agg.net == AggNet(r) && Stored(p[r.net := r], aggs[agg.net := agg], agg, id)
            && Component(r.net, r.attrs) in agg.components
  {
    var agg := Joined(aggs, r);
    var c := Component(r.net, r.attrs);
    JoinedLocal(p, aggs, t, r, id);
    JoinedEvaluable(p, aggs, t, r, id);
    ReevaluateFlags(Grown(aggs, r), id, merge);
    InsertElements(agg.components, c);
    InsertSorted(agg.components, c);
    ComponentsGrow(p, agg, r);
  }

  /** What a new component does to the table downstream. */
  lemma AddDelivers(p: Parent, aggs: Aggregates, t: Table, r: Route, id: nat, merge: Merge)
    requires Inv(p, aggs, t, id) && Aggregable(r) && r.net !in p
    ensures var (agg, ms) := Reevaluate(Grown(aggs, r), id, merge);
            var all := Copy(Joined(aggs, r), r) + ms + [AddRoute(r.net, IbgpOnly, r.attrs)];
            && DeliverAll(t, all).Some?
            && var t' := DeliverAll(t, all).value;
            && LocalOk(t', agg)
            && At(t', (r.net, IbgpOnly)) == Some(r.attrs)
            && forall k | k != (AggNet(r), Aggregate) && !IsCopyOf(agg.components, k) &&
                          k != (r.net, IbgpOnly) :: SameAt(t, t', k)
  {
    var agg := Joined(aggs, r);
    var agg1 := Grown(aggs, r);
    JoinedLocal(p, aggs, t, r, id);
    JoinedEvaluable(p, aggs, t, r, id);
    AbsentAt(p, aggs, t, r.net, id);
    CopyDelivers(t, agg, r);
    var t1 := DeliverAll(t, Copy(agg, r)).value;
    ReevaluateDelivers(t1, agg1, id, merge);
    var (agg2, ms) := Reevaluate(agg1, id, merge);
    InsertElements(agg.components, Component(r.net, r.attrs));
    AddEnds(t, t1, DeliverAll(t1, ms).value, agg2, r, Copy(agg, r), ms);
  }

  /** The message for IBGP comes last. */
  lemma AddEnds(t: Table, t1: Table, t2: Table, agg: Agg, r: Route, ms1: seq<Message>, ms2: seq<Message>)
    requires DeliverAll(t, ms1) == Some(t1) && DeliverAll(t1, ms2) == Some(t2)
    requires (r.net, IbgpOnly) !in t && LocalOk(t2, agg) && Component(r.net, r.attrs) in agg.components
    requires forall k | k != (r.net, NotAggregated) && k != (r.net, WasAggregated) :: SameAt(t, t1, k)
    requires forall k | k != (agg.net, Aggregate) && !IsCopyOf(agg.components, k) :: SameAt(t1, t2, k)
    ensures var all := ms1 + ms2 + [AddRoute(r.net, IbgpOnly, r.attrs)];
            && DeliverAll(t, all).Some?
            && var t' := DeliverAll(t, all).value;
            && LocalOk(t', agg)
            && At(t', (r.net, IbgpOnly)) == Some(r.attrs)
            && forall k | k != (agg.net, Aggregate) && !IsCopyOf(agg.components, k) &&
                          k != (r.net, IbgpOnly) :: SameAt(t, t', k)
  {
    assert SameAt(t, t1, (r.net, IbgpOnly)) && SameAt(t1, t2, (r.net, IbgpOnly));
    LastMessage(t, ms1, ms2, AddRoute(r.net, IbgpOnly, r.attrs));
    var t3 := t2[(r.net, IbgpOnly) := r.attrs];
    LocalKept(t2, t3, agg, (r.net, IbgpOnly));
    AddFrame(t, t1, t2, t3, agg, r);
  }

  lemma ComponentsGrow(p: Parent, agg: Agg, r: Route)
    requires Aggregable(r) && agg.net == AggNet(r) && r.net !in p
    requires forall c :: c in agg.components <==> IsComponent(p, agg.net, c)
    ensures forall c :: c in Insert(agg.components, Component(r.net, r.attrs)) <==>
                        IsComponent(p[r.net := r], agg.net, c)
  {
    InsertElements(agg.components, Component(r.net, r.attrs));
    forall c ensures c in Insert(agg.components, Component(r.net, r.attrs)) <==>
                     IsComponent(p[r.net := r], agg.net, c) {
      assert c in agg.components <==> IsComponent(p, agg.net, c);
    }
  }

  lemma AddFrame(t: Table, t1: Table, t2: Table, t3: Table, agg: Agg, r: Route)
    requires forall k | k != (r.net, NotAggregated) && k != (r.net, WasAggregated) :: SameAt(t, t1, k)
    requires forall k | k != (agg.net, Aggregate) && !IsCopyOf(agg.components, k) :: SameAt(t1, t2, k)
    requires forall k | k != (r.net, IbgpOnly) :: SameAt(t2, t3, k)
    requires Component(r.net, r.attrs) in agg.components
    ensures forall k | k != (agg.net, Aggregate) && !IsCopyOf(agg.components, k) && k != (r.net, IbgpOnly) ::
              SameAt(t, t3, k)
  {
    HasIff(agg.components, r.net);
    forall k | k != (agg.net, Aggregate) && !IsCopyOf(agg.components, k) && k != (r.net, IbgpOnly)
      ensures SameAt(t, t3, k)
    {
      assert SameAt(t, t1, k) && SameAt(t1, t2, k) && SameAt(t2, t3, k);
    }
  }

  /** Every message of an added route is well-formed, and the tables agree afterwards. */
  lemma AddKeeps(p: Parent, aggs: Aggregates, t: Table, r: Route, id: nat, merge: Merge)
    requires Inv(p, aggs, t, id) && r.net !in p
    ensures Added(aggs, r, id, merge).Next?
    ensures var (aggs', ms) := Added(aggs, r, id, merge).value;
            DeliverAll(t, ms).Some? && Inv(p[r.net := r], aggs', DeliverAll(t, ms).value, id)
  {
    var p' := p[r.net := r];
    if !Aggregable(r) {
      AbsentAt(p, aggs, t, r.net, id);
      DeliverOne(t, AddRoute(r.net, Ignore, r.attrs));
      PlainKeeps(p, p', aggs, t, t[(r.net, Ignore) := r.attrs], r.net, id);
    } else {
      JoinedLocal(p, aggs, t, r, id);
      AddStores(p, aggs, t, r, id, merge);
      AddDelivers(p, aggs, t, r, id, merge);
      var (aggs', ms) := Added(aggs, r, id, merge).value;
      var t' := DeliverAll(t, ms).value;
      var agg := Reevaluate(Grown(aggs, r), id, merge).0;
      assert aggs' == aggs[agg.net := agg];
      OthersKept(p, aggs, p', aggs', agg, r.net, id);
      forall k ensures At(t', k) == Expected(p', aggs', k) {
        AddAgrees(p, aggs, t, aggs', t', agg, r, k, id);
      }
    }
  }

  lemma AddAgrees(p: Parent, aggs: Aggregates, t: Table, aggs': Aggregates, t': Table, agg: Agg, r: Route,
                  k: (Net, Marker), id: nat)
    requires Inv(p, aggs, t, id) && Aggregable(r) && r.net !in p && agg.net == AggNet(r)
    requires agg.net in aggs' && aggs' == aggs[agg.net := agg] && Stored(p[r.net := r], aggs', agg, id)
    requires LocalOk(t', agg) && At(t', (r.net, IbgpOnly)) == Some(r.attrs)
    requires forall k | k != (agg.net, Aggregate) && !IsCopyOf(agg.components, k) && k != (r.net, IbgpOnly) ::
               SameAt(t, t', k)
    ensures At(t', k) == Expected(p[r.net := r], aggs', k)
  {
    var p' := p[r.net := r];
    assert At(t, k) == Expected(p, aggs, k);
    if k.1 == Aggregate {
      AggregateAgrees(p, aggs, t, p', aggs', t', agg, r.net, k, id);
    } else if k.0 != r.net {
      KeyAgrees(p, aggs, t, p', aggs', t', agg, r.net, k, id);
    } else if k.1 == Ignore {
      assert SameAt(t, t', k);
    } else if k.1 != IbgpOnly {
      var c := Component(r.net, r.attrs);
      assert IsComponent(p', agg.net, c);
      assert CopyOk(t', agg.net, agg.suppressed, c);
    }
  }

  // ---- Deleting -----------------------------------------------------------------------

  /** Deleting the route leaves its aggregate without components, and with the attributes it had
      while the route was there. */
  ghost predicate Orphans(p: Parent, r: Route) {
    Aggregable(r) && Indistinct(r.attrs) && forall m | Feeds(p, AggNet(r), m) :: m == r.net
  }

  lemma PresentAt(p: Parent, aggs: Aggregates, t: Table, r: Route, id: nat)
    requires Inv(p, aggs, t, id) && r.net in p && p[r.net] == r && Aggregable(r)
    ensures AggNet(r) in aggs && AggOk(p, aggs[AggNet(r)], AggNet(r), id) && LocalOk(t, aggs[AggNet(r)])
    ensures Component(r.net, r.attrs) in aggs[AggNet(r)].components && Has(aggs[AggNet(r)].components, r.net)
    ensures (r.net, Ignore) !in t && (r.net, IbgpOnly) in t
  {
    var agg := aggs[AggNet(r)];
    LocalFromInv(p, aggs, t, AggNet(r), id);
    assert IsComponent(p, AggNet(r), Component(r.net, r.attrs));
    HasIff(agg.components, r.net);
    assert At(t, (r.net, Ignore)) == Expected(p, aggs, (r.net, Ignore));
    assert At(t, (r.net, IbgpOnly)) == Expected(p, aggs, (r.net, IbgpOnly));
  }

  /** The remaining components, and when there are none. */
  lemma Remaining(p: Parent, agg: Agg, r: Route, id: nat)
    requires Aggregable(r) && r.net in p && p[r.net] == r && AggOk(p, agg, AggNet(r), id)
    requires Has(agg.components, r.net)
    ensures var rest := Remove(agg.components, r.net);
            && Sorted(rest) && Distinct(rest) && |rest| == |agg.components| - 1
            && (forall c :: c in rest <==> IsComponent(p - {r.net}, agg.net, c))
            && (rest == [] ==> agg.components == [Component(r.net, r.attrs)])
            && (rest == [] <==> forall m | Feeds(p, AggNet(r), m) :: m == r.net)
  {
    var rest := Remove(agg.components, r.net);
    RemoveSorted(agg.components, r.net);
    SortedDistinct(rest);
    SortedDistinct(agg.components);
    RemoveElements(agg.components, r.net);
    forall c ensures c in rest <==> IsComponent(p - {r.net}, agg.net, c) {
      assert c in agg.components <==> IsComponent(p, agg.net, c);
    }
    var c0 := Component(r.net, r.attrs);
    assert IsComponent(p, agg.net, c0);
    assert c0 in agg.components;
    if rest == [] {
      forall m | Feeds(p, AggNet(r), m) ensures m == r.net {
        var c := Component(m, p[m].attrs);
        assert IsComponent(p, agg.net, c);
        assert c in agg.components;
        assert c !in rest;
      }
    } else {
      assert rest[0] in rest;
      assert Feeds(p, AggNet(r), rest[0].net);
    }
  }

  lemma UncopyDelivers(t: Table, agg: Agg, r: Route)
    requires LocalOk(t, agg) && Component(r.net, r.attrs) in agg.components && Distinct(agg.components)
    ensures DeliverAll(t, Uncopy(agg, r)).Some?
    ensures var t' := DeliverAll(t, Uncopy(agg, r)).value;
            && LocalOk(t', agg.(components := Remove(agg.components, r.net)))
            && (r.net, NotAggregated) !in t' && (r.net, WasAggregated) !in t'
            && forall k | k != (r.net, NotAggregated) && k != (r.net, WasAggregated) :: SameAt(t, t', k)
  {
    assert CopyOk(t, agg.net, agg.suppressed, Component(r.net, r.attrs));
    DeliverOne(t, DeleteRoute(r.net, MarkerOf(agg.suppressed)));
    var t' := DeliverAll(t, Uncopy(agg, r)).value;
    RemoveElements(agg.components, r.net);
    forall x | x in Remove(agg.components, r.net) ensures CopyOk(t', agg.net, agg.suppressed, x) {
      assert SameAt(t, t', (x.net, NotAggregated)) && SameAt(t, t', (x.net, WasAggregated));
    }
  }

  /** Without its last component an aggregate can be told from the one that had it unless the
      deletion orphans it. */
  lemma RemainingEvaluable(p: Parent, agg: Agg, r: Route, id: nat)
    requires Aggregable(r) && r.net in p && p[r.net] == r && AggOk(p, agg, AggNet(r), id)
    requires Has(agg.components, r.net)
    ensures Evaluable(agg.(components := Remove(agg.components, r.net)), id) <==> !Orphans(p, r)
  {
    Remaining(p, agg, r, id);
    IndistinctIff(Component(r.net, r.attrs), id);
  }

  lemma DeleteFrame(t: Table, t1: Table, t2: Table, t3: Table, agg: Agg, n: Net)
    requires forall k | k != (n, NotAggregated) && k != (n, WasAggregated) :: SameAt(t, t1, k)
    requires (n, NotAggregated) !in t1 && (n, WasAggregated) !in t1 && !Has(agg.components, n)
    requires forall k | k != (agg.net, Aggregate) && !IsCopyOf(agg.components, k) :: SameAt(t1, t2, k)
    requires forall k | k != (n, IbgpOnly) :: SameAt(t2, t3, k)
    ensures (n, NotAggregated) !in t3 && (n, WasAggregated) !in t3
    ensures SameAt(t, t3, (n, Ignore))
    ensures Framed(t, t3, agg.net, agg.components, n)
    ensures forall b | b != agg.net :: SameAt(t, t3, (b, Aggregate))
  {
    assert SameAt(t1, t2, (n, NotAggregated)) && SameAt(t2, t3, (n, NotAggregated));
    assert SameAt(t1, t2, (n, WasAggregated)) && SameAt(t2, t3, (n, WasAggregated));
    assert SameAt(t, t1, (n, Ignore)) && SameAt(t1, t2, (n, Ignore)) && SameAt(t2, t3, (n, Ignore));
    forall k | k != (agg.net, Aggregate) && !IsCopyOf(agg.components, k) && (k.0 != n || k.1 == Aggregate)
      ensures SameAt(t, t3, k)
    {
      assert SameAt(t, t1, k) && SameAt(t1, t2, k) && SameAt(t2, t3, k);
    }
    forall b | b != agg.net ensures SameAt(t, t3, (b, Aggregate)) {
      assert !IsCopyOf(agg.components, (b, Aggregate));
    }
  }

  ghost function Removed(aggs: Aggregates, r: Route): Agg
    requires Aggregable(r) && AggNet(r) in aggs
  {
    var agg := aggs[AggNet(r)];
    agg.(components := Remove(agg.components, r.net))
  }

  lemma DeleteStores(p: Parent, aggs: Aggregates, t: Table, r: Route, id: nat, merge: Merge)
    requires Inv(p, aggs, t, id) && r.net in p && p[r.net] == r && Aggregable(r) && !Orphans(p, r)
    ensures AggNet(r) in aggs && Deleted(aggs, r, id, merge).Next?
    ensures var agg := Reevaluate(Removed(aggs, r), id, merge).0;
            agg.net == AggNet(r) && Stored(p - {r.net}, Deleted(aggs, r, id, merge).value.0, agg, id)
  {
    PresentAt(p, aggs, t, r, id);
    Remaining(p, aggs[AggNet(r)], r, id);
    RemainingEvaluable(p, aggs[AggNet(r)], r, id);
    ReevaluateFlags(Removed(aggs, r), id, merge);
  }

  lemma DeleteDelivers(p: Parent, aggs: Aggregates, t: Table, r: Route, id: nat, merge: Merge)
    requires Inv(p, aggs, t, id) && r.net in p && p[r.net] == r && Aggregable(r) && !Orphans(p, r)
    requires AggNet(r) in aggs
    ensures var (agg, ms) := Reevaluate(Removed(aggs, r), id, merge);
            var all := Uncopy(aggs[AggNet(r)], r) + ms + [DeleteRoute(r.net, IbgpOnly)];
            && DeliverAll(t, all).Some?
            && var t' := DeliverAll(t, all).value;
            && LocalOk(t', agg) && Framed(t, t', agg.net, agg.components, r.net)
            && (r.net, IbgpOnly) !in t' && (r.net, Ignore) !in t'
            && (r.net, NotAggregated) !in t' && (r.net, WasAggregated) !in t'
            && forall b | b != agg.net :: SameAt(t, t', (b, Aggregate))
  {
    PresentAt(p, aggs, t, r, id);
    var agg := aggs[AggNet(r)];
    var agg1 := Removed(aggs, r);
    RemainingEvaluable(p, agg, r, id);
    SortedDistinct(agg.components);
    UncopyDelivers(t, agg, r);
    var t1 := DeliverAll(t, Uncopy(agg, r)).value;
    ReevaluateDelivers(t1, agg1, id, merge);
    var (agg2, ms) := Reevaluate(agg1, id, merge);
    RemoveElements(agg.components, r.net);
    HasIff(agg1.components, r.net);
    DeleteEnds(t, t1, DeliverAll(t1, ms).value, agg2, r, Uncopy(agg, r), ms);
  }

  lemma DeleteEnds(t: Table, t1: Table, t2: Table, agg: Agg, r: Route, ms1: seq<Message>, ms2: seq<Message>)
    requires DeliverAll(t, ms1) == Some(t1) && DeliverAll(t1, ms2) == Some(t2)
    requires (r.net, IbgpOnly) in t && (r.net, Ignore) !in t && LocalOk(t2, agg) && !Has(agg.components, r.net)
    requires forall k | k != (r.net, NotAggregated) && k != (r.net, WasAggregated) :: SameAt(t, t1, k)
    requires (r.net, NotAggregated) !in t1 && (r.net, WasAggregated) !in t1
    requires forall k | k != (agg.net, Aggregate) && !IsCopyOf(agg.components, k) :: SameAt(t1, t2, k)
    ensures var all := ms1 + ms2 + [DeleteRoute(r.net, IbgpOnly)];
            && DeliverAll(t, all).Some?
            && var t' := DeliverAll(t, all).value;
            && LocalOk(t', agg) && Framed(t, t', agg.net, agg.components, r.net)
            && (r.net, IbgpOnly) !in t' && (r.net, Ignore) !in t'
            && (r.net, NotAggregated) !in t' && (r.net, WasAggregated) !in t'
            && forall b | b != agg.net :: SameAt(t, t', (b, Aggregate))
  {
    assert SameAt(t, t1, (r.net, IbgpOnly)) && SameAt(t1, t2, (r.net, IbgpOnly));
    LastMessage(t, ms1, ms2, DeleteRoute(r.net, IbgpOnly));
    var t3 := t2 - {(r.net, IbgpOnly)};
    LocalKept(t2, t3, agg, (r.net, IbgpOnly));
    DeleteFrame(t, t1, t2, t3, agg, r.net);
  }

  lemma RemovedAgrees(p: Parent, aggs: Aggregates, t: Table, aggs': Aggregates, t': Table, agg: Agg, r: Route, id: nat)
    requires Inv(p, aggs, t, id) && r.net in p && p[r.net] == r && Aggregable(r) && agg.net == AggNet(r)
    requires Confined(p, aggs, p - {r.net}, aggs', agg.net, r.net) && Stored(p - {r.net}, aggs', agg, id)
    requires LocalOk(t', agg) && Framed(t, t', agg.net, agg.components, r.net)
    requires (r.net, IbgpOnly) !in t' && (r.net, Ignore) !in t'
    requires (r.net, NotAggregated) !in t' && (r.net, WasAggregated) !in t'
    requires forall b | b != agg.net :: SameAt(t, t', (b, Aggregate))
    ensures Inv(p - {r.net}, aggs', t', id)
  {
    var p' := p - {r.net};
    OthersKept(p, aggs, p', aggs', agg, r.net, id);
    forall k ensures At(t', k) == Expected(p', aggs', k) {
      assert At(t, k) == Expected(p, aggs, k);
      if k.1 == Aggregate {
        assert k == (k.0, Aggregate);
        AggregateAgrees(p, aggs, t, p', aggs', t', agg, r.net, k, id);
      } else if k.0 != r.net {
        KeyAgrees(p, aggs, t, p', aggs', t', agg, r.net, k, id);
      } else {
        assert k == (r.net, k.1);
      }
    }
  }

  lemma AggregatedDeleteKeeps(p: Parent, aggs: Aggregates, t: Table, r: Route, id: nat, merge: Merge)
    requires Inv(p, aggs, t, id) && r.net in p && p[r.net] == r && Aggregable(r) && !Orphans(p, r)
    ensures Deleted(aggs, r, id, merge).Next?
    ensures var (aggs', ms) := Deleted(aggs, r, id, merge).value;
            DeliverAll(t, ms).Some? && Inv(p - {r.net}, aggs', DeliverAll(t, ms).value, id)
  {
    DeleteStores(p, aggs, t, r, id, merge);
    DeleteDelivers(p, aggs, t, r, id, merge);
    var (aggs', ms) := Deleted(aggs, r, id, merge).value;
    RemovedAgrees(p, aggs, t, aggs', DeliverAll(t, ms).value, Reevaluate(Removed(aggs, r), id, merge).0, r, id);
  }

  /** Unless it orphans its aggregate, a deleted route leaves the tables in agreement. */
  lemma DeleteKeeps(p: Parent, aggs: Aggregates, t: Table, r: Route, id: nat, merge: Merge)
    requires Inv(p, aggs, t, id) && r.net in p && p[r.net] == r && !Orphans(p, r)
    ensures Deleted(aggs, r, id, merge).Next?
    ensures var (aggs', ms) := Deleted(aggs, r, id, merge).value;
            DeliverAll(t, ms).Some? && Inv(p - {r.net}, aggs', DeliverAll(t, ms).value, id)
  {
    if Aggregable(r) {
      AggregatedDeleteKeeps(p, aggs, t, r, id, merge);
    } else {
      assert At(t, (r.net, Ignore)) == Expected(p, aggs, (r.net, Ignore));
      DeliverOne(t, DeleteRoute(r.net, Ignore));
      PlainKeeps(p, p - {r.net}, aggs, t, t - {(r.net, Ignore)}, r.net, id);
    }
  }

  /** A deletion that orphans its aggregate is sent without its withdrawal. */
  lemma OrphanSends(p: Parent, aggs: Aggregates, t: Table, r: Route, id: nat, merge: Merge)
    requires Inv(p, aggs, t, id) && r.net in p && p[r.net] == r && Orphans(p, r)
    ensures AggNet(r) in aggs && aggs[AggNet(r)].announced && !aggs[AggNet(r)].suppressed
    ensures Removed(aggs, r).components == []
    ensures Deleted(aggs, r, id, merge) ==
            Next((aggs - {AggNet(r)}, Uncopy(aggs[AggNet(r)], r) + [] + [DeleteRoute(r.net, IbgpOnly)]))
  {
    PresentAt(p, aggs, t, r, id);
    Remaining(p, aggs[AggNet(r)], r, id);
    IndistinctIff(Component(r.net, r.attrs), id);
    assert Reevaluate(Removed(aggs, r), id, merge).1 == [];
  }

  /** The aggregate stays downstream; everything else is in order. */
  lemma OrphanStays(p: Parent, aggs: Aggregates, t: Table, r: Route, id: nat, merge: Merge)
    requires Inv(p, aggs, t, id) && r.net in p && p[r.net] == r && Orphans(p, r)
    ensures Deleted(aggs, r, id, merge).Next?
    ensures var (aggs', ms) := Deleted(aggs, r, id, merge).value;
            var k := (AggNet(r), Aggregate);
            && AggNet(r) !in aggs'
            && DeliverAll(t, ms).Some? && k in DeliverAll(t, ms).value
            && Inv(p - {r.net}, aggs', DeliverAll(t, ms).value - {k}, id)
  {
    OrphanSends(p, aggs, t, r, id, merge);
    PresentAt(p, aggs, t, r, id);
    var a := AggNet(r);
    var n := r.net;
    var k := (a, Aggregate);
    var agg := aggs[a];
    SortedDistinct(agg.components);
    UncopyDelivers(t, agg, r);
    var t1 := DeliverAll(t, Uncopy(agg, r)).value;
    assert SameAt(t, t1, (n, IbgpOnly)) && SameAt(t, t1, k);
    LastMessage(t, Uncopy(agg, r), [], DeleteRoute(n, IbgpOnly));
    var t2 := t1 - {k};
    var t3 := t2 - {(n, IbgpOnly)};
    assert t1 - {(n, IbgpOnly)} - {k} == t3;
    DeleteFrame(t, t1, t2, t3, Removed(aggs, r), n);
    OrphanRest(p, aggs, t, t3, r, id);
  }

  lemma OrphanRest(p: Parent, aggs: Aggregates, t: Table, t': Table, r: Route, id: nat)
    requires Inv(p, aggs, t, id) && r.net in p && p[r.net] == r && Orphans(p, r) && AggNet(r) in aggs
    requires Framed(t, t', AggNet(r), [], r.net)
    requires (r.net, IbgpOnly) !in t' && (r.net, Ignore) !in t'
    requires (r.net, NotAggregated) !in t' && (r.net, WasAggregated) !in t' && (AggNet(r), Aggregate) !in t'
    requires forall b | b != AggNet(r) :: SameAt(t, t', (b, Aggregate))
    ensures Inv(p - {r.net}, aggs - {AggNet(r)}, t', id)
  {
    PresentAt(p, aggs, t, r, id);
    Remaining(p, aggs[AggNet(r)], r, id);
    var gone := NewAgg(AggNet(r), r.brief).(attrs := AggregateAttrs(NOTHING, id));
    RemovedAgrees(p, aggs, t, aggs - {AggNet(r)}, t', gone, r, id);
  }

  // ---- Every change -------------------------------------------------------------------

  datatype Change = Add(route: Route) | Delete(route: Route) | Replace(prior: Route, route: Route)

  /** The parent adds what it does not have, and deletes or replaces what it has. */
  ghost predicate Wellformed(p: Parent, e: Change) {
    match e
    case Add(r) => r.net !in p
    case Delete(r) => r.net in p && p[r.net] == r
    case Replace(prior, r) => prior.net == r.net && r.net in p && p[r.net] == prior
  }

  ghost function Changed(p: Parent, e: Change): Parent {
    match e
    case Add(r) => p[r.net := r]
    case Delete(r) => p - {r.net}
    case Replace(_, r) => p[r.net := r]
  }

  ghost predicate ChangeOrphans(p: Parent, e: Change) {
    match e
    case Add(_) => false
    case Delete(r) => Orphans(p, r)
    case Replace(prior, _) => Orphans(p, prior)
  }

  ghost function Sends(aggs: Aggregates, e: Change, id: nat, merge: Merge): Outcome<(Aggregates, seq<Message>)> {
    match e
    case Add(r) => Added(aggs, r, id, merge)
    case Delete(r) => Deleted(aggs, r, id, merge)
    case Replace(prior, r) => Replaced(aggs, prior, r, id, merge)
  }

  /** The change goes through, every message is well-formed, and the tables agree afterwards. */
  ghost predicate Faithful(p: Parent, aggs: Aggregates, t: Table, e: Change, id: nat, merge: Merge) {
    && Sends(aggs, e, id, merge).Next?
    && DeliverAll(t, Sends(aggs, e, id, merge).value.1).Some?
    && Inv(Changed(p, e), Sends(aggs, e, id, merge).value.0, DeliverAll(t, Sends(aggs, e, id, merge).value.1).value, id)
  }

  lemma ReplaceKeeps(p: Parent, aggs: Aggregates, t: Table, prior: Route, r: Route, id: nat, merge: Merge)
    requires Inv(p, aggs, t, id) && Wellformed(p, Replace(prior, r)) && !Orphans(p, prior)
    ensures Faithful(p, aggs, t, Replace(prior, r), id, merge)
  {
    var p' := p[r.net := r];
    if prior.aggrLen.None? && r.aggrLen.None? {
      assert At(t, (r.net, Ignore)) == Expected(p, aggs, (r.net, Ignore));
      DeliverOne(t, ReplaceRoute(r.net, Ignore, r.attrs));
      PlainKeeps(p, p', aggs, t, t[(r.net, Ignore) := r.attrs], r.net, id);
    } else {
      DeleteKeeps(p, aggs, t, prior, id, merge);
      var (aggs1, ms1) := Deleted(aggs, prior, id, merge).value;
      var t1 := DeliverAll(t, ms1).value;
      AddKeeps(p - {r.net}, aggs1, t1, r, id, merge);
      var (aggs2, ms2) := Added(aggs1, r, id, merge).value;
      DeliverConcat(t, ms1, ms2);
      assert (p - {r.net})[r.net := r] == p';
    }
  }

  /** A key that should not be there either stops the messages or is still there after them. */
  lemma {:induction false} ExtraKey(t: Table, k: (Net, Marker), ms: seq<Message>)
    requires k in t && DeliverAll(t - {k}, ms).Some?
    ensures DeliverAll(t, ms).Some? ==>
              k in DeliverAll(t, ms).value && k !in DeliverAll(t - {k}, ms).value
    decreases |ms|
  {
    if ms != [] && Deliver(t, ms[0]).Some? {
      var t1 := Deliver(t, ms[0]).value;
      assert (ms[0].net, ms[0].marker) != k;
      assert t1 - {k} == Deliver(t - {k}, ms[0]).value;
      ExtraKey(t1, k, ms[1..]);
    }
  }

  /** After an orphaning deletion no addition of the same net restores agreement. */
  lemma ReplaceOrphans(p: Parent, aggs: Aggregates, t: Table, prior: Route, r: Route, id: nat, merge: Merge)
    requires Inv(p, aggs, t, id) && Wellformed(p, Replace(prior, r)) && Orphans(p, prior)
    ensures !Faithful(p, aggs, t, Replace(prior, r), id, merge)
  {
    OrphanStays(p, aggs, t, prior, id, merge);
    var k := (AggNet(prior), Aggregate);
    var (aggs1, ms1) := Deleted(aggs, prior, id, merge).value;
    var t1 := DeliverAll(t, ms1).value;
    AddKeeps(p - {r.net}, aggs1, t1 - {k}, r, id, merge);
    var (aggs2, ms2) := Added(aggs1, r, id, merge).value;
    DeliverConcat(t, ms1, ms2);
    ExtraKey(t1, k, ms2);
    if DeliverAll(t1, ms2).Some? {
      var p' := Changed(p, Replace(prior, r));
      assert (p - {r.net})[r.net := r] == p';
      assert At(DeliverAll(t1 - {k}, ms2).value, k) == Expected(p', aggs2, k);
      assert At(DeliverAll(t1, ms2).value, k) != Expected(p', aggs2, k);
    }
  }

  /** A change is passed on faithfully if and only if it does not orphan an aggregate. */
  lemma ChangeFaithful(p: Parent, aggs: Aggregates, t: Table, e: Change, id: nat, merge: Merge)
    requires Inv(p, aggs, t, id) && Wellformed(p, e)
    ensures Faithful(p, aggs, t, e, id, merge) <==> !ChangeOrphans(p, e)
  {
    match e
    case Add(r) => AddKeeps(p, aggs, t, r, id, merge);
    case Delete(r) =>
      if !Orphans(p, r) {
        DeleteKeeps(p, aggs, t, r, id, merge);
      } else {
        OrphanStays(p, aggs, t, r, id, merge);
        var (aggs', ms) := Deleted(aggs, r, id, merge).value;
        var t' := DeliverAll(t, ms).value;
        var k := (AggNet(r), Aggregate);
        assert At(t', k) != Expected(p - {r.net}, aggs', k);
      }
    case Replace(prior, r) =>
      if !Orphans(p, prior) {
        ReplaceKeeps(p, aggs, t, prior, r, id, merge);
      } else {
        ReplaceOrphans(p, aggs, t, prior, r, id, merge);
      }
  }

  // ---- Runs ---------------------------------------------------------------------------

  ghost predicate WellformedRun(p: Parent, es: seq<Change>)
    decreases |es|
  {
    es == [] || (Wellformed(p, es[0]) && WellformedRun(Changed(p, es[0]), es[1..]))
  }

  ghost predicate RunOrphans(p: Parent, es: seq<Change>)
    decreases |es|
  {
    es != [] && (ChangeOrphans(p, es[0]) || RunOrphans(Changed(p, es[0]), es[1..]))
  }

  /** Every change of the run is passed on faithfully. */
  ghost predicate FaithfulRun(p: Parent, aggs: Aggregates, t: Table, es: seq<Change>, id: nat, merge: Merge)
    decreases |es|
  {
    es == [] || (
      && Faithful(p, aggs, t, es[0], id, merge)
      && var (aggs', ms) := Sends(aggs, es[0], id, merge).value;
         FaithfulRun(Changed(p, es[0]), aggs', DeliverAll(t, ms).value, es[1..], id, merge))
  }

  /** The delta stream theorem: whatever the parent does, from the empty tables on, the table
      downstream agrees with the parent after every change if and only if no change orphans an
      aggregate. It holds however AS paths are merged. */
  lemma StreamIsFaithful(es: seq<Change>, id: nat, merge: Merge)
    requires WellformedRun(map[], es)
    ensures FaithfulRun(map[], map[], map[], es, id, merge) <==> !RunOrphans(map[], es)
  {
    InitInv(id);
    RunIsFaithful(map[], map[], map[], es, id, merge);
  }

  lemma {:induction false} RunIsFaithful(p: Parent, aggs: Aggregates, t: Table, es: seq<Change>, id: nat, merge: Merge)
    requires Inv(p, aggs, t, id) && WellformedRun(p, es)
    ensures FaithfulRun(p, aggs, t, es, id, merge) <==> !RunOrphans(p, es)
    decreases |es|
  {
    if es != [] {
      ChangeFaithful(p, aggs, t, es[0], id, merge);
      if !ChangeOrphans(p, es[0]) {
        var (aggs', ms) := Sends(aggs, es[0], id, merge).value;
        RunIsFaithful(Changed(p, es[0]), aggs', DeliverAll(t, ms).value, es[1..], id, merge);
      }
    }
  }

  /** An orphan: a lone component with an empty AS path, as a locally originated route has. */
  lemma OrphanWitness(id: nat, merge: Merge) returns (es: seq<Change>)
    ensures WellformedRun(map[], es) && !FaithfulRun(map[], map[], map[], es, id, merge)
  {
    var r := Route([true], Attrs([], 0, None, false, None, 0), Some(0), false);
    es := [Add(r), Delete(r)];
    var p := Changed(map[], es[0]);
    assert es[1..][0] == Delete(r) && es[1..][1..] == [];
    assert WellformedRun(p, es[1..]);
    assert ChangeOrphans(p, es[1..][0]);
    StreamIsFaithful(es, id, merge);
  }
}
