/** The stream an aggregation table sends is a well-formed description of its parent's routes. */
module AggregationSafety {
  import opened Wrappers
  import opened Nets
  import opened AggregationModel

  // ---- Delivering ---------------------------------------------------------------------

  lemma {:induction false} DeliverConcat(t: Table, ms: seq<Message>, ns: seq<Message>)
    ensures DeliverAll(t, ms + ns) ==
            if DeliverAll(t, ms).None? then None else DeliverAll(DeliverAll(t, ms).value, ns)
    decreases |ms|
  {
    if ms == [] {
      assert ms + ns == ns;
    } else {
      assert (ms + ns)[0] == ms[0] && (ms + ns)[1..] == ms[1..] + ns;
      if Deliver(t, ms[0]).Some? { DeliverConcat(Deliver(t, ms[0]).value, ms[1..], ns); }
    }
  }

  lemma DeliverOne(t: Table, m: Message)
    ensures DeliverAll(t, [m]) == Deliver(t, m)
  {
  }

  // ---- Component tables ---------------------------------------------------------------

  ghost predicate Distinct(cs: seq<Component>) {
    forall i, j | 0 <= i < j < |cs| :: cs[i].net != cs[j].net
  }

  lemma {:induction false} InsertElements(cs: seq<Component>, c: Component)
    ensures |Insert(cs, c)| == |cs| + 1
    ensures forall x :: x in Insert(cs, c) <==> x == c || x in cs
  {
    if cs != [] {
      InsertElements(cs[1..], c);
      assert cs == [cs[0]] + cs[1..];
    }
  }

  lemma {:induction false} RemoveElements(cs: seq<Component>, n: Net)
    requires Distinct(cs)
    ensures Distinct(Remove(cs, n))
    ensures forall x :: x in Remove(cs, n) <==> x in cs && x.net != n
    ensures Has(cs, n) ==> |Remove(cs, n)| == |cs| - 1
  {
    if cs != [] {
      assert Distinct(cs[1..]);
      assert forall x :: x in cs <==> x == cs[0] || x in cs[1..];
      assert forall x | x in cs[1..] :: x.net != cs[0].net;
      RemoveElements(cs[1..], n);
      if cs[0].net != n && Has(cs, n) {
        var i :| 0 <= i < |cs| && cs[i].net == n;
        assert cs[1..][i - 1].net == n;
      }
      if cs[0].net != n {
        var d := Remove(cs[1..], n);
        forall j | 0 <= j < |d| ensures cs[0].net != d[j].net { assert d[j] in d; }
      }
    }
  }

  /** The components stand in the order in which the trie iterates. */
  ghost predicate Sorted(cs: seq<Component>) {
    forall i, j | 0 <= i < j < |cs| :: Precedes(cs[i].net, cs[j].net)
  }

  lemma SortedDistinct(cs: seq<Component>)
    requires Sorted(cs)
    ensures Distinct(cs)
  {
    forall i, j | 0 <= i < j < |cs| ensures cs[i].net != cs[j].net { PrecedesTotal(cs[i].net, cs[j].net); }
  }

  lemma SortedCons(c: Component, cs: seq<Component>)
    requires Sorted(cs) && forall x | x in cs :: Precedes(c.net, x.net)
    ensures Sorted([c] + cs)
  {
    var d := [c] + cs;
    forall i, j | 0 <= i < j < |d| ensures Precedes(d[i].net, d[j].net) {
      if i == 0 { assert d[j] in cs; }
    }
  }

  lemma SortedTail(cs: seq<Component>)
    requires Sorted(cs) && cs != []
    ensures Sorted(cs[1..]) && forall x | x in cs[1..] :: Precedes(cs[0].net, x.net)
  {
  }

  lemma {:induction false} InsertSorted(cs: seq<Component>, c: Component)
    requires Sorted(cs) && !Has(cs, c.net)
    ensures Sorted(Insert(cs, c))
  {
    if cs != [] {
      SortedTail(cs);
      PrecedesTotal(c.net, cs[0].net);
      assert cs[0].net != c.net;
      if Precedes(c.net, cs[0].net) {
        forall x | x in cs ensures Precedes(c.net, x.net) {
          if x != cs[0] { PrecedesTransitive(c.net, cs[0].net, x.net); }
        }
        SortedCons(c, cs);
      } else {
        assert !Has(cs[1..], c.net) by {
          forall i | 0 <= i < |cs[1..]| ensures cs[1..][i].net != c.net { assert cs[i + 1].net != c.net; }
        }
        InsertSorted(cs[1..], c);
        InsertElements(cs[1..], c);
        SortedCons(cs[0], Insert(cs[1..], c));
      }
    }
  }

  lemma {:induction false} RemoveSorted(cs: seq<Component>, n: Net)
    requires Sorted(cs)
    ensures Sorted(Remove(cs, n))
  {
    if cs != [] && cs[0].net != n {
      SortedTail(cs);
      RemoveSorted(cs[1..], n);
      SortedDistinct(cs[1..]);
      RemoveElements(cs[1..], n);
      SortedCons(cs[0], Remove(cs[1..], n));
    }
  }

  // ---- Attributes ---------------------------------------------------------------------

  /** Suppression needs two components that disagree. */
  lemma SuppressionNeedsTwo(cs: seq<Component>, prior: Attrs, brief: bool, merge: Merge)
    ensures |cs| <= 1 ==> !GatherAll(cs, prior, brief, merge).suppressed
    ensures |cs| == 1 ==> GatherAll(cs, prior, brief, merge) == First(cs[0])
    ensures cs == [] ==> GatherAll(cs, prior, brief, merge) == NOTHING
  {
  }

  /** No later component carries a MED other than the first one's, an absent one there being 0. */
  ghost predicate MedsAgree(cs: seq<Component>) {
    forall i | 0 < i < |cs| :: cs[i].attrs.med.Some? ==> cs[i].attrs.med.value == MedValue(cs[0].attrs)
  }

  /** Suppression depends on the MEDs alone: neither on the mode nor on what was there before. */
  lemma SuppressedIff(cs: seq<Component>, prior: Attrs, brief: bool, merge: Merge)
    ensures GatherAll(cs, prior, brief, merge).suppressed <==> !MedsAgree(cs)
  {
    if cs != [] { GatheredSuppressed(First(cs[0]), cs, 1, prior, brief, merge); }
  }

  lemma {:induction false} GatheredSuppressed(g: Gathered, cs: seq<Component>, i: nat, prior: Attrs, brief: bool,
                                              merge: Merge)
    requires i <= |cs| && !g.suppressed
    ensures GatherFrom(g, cs, i, prior, brief, merge).suppressed <==>
            exists j :: i <= j < |cs| && cs[j].attrs.med.Some? && cs[j].attrs.med.value != g.med
    decreases |cs| - i
  {
    if i < |cs| {
      var g1 := Gather(g, cs[i], prior, brief, merge);
      if !g1.suppressed { GatheredSuppressed(g1, cs, i + 1, prior, brief, merge); }
    }
  }

  /** A lone component whose aggregate looks like one without components: an empty AS path, origin
      IGP, no MED and not atomic. */
  ghost predicate Indistinct(a: Attrs) {
    a.path == [] && a.origin == 0 && MedValue(a) == 0 && !a.atomic
  }

  lemma IndistinctIff(c: Component, id: nat)
    ensures AggregateAttrs(First(c), id) == AggregateAttrs(NOTHING, id) <==> Indistinct(c.attrs)
  {
  }

  // ---- Re-evaluation ------------------------------------------------------------------

  /** The copy of a component downstream, given the suppression state. */
  ghost predicate CopyOk(t: Table, aggNet: Net, suppressed: bool, c: Component) {
    && ((c.net, MarkerOf(suppressed)) in t <==> HasCopy(aggNet, suppressed, c.net))
    && ((c.net, MarkerOf(suppressed)) in t ==> t[(c.net, MarkerOf(suppressed))] == c.attrs)
    && (c.net, MarkerOf(!suppressed)) !in t
  }

  ghost predicate CopiesOk(t: Table, aggNet: Net, suppressed: bool, cs: seq<Component>) {
    forall c | c in cs :: CopyOk(t, aggNet, suppressed, c)
  }

  ghost predicate AggregateOk(t: Table, net: Net, announced: bool, attrs: Attrs) {
    && ((net, Aggregate) in t <==> announced)
    && (announced ==> t[(net, Aggregate)] == attrs)
  }

  ghost predicate LocalOk(t: Table, agg: Agg) {
    CopiesOk(t, agg.net, agg.suppressed, agg.components) && AggregateOk(t, agg.net, agg.announced, agg.attrs)
  }

  ghost predicate SameAt(t: Table, t': Table, k: (Net, Marker)) {
    (k in t <==> k in t') && (k in t ==> t[k] == t'[k])
  }

  /** A key that belongs to the copies of the given components. */
  ghost predicate IsCopyOf(cs: seq<Component>, k: (Net, Marker)) {
    (k.1 == NotAggregated || k.1 == WasAggregated) && Has(cs, k.0)
  }

  lemma RemarkOne(t: Table, agg: Agg, suppressed: bool, c: Component)
    requires agg.suppressed != suppressed && (agg.announced <==> !agg.suppressed)
    requires CopyOk(t, agg.net, agg.suppressed, c)
    ensures DeliverAll(t, Remark(agg, suppressed, c)).Some?
    ensures var t' := DeliverAll(t, Remark(agg, suppressed, c)).value;
            && CopyOk(t', agg.net, suppressed, c)
            && forall k | k != (c.net, NotAggregated) && k != (c.net, WasAggregated) :: SameAt(t, t', k)
  {
    var d := DeleteRoute(c.net, MarkerOf(agg.suppressed));
    var a := AddRoute(c.net, MarkerOf(suppressed), c.attrs);
    var dels := if agg.announced && c.net == agg.net then [] else [d];
    var adds := if !suppressed && c.net == agg.net then [] else [a];
    assert Remark(agg, suppressed, c) == dels + adds;
    DeliverConcat(t, dels, adds);
    DeliverOne(t, d);
    var t1 := DeliverAll(t, dels).value;
    DeliverOne(t1, a);
  }

  lemma {:induction false} RemarkDelivers(t: Table, agg: Agg, suppressed: bool, cs: seq<Component>)
    requires agg.suppressed != suppressed && (agg.announced <==> !agg.suppressed)
    requires Distinct(cs) && CopiesOk(t, agg.net, agg.suppressed, cs)
    ensures DeliverAll(t, RemarkAll(agg, suppressed, cs)).Some?
    ensures var t' := DeliverAll(t, RemarkAll(agg, suppressed, cs)).value;
            && CopiesOk(t', agg.net, suppressed, cs)
            && forall k | !IsCopyOf(cs, k) :: SameAt(t, t', k)
    decreases |cs|
  {
    if cs != [] {
      var c := cs[0];
      RemarkOne(t, agg, suppressed, c);
      var t1 := DeliverAll(t, Remark(agg, suppressed, c)).value;
      forall x | x in cs[1..] ensures CopyOk(t1, agg.net, agg.suppressed, x) && x.net != c.net {
        assert x in cs;
        assert SameAt(t, t1, (x.net, NotAggregated)) && SameAt(t, t1, (x.net, WasAggregated));
      }
      RemarkDelivers(t1, agg, suppressed, cs[1..]);
      DeliverConcat(t, Remark(agg, suppressed, c), RemarkAll(agg, suppressed, cs[1..]));
      var t' := DeliverAll(t1, RemarkAll(agg, suppressed, cs[1..])).value;
      RemarkTail(t, t1, t', cs, agg.net, suppressed);
    }
  }

  lemma RemarkTail(t: Table, t1: Table, t': Table, cs: seq<Component>, aggNet: Net, suppressed: bool)
    requires cs != [] && Distinct(cs)
    requires CopyOk(t1, aggNet, suppressed, cs[0]) && CopiesOk(t', aggNet, suppressed, cs[1..])
    requires forall k | k != (cs[0].net, NotAggregated) && k != (cs[0].net, WasAggregated) :: SameAt(t, t1, k)
    requires forall k | !IsCopyOf(cs[1..], k) :: SameAt(t1, t', k)
    ensures CopiesOk(t', aggNet, suppressed, cs)
    ensures forall k | !IsCopyOf(cs, k) :: SameAt(t, t', k)
  {
    assert !Has(cs[1..], cs[0].net);
    assert SameAt(t1, t', (cs[0].net, NotAggregated)) && SameAt(t1, t', (cs[0].net, WasAggregated));
    assert CopyOk(t', aggNet, suppressed, cs[0]);
    forall k | !IsCopyOf(cs, k) ensures SameAt(t, t', k) {
      if Has(cs[1..], k.0) {
        var i :| 0 <= i < |cs[1..]| && cs[1..][i].net == k.0;
        assert cs[i + 1].net == k.0;
      }
      assert !IsCopyOf(cs[1..], k);
      assert cs[0].net == k.0 ==> Has(cs, k.0);
      assert SameAt(t, t1, k) && SameAt(t1, t', k);
    }
  }

  /** What holds of an aggregate just before it is re-evaluated. */
  ghost predicate Evaluable(agg: Agg, id: nat) {
    && Distinct(agg.components)
    && (agg.announced ==> !agg.suppressed)
    && (!agg.announced && !agg.suppressed ==> agg.attrs.aggregator.None? && |agg.components| <= 1)
    && (agg.components == [] ==> agg.announced && agg.attrs != AggregateAttrs(NOTHING, id))
  }

  /** What re-evaluation establishes. */
  ghost predicate Evaluated(agg: Agg, id: nat) {
    && Distinct(agg.components)
    && (agg.announced <==> agg.components != [] && !agg.suppressed)
    && (agg.suppressed <==> !MedsAgree(agg.components))
    && agg.attrs.aggregator == Some(id)
    && (|agg.components| == 1 ==> agg.attrs == AggregateAttrs(First(agg.components[0]), id))
  }

  lemma WithdrawDelivers(t: Table, agg: Agg, suppressed: bool, attrs: Attrs)
    requires AggregateOk(t, agg.net, agg.announced, agg.attrs)
    ensures DeliverAll(t, Withdraw(agg, suppressed, attrs)).Some?
    ensures var t' := DeliverAll(t, Withdraw(agg, suppressed, attrs)).value;
            && AggregateOk(t', agg.net, agg.announced && Withdraw(agg, suppressed, attrs) == [], agg.attrs)
            && forall k | k != (agg.net, Aggregate) :: SameAt(t, t', k)
  {
    DeliverOne(t, DeleteRoute(agg.net, Aggregate));
  }

  lemma AnnounceDelivers(t: Table, agg: Agg, suppressed: bool, attrs: Attrs)
    requires AggregateOk(t, agg.net, agg.announced && Withdraw(agg, suppressed, attrs) == [], agg.attrs)
    ensures DeliverAll(t, Announce(agg, suppressed, attrs)).Some?
    ensures var t' := DeliverAll(t, Announce(agg, suppressed, attrs)).value;
            var still := agg.announced && Withdraw(agg, suppressed, attrs) == [];
            && AggregateOk(t', agg.net, still || Announces(agg, suppressed, attrs), attrs)
            && forall k | k != (agg.net, Aggregate) :: SameAt(t, t', k)
  {
    DeliverOne(t, AddRoute(agg.net, Aggregate, attrs));
  }

  lemma RemarkIfChangedDelivers(t: Table, agg: Agg, suppressed: bool)
    requires agg.suppressed != suppressed ==> (agg.announced <==> !agg.suppressed)
    requires Distinct(agg.components) && CopiesOk(t, agg.net, agg.suppressed, agg.components)
    ensures DeliverAll(t, RemarkIfChanged(agg, suppressed)).Some?
    ensures var t' := DeliverAll(t, RemarkIfChanged(agg, suppressed)).value;
            && CopiesOk(t', agg.net, suppressed, agg.components)
            && forall k | !IsCopyOf(agg.components, k) :: SameAt(t, t', k)
  {
    if agg.suppressed != suppressed { RemarkDelivers(t, agg, suppressed, agg.components); }
  }

  lemma CopiesKept(t: Table, t': Table, aggNet: Net, suppressed: bool, cs: seq<Component>, n: Net)
    requires CopiesOk(t, aggNet, suppressed, cs)
    requires forall k | k != (n, Aggregate) :: SameAt(t, t', k)
    ensures CopiesOk(t', aggNet, suppressed, cs)
  {
    forall c | c in cs ensures CopyOk(t', aggNet, suppressed, c) {
      assert SameAt(t, t', (c.net, NotAggregated)) && SameAt(t, t', (c.net, WasAggregated));
    }
  }

  /** The flags after re-evaluation. */
  lemma ReevaluateFlags(agg: Agg, id: nat, merge: Merge)
    requires Evaluable(agg, id)
    ensures Evaluated(Reevaluate(agg, id, merge).0, id)
    ensures Reevaluate(agg, id, merge).0.net == agg.net
    ensures Reevaluate(agg, id, merge).0.components == agg.components
  {
    SuppressionNeedsTwo(agg.components, agg.attrs, agg.brief, merge);
    SuppressedIff(agg.components, agg.attrs, agg.brief, merge);
  }

  /** Re-evaluating sends what brings the table downstream in line, and touches nothing else. */
  lemma ReevaluateDelivers(t: Table, agg: Agg, id: nat, merge: Merge)
    requires Evaluable(agg, id) && LocalOk(t, agg)
    ensures DeliverAll(t, Reevaluate(agg, id, merge).1).Some?
    ensures var t' := DeliverAll(t, Reevaluate(agg, id, merge).1).value;
            && LocalOk(t', Reevaluate(agg, id, merge).0)
            && forall k | k != (agg.net, Aggregate) && !IsCopyOf(agg.components, k) :: SameAt(t, t', k)
  {
    SuppressionNeedsTwo(agg.components, agg.attrs, agg.brief, merge);
    var g := GatherAll(agg.components, agg.attrs, agg.brief, merge);
    var attrs := AggregateAttrs(g, id);
    var ms1 := Withdraw(agg, g.suppressed, attrs);
    var ms2 := RemarkIfChanged(agg, g.suppressed);
    var ms3 := Announce(agg, g.suppressed, attrs);
    WithdrawDelivers(t, agg, g.suppressed, attrs);
    var t1 := DeliverAll(t, ms1).value;
    CopiesKept(t, t1, agg.net, agg.suppressed, agg.components, agg.net);
    RemarkIfChangedDelivers(t1, agg, g.suppressed);
    var t2 := DeliverAll(t1, ms2).value;
    assert SameAt(t1, t2, (agg.net, Aggregate));
    AnnounceDelivers(t2, agg, g.suppressed, attrs);
    var t3 := DeliverAll(t2, ms3).value;
    CopiesKept(t2, t3, agg.net, g.suppressed, agg.components, agg.net);
    DeliverConcat(t, ms1, ms2);
    DeliverConcat(t, ms1 + ms2, ms3);
    forall k | k != (agg.net, Aggregate) && !IsCopyOf(agg.components, k) ensures SameAt(t, t3, k) {
      assert SameAt(t, t1, k) && SameAt(t1, t2, k) && SameAt(t2, t3, k);
    }
  }
}
