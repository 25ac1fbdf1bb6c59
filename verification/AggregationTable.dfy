/** The aggregation table as it is: objects that are updated in place. */
module AggregationTable {
  import opened Wrappers
  import opened Nets
  import opened AggregationModel

  /** The next table, seen as the log of what it was sent. */
  class NextTable {
    var sent: seq<Message>

    constructor ()
      ensures sent == []
    {
      sent := [];
    }

    method Send(m: Message)
      modifies this
      ensures sent == old(sent) + [m]
    {
      sent := sent + [m];
    }
  }

  lemma Joined3(s: seq<Message>, x: seq<Message>, y: seq<Message>, z: seq<Message>)
    ensures s + x + y + z == s + (x + y + z)
  {
  }

  lemma RemarkNext(s: seq<Message>, agg: Agg, suppressed: bool, cs: seq<Component>, i: nat)
    requires i < |cs|
    ensures s + Remark(agg, suppressed, cs[i]) + RemarkAll(agg, suppressed, cs[i + 1..]) ==
            s + RemarkAll(agg, suppressed, cs[i..])
  {
    assert cs[i..][1..] == cs[i + 1..];
  }

  lemma Overwritten<V>(m: map<Net, V>, a: Net, x: V, y: V)
    ensures m[a := x][a := y] == m[a := y]
  {
  }

  lemma Dropped<V>(m: map<Net, V>, a: Net, x: V)
    ensures m[a := x] - {a} == m - {a}
  {
  }

  class AggregateRoute {
    const net: Net
    const brief: bool
    const id: nat
    var components: seq<Component>
    var attrs: Attrs
    var announced: bool
    var suppressed: bool

    constructor (net: Net, brief: bool, id: nat)
      ensures View() == NewAgg(net, brief) && this.id == id
    {
      this.net, this.brief, this.id := net, brief, id;
      components := [];
      attrs := INITIAL_ATTRS;
      announced, suppressed := false, false;
    }

    ghost function View(): Agg
      reads this
    {
      Agg(net, brief, components, attrs, announced, suppressed)
    }

    /** The loop of phase 1, which stops at the first component whose MED disagrees. */
    method GatherComponents(merge: Merge) returns (g: Gathered)
      ensures g == GatherAll(components, attrs, brief, merge)
    {
      var path: Path := [];
      var origin, med := 0, 0;
      var atomic, disagrees := false, false;
      var i := 0;
      while i < |components| && !disagrees
        invariant i <= |components|
        invariant i == 0 ==> Gathered(path, origin, med, atomic, disagrees) == NOTHING
        invariant i > 0 ==>
                    var g := Gathered(path, origin, med, atomic, disagrees);
                    GatherAll(components, attrs, brief, merge) == GatherFrom(g, components, i, attrs, brief, merge)
      {
        var c := components[i].attrs;
        if i == 0 {
          if c.med.Some? { med := c.med.value; }
          path, origin := c.path, c.origin;
          if c.atomic { atomic := true; }
        } else if c.med.Some? && med != c.med.value {
          disagrees := true;
        } else {
          if c.origin > attrs.origin { origin := c.origin; }
          if !brief {
            path := merge(attrs.path, c.path);
          } else if !SamePath(path, c.path) {
            path := [];
            atomic := true;
          }
          if c.atomic { atomic := true; }
        }
        i := i + 1;
      }
      g := Gathered(path, origin, med, atomic, disagrees);
    }

    /** The loop of phase 3. */
    method RemarkComponents(next: NextTable, wasSuppressed: bool, wasAnnounced: bool)
      requires wasSuppressed != suppressed
      modifies next
      ensures next.sent == old(next.sent) +
              RemarkAll(View().(suppressed := wasSuppressed, announced := wasAnnounced), suppressed, components)
    {
      ghost var agg := View().(suppressed := wasSuppressed, announced := wasAnnounced);
      var from, to := NotAggregated, WasAggregated;
      if !wasSuppressed { from, to := WasAggregated, NotAggregated; }
      var i := 0;
      while i < |components|
        invariant i <= |components|
        invariant next.sent + RemarkAll(agg, suppressed, components[i..]) ==
                  old(next.sent) + RemarkAll(agg, suppressed, components)
      {
        ghost var before := next.sent;
        var c := components[i];
        if !(wasAnnounced && c.net == net) { next.Send(DeleteRoute(c.net, from)); }
        if !(!suppressed && c.net == net) { next.Send(AddRoute(c.net, to, c.attrs)); }
        assert next.sent == before + Remark(agg, suppressed, c);
        RemarkNext(before, agg, suppressed, components, i);
        i := i + 1;
      }
    }
  
    /** Phase 2: withdraw an aggregate that is suppressed or whose attributes change. */
    method WithdrawPhase(next: NextTable, prior: Attrs)
      modifies `announced, next
      ensures var agg := old(View()).(attrs := prior);
              && announced == (agg.announced && Withdraw(agg, suppressed, attrs) == [])
              && next.sent == old(next.sent) + Withdraw(agg, suppressed, attrs)
    {
      if announced && (suppressed || prior != attrs) {
        next.Send(DeleteRoute(net, Aggregate));
        announced := false;
      }
    }

    /** Phase 4: announce an aggregate that is new, or no longer suppressed, or changed. */
    method AnnouncePhase(next: NextTable, prior: Attrs, wasSuppressed: bool, ghost agg: Agg)
      requires agg.net == net && agg.components == components && agg.attrs == prior && agg.suppressed == wasSuppressed
      requires announced == (agg.announced && Withdraw(agg, suppressed, attrs) == [])
      modifies `announced, next
      ensures announced == (old(announced) || Announces(agg, suppressed, attrs))
      ensures next.sent == old(next.sent) + Announce(agg, suppressed, attrs)
    {
      if !announced && !suppressed && |components| != 0 && (wasSuppressed || prior != attrs) {
        next.Send(AddRoute(net, Aggregate, attrs));
        announced := true;
      }
    }

    /** Phase 3, run when suppression changes. */
    method RemarkPhase(next: NextTable, wasSuppressed: bool, wasAnnounced: bool, ghost agg: Agg)
      requires agg.net == net && agg.components == components && agg.brief == brief
      requires agg.suppressed == wasSuppressed && agg.announced == wasAnnounced
      modifies next
      ensures next.sent == old(next.sent) + RemarkIfChanged(agg, suppressed)
    {
      if wasSuppressed != suppressed {
        RemarkComponents(next, wasSuppressed, wasAnnounced);
        assert View().(suppressed := wasSuppressed, announced := wasAnnounced) == agg.(attrs := attrs);
        RemarkIgnoresAttrs(agg, attrs, suppressed, components);
      }
    }

    /** Recompute the attributes and send what changes downstream. */
    method Reevaluate(next: NextTable, merge: Merge)
      modifies this, next
      ensures View() == AggregationModel.Reevaluate(old(View()), id, merge).0
      ensures next.sent == old(next.sent) + AggregationModel.Reevaluate(old(View()), id, merge).1
    {
      var wasSuppressed, wasAnnounced, prior := suppressed, announced, attrs;
      ghost var agg := View();
      var g := GatherComponents(merge);
      suppressed := g.suppressed;
      attrs := AggregateAttrs(g, id);
      WithdrawPhase(next, prior);
      assert next.sent == old(next.sent) + Withdraw(agg, suppressed, attrs);
      RemarkPhase(next, wasSuppressed, wasAnnounced, agg);
      AnnouncePhase(next, prior, wasSuppressed, agg);
      Joined3(old(next.sent), Withdraw(agg, suppressed, attrs), RemarkIfChanged(agg, suppressed),
              Announce(agg, suppressed, attrs));
    }

    /** A new component: its copy, the re-evaluation, and the version for IBGP. */
    method Join(next: NextTable, r: Route, merge: Merge)
      modifies this, next
      ensures var (agg, ms) := AggregationModel.Reevaluate(
                old(View()).(components := Insert(old(components), Component(r.net, r.attrs))), id, merge);
              View() == agg &&
              next.sent == old(next.sent) + (Copy(old(View()), r) + ms + [AddRoute(r.net, IbgpOnly, r.attrs)])
    {
      components := Insert(components, Component(r.net, r.attrs));
      if net != r.net || suppressed {
        next.Send(AddRoute(r.net, if suppressed then NotAggregated else WasAggregated, r.attrs));
      }
      assert next.sent == old(next.sent) + Copy(old(View()), r);
      ghost var ms := AggregationModel.Reevaluate(View(), id, merge).1;
      Reevaluate(next, merge);
      next.Send(AddRoute(r.net, IbgpOnly, r.attrs));
      Joined3(old(next.sent), Copy(old(View()), r), ms, [AddRoute(r.net, IbgpOnly, r.attrs)]);
    }

    /** A component leaves. */
    method Leave(next: NextTable, r: Route, merge: Merge)
      modifies this, next
      ensures var (agg, ms) := AggregationModel.Reevaluate(
                old(View()).(components := Remove(old(components), r.net)), id, merge);
              View() == agg &&
              next.sent == old(next.sent) + (Uncopy(old(View()), r) + ms + [DeleteRoute(r.net, IbgpOnly)])
    {
      if net != r.net || suppressed {
        next.Send(DeleteRoute(r.net, if suppressed then NotAggregated else WasAggregated));
      }
      assert next.sent == old(next.sent) + Uncopy(old(View()), r);
      components := Remove(components, r.net);
      ghost var ms := AggregationModel.Reevaluate(View(), id, merge).1;
      Reevaluate(next, merge);
      next.Send(DeleteRoute(r.net, IbgpOnly));
      Joined3(old(next.sent), Uncopy(old(View()), r), ms, [DeleteRoute(r.net, IbgpOnly)]);
    }
  }

  lemma {:induction false} RemarkIgnoresAttrs(agg: Agg, attrs: Attrs, suppressed: bool, cs: seq<Component>)
    ensures RemarkAll(agg.(attrs := attrs), suppressed, cs) == RemarkAll(agg, suppressed, cs)
    decreases |cs|
  {
    if cs != [] { RemarkIgnoresAttrs(agg, attrs, suppressed, cs[1..]); }
  }

  class Table {
    const id: nat
    const merge: Merge
    const next: NextTable
    var aggregates: map<Net, AggregateRoute>
    /** The aggregates as values, and the objects that hold them. */
    ghost var contents: Aggregates
    ghost var objects: set<AggregateRoute>

    constructor (id: nat, merge: Merge, next: NextTable)
      ensures Valid() && contents == map[] && this.next == next && this.id == id && this.merge == merge
    {
      this.id, this.merge, this.next := id, merge, next;
      aggregates, contents, objects := map[], map[], {};
    }

    ghost predicate Valid()
      reads this, objects
    {
      && contents.Keys == aggregates.Keys
      && forall a | a in aggregates ::
           && aggregates[a] in objects && aggregates[a].View() == contents[a]
           && aggregates[a].net == a && aggregates[a].id == id
    }

    method AddRoute(r: Route) returns (aborted: bool)
      requires Valid()
      modifies this, next, objects
      ensures aborted == Added(old(contents), r, id, merge).Abort?
      ensures !aborted ==> Valid() && fresh(objects - old(objects))
      ensures !aborted ==> contents == Added(old(contents), r, id, merge).value.0
      ensures !aborted ==> next.sent == old(next.sent) + Added(old(contents), r, id, merge).value.1
    {
      if r.aggrLen.None? || |r.net| < r.aggrLen.value {
        next.Send(Message.AddRoute(r.net, Ignore, r.attrs));
        return false;
      }
      aborted := AddComponent(r);
    }

    method AddComponent(r: Route) returns (aborted: bool)
      requires Valid() && Aggregable(r)
      modifies this, next, objects
      ensures aborted == Added(old(contents), r, id, merge).Abort?
      ensures !aborted ==> Valid() && fresh(objects - old(objects))
      ensures !aborted ==> contents == Added(old(contents), r, id, merge).value.0
      ensures !aborted ==> next.sent == old(next.sent) + Added(old(contents), r, id, merge).value.1
    {
      var a := r.net[..r.aggrLen.value];
      var agg := FindOrCreate(a, r.brief);
      if Has(agg.components, r.net) { return true; }
      JoinComponent(agg, r);
      aborted := false;
      Overwritten(old(contents), a, NewAgg(a, r.brief), contents[a]);
    }

    method JoinComponent(agg: AggregateRoute, r: Route)
      requires Valid() && agg.net in aggregates && aggregates[agg.net] == agg
      modifies this, next, agg
      ensures Valid() && objects == old(objects) && aggregates == old(aggregates)
      ensures var before := old(contents)[agg.net];
              var (after, ms) := AggregationModel.Reevaluate(
                before.(components := Insert(before.components, Component(r.net, r.attrs))), id, merge);
              && contents == old(contents)[agg.net := after]
              && next.sent == old(next.sent) + (Copy(before, r) + ms + [Message.AddRoute(r.net, IbgpOnly, r.attrs)])
    {
      agg.Join(next, r, merge);
      Refresh(agg);
    }

    method FindOrCreate(a: Net, brief: bool) returns (agg: AggregateRoute)
      requires Valid()
      modifies this
      ensures Valid() && fresh(objects - old(objects))
      ensures a in aggregates && aggregates[a] == agg
      ensures contents == if a in old(contents) then old(contents) else old(contents)[a := NewAgg(a, brief)]
    {
      if a !in aggregates {
        var created := new AggregateRoute(a, brief, id);
        aggregates := aggregates[a := created];
        contents := contents[a := created.View()];
        objects := objects + {created};
      }
      agg := aggregates[a];
    }

    method DeleteRoute(r: Route) returns (aborted: bool)
      requires Valid()
      modifies this, next, objects
      ensures aborted == Deleted(old(contents), r, id, merge).Abort?
      ensures !aborted ==> Valid() && fresh(objects - old(objects))
      ensures !aborted ==> contents == Deleted(old(contents), r, id, merge).value.0
      ensures !aborted ==> next.sent == old(next.sent) + Deleted(old(contents), r, id, merge).value.1
    {
      if r.aggrLen.None? || |r.net| < r.aggrLen.value {
        next.Send(Message.DeleteRoute(r.net, Ignore));
        return false;
      }
      var a := r.net[..r.aggrLen.value];
      if a !in aggregates { return true; }
      var agg := aggregates[a];
      LeaveComponent(agg, r);
      Prune(a);
      Dropped(old(contents), a, agg.View());
      aborted := false;
    }

    method LeaveComponent(agg: AggregateRoute, r: Route)
      requires Valid() && agg.net in aggregates && aggregates[agg.net] == agg
      modifies this, next, agg
      ensures Valid() && objects == old(objects) && aggregates == old(aggregates)
      ensures var before := old(contents)[agg.net];
              var (after, ms) := AggregationModel.Reevaluate(
                before.(components := Remove(before.components, r.net)), id, merge);
              && contents == old(contents)[agg.net := after]
              && next.sent == old(next.sent) + (Uncopy(before, r) + ms + [Message.DeleteRoute(r.net, IbgpOnly)])
    {
      agg.Leave(next, r, merge);
      Refresh(agg);
    }

    /** Bring the values in line with one object that changed. */
    ghost method Refresh(agg: AggregateRoute)
      requires agg.net in aggregates && aggregates[agg.net] == agg && agg in objects && agg.id == id
      requires contents.Keys == aggregates.Keys
      requires forall a | a in aggregates && a != agg.net ::
                 aggregates[a] in objects && aggregates[a].View() == contents[a] && aggregates[a].net == a &&
                 aggregates[a].id == id
      modifies `contents
      ensures Valid() && contents == old(contents)[agg.net := agg.View()]
    {
      contents := contents[agg.net := agg.View()];
    }

    /** An aggregate without components is erased. */
    method Prune(a: Net)
      requires Valid() && a in aggregates
      modifies `aggregates, `contents
      ensures Valid()
      ensures contents == if old(contents)[a].components == [] then old(contents) - {a} else old(contents)
    {
      if |aggregates[a].components| == 0 {
        aggregates, contents := aggregates - {a}, contents - {a};
      }
    }

    method ReplaceRoute(prior: Route, r: Route) returns (aborted: bool)
      requires Valid()
      modifies this, next, objects
      ensures aborted == Replaced(old(contents), prior, r, id, merge).Abort?
      ensures !aborted ==> Valid() && fresh(objects - old(objects))
      ensures !aborted ==> contents == Replaced(old(contents), prior, r, id, merge).value.0
      ensures !aborted ==> next.sent == old(next.sent) + Replaced(old(contents), prior, r, id, merge).value.1
    {
      if prior.aggrLen.None? && r.aggrLen.None? {
        next.Send(Message.ReplaceRoute(r.net, Ignore, r.attrs));
        return false;
      }
      aborted := DeleteRoute(prior);
      if aborted { return; }
      ghost var ms1 := Deleted(old(contents), prior, id, merge).value.1;
      ghost var ms2 := Added(contents, r, id, merge);
      aborted := AddRoute(r);
      if !aborted { Joined3(old(next.sent), ms1, ms2.value.1, []); }
    }
  }
}
