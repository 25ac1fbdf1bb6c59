/** Prefix aggregation: the messages an aggregation table sends downstream for every change of
    its component routes. */
module AggregationModel {
  import opened Wrappers
  import opened Nets

  /** An AS path, as far as aggregation looks into it: its segments, each a set or a sequence. */
  datatype Segment = Segment(isSet: bool, ases: seq<nat>)
  type Path = seq<Segment>

  /** ASPath::operator== compares the AS numbers of the segments and not their types. */
  predicate SamePath(p: Path, q: Path) {
    |p| == |q| && forall i | 0 <= i < |p| :: p[i].ases == q[i].ases
  }

  /** Merging two paths is left open: the results hold for every way of doing it. */
  type Merge = (Path, Path) -> Path

  /** ORIGIN is IGP = 0, EGP = 1 or INCOMPLETE = 2. */
  datatype Attrs = Attrs(path: Path, origin: nat, med: Option<nat>, atomic: bool, aggregator: Option<nat>, others: nat)

  /** SubnetRoute: `aggrLen` is None for SR_AGGR_IGNORE. */
  datatype Route = Route(net: Net, attrs: Attrs, aggrLen: Option<nat>, brief: bool)

  /** The markers SR_AGGR_IGNORE, SR_AGGR_IBGP_ONLY, SR_AGGR_EBGP_AGGREGATE,
      SR_AGGR_EBGP_NOT_AGGREGATED and SR_AGGR_EBGP_WAS_AGGREGATED. */
  datatype Marker = Ignore | IbgpOnly | Aggregate | NotAggregated | WasAggregated

  datatype Message =
    | AddRoute(net: Net, marker: Marker, attrs: Attrs)
    | DeleteRoute(net: Net, marker: Marker)
    | ReplaceRoute(net: Net, marker: Marker, attrs: Attrs)

  datatype Component = Component(net: Net, attrs: Attrs)

  /** AggregateRoute; the components are in the order in which the trie iterates. */
  datatype Agg = Agg(net: Net, brief: bool, components: seq<Component>, attrs: Attrs, announced: bool, suppressed: bool)

  // ---- Component tables ---------------------------------------------------------------

  predicate Has(cs: seq<Component>, n: Net) {
    exists i :: 0 <= i < |cs| && cs[i].net == n
  }

  function Insert(cs: seq<Component>, c: Component): seq<Component> {
    if cs == [] then [c]
    else if Precedes(c.net, cs[0].net) then [c] + cs
    else [cs[0]] + Insert(cs[1..], c)
  }

  function Remove(cs: seq<Component>, n: Net): seq<Component> {
    if cs == [] then []
    else if cs[0].net == n then cs[1..]
    else [cs[0]] + Remove(cs[1..], n)
  }

  // ---- Phase 1: attributes of the aggregate -------------------------------------------

  /** What the loop over the components has gathered. */
  datatype Gathered = Gathered(path: Path, origin: nat, med: nat, atomic: bool, suppressed: bool)

  function MedValue(a: Attrs): nat {
    if a.med.Some? then a.med.value else 0
  }

  function First(c: Component): Gathered {
    Gathered(c.attrs.path, c.attrs.origin, MedValue(c.attrs), c.attrs.atomic, false)
  }

  /** A later component. A MED different from the first one's suppresses the aggregate. */
  function Gather(g: Gathered, c: Component, prior: Attrs, brief: bool, merge: Merge): Gathered {
    if c.attrs.med.Some? && g.med != c.attrs.med.value then g.(suppressed := true)
    else
      var origin := if c.attrs.origin > prior.origin then c.attrs.origin else g.origin;
      var differs := brief && !SamePath(g.path, c.attrs.path);
      var path := if !brief then merge(prior.path, c.attrs.path) else if differs then [] else g.path;
      Gathered(path, origin, g.med, g.atomic || differs || c.attrs.atomic, false)
  }

  function GatherFrom(g: Gathered, cs: seq<Component>, i: nat, prior: Attrs, brief: bool, merge: Merge): Gathered
    requires i <= |cs|
    decreases |cs| - i
  {
    if i == |cs| || g.suppressed then g
    else GatherFrom(Gather(g, cs[i], prior, brief, merge), cs, i + 1, prior, brief, merge)
  }

  const NOTHING := Gathered([], 0, 0, false, false)

  function GatherAll(cs: seq<Component>, prior: Attrs, brief: bool, merge: Merge): Gathered {
    if cs == [] then NOTHING else GatherFrom(First(cs[0]), cs, 1, prior, brief, merge)
  }

  /** The attribute list built from what was gathered, always with the AGGREGATOR attribute. */
  function AggregateAttrs(g: Gathered, id: nat): Attrs {
    var med := if g.med != 0 && !(g.path != [] && g.path[0].isSet) then Some(g.med) else None;
    Attrs(g.path, g.origin, med, g.atomic, Some(id), 0)
  }

  // ---- Phases 2 to 4: messages --------------------------------------------------------

  function MarkerOf(suppressed: bool): Marker {
    if suppressed then NotAggregated else WasAggregated
  }

  /** A component has a copy for EBGP unless the aggregate itself stands for its net. */
  predicate HasCopy(aggNet: Net, suppressed: bool, n: Net) {
    n != aggNet || suppressed
  }

  function Withdraw(agg: Agg, suppressed: bool, attrs: Attrs): seq<Message> {
    if agg.announced && (suppressed || agg.attrs != attrs) then [DeleteRoute(agg.net, Aggregate)] else []
  }

  /** Re-mark one component copy when suppression changes. */
  function Remark(agg: Agg, suppressed: bool, c: Component): seq<Message> {
    (if agg.announced && c.net == agg.net then [] else [DeleteRoute(c.net, MarkerOf(agg.suppressed))]) +
    (if !suppressed && c.net == agg.net then [] else [AddRoute(c.net, MarkerOf(suppressed), c.attrs)])
  }

  function RemarkAll(agg: Agg, suppressed: bool, cs: seq<Component>): seq<Message> {
    if cs == [] then [] else Remark(agg, suppressed, cs[0]) + RemarkAll(agg, suppressed, cs[1..])
  }

  function RemarkIfChanged(agg: Agg, suppressed: bool): seq<Message> {
    if agg.suppressed != suppressed then RemarkAll(agg, suppressed, agg.components) else []
  }

  predicate Announces(agg: Agg, suppressed: bool, attrs: Attrs) {
    && (agg.announced ==> Withdraw(agg, suppressed, attrs) != [])
    && !suppressed && agg.components != [] && (agg.suppressed || agg.attrs != attrs)
  }

  function Announce(agg: Agg, suppressed: bool, attrs: Attrs): seq<Message> {
    if Announces(agg, suppressed, attrs) then [AddRoute(agg.net, Aggregate, attrs)] else []
  }

  /** AggregateRoute::reevaluate. */
  function Reevaluate(agg: Agg, id: nat, merge: Merge): (Agg, seq<Message>) {
    var g := GatherAll(agg.components, agg.attrs, agg.brief, merge);
    var attrs := AggregateAttrs(g, id);
    var withdrawn := Withdraw(agg, g.suppressed, attrs);
    var announced := (agg.announced && withdrawn == []) || Announces(agg, g.suppressed, attrs);
    (agg.(attrs := attrs, announced := announced, suppressed := g.suppressed),
     withdrawn + RemarkIfChanged(agg, g.suppressed) + Announce(agg, g.suppressed, attrs))
  }

  // ---- The table ----------------------------------------------------------------------

  /** Marked for aggregation, and not less specific than the aggregate asked for. */
  predicate Aggregable(r: Route) {
    r.aggrLen.Some? && r.aggrLen.value <= |r.net|
  }

  function AggNet(r: Route): Net
    requires Aggregable(r)
  {
    r.net[..r.aggrLen.value]
  }

  type Aggregates = map<Net, Agg>

  const INITIAL_ATTRS := Attrs([], 0, None, false, None, 0)

  function NewAgg(net: Net, brief: bool): Agg {
    Agg(net, brief, [], INITIAL_ATTRS, false, false)
  }

  function Copy(agg: Agg, r: Route): seq<Message> {
    if HasCopy(agg.net, agg.suppressed, r.net) then [AddRoute(r.net, MarkerOf(agg.suppressed), r.attrs)] else []
  }

  function Uncopy(agg: Agg, r: Route): seq<Message> {
    if HasCopy(agg.net, agg.suppressed, r.net) then [DeleteRoute(r.net, MarkerOf(agg.suppressed))] else []
  }

  /** AggregationTable::add_route. */
  function Added(aggs: Aggregates, r: Route, id: nat, merge: Merge): Outcome<(Aggregates, seq<Message>)> {
    if !Aggregable(r) then Next((aggs, [AddRoute(r.net, Ignore, r.attrs)]))
    else
      var a := AggNet(r);
      var agg := if a in aggs then aggs[a] else NewAgg(a, r.brief);
      if Has(agg.components, r.net) then Abort
      else
        var agg1 := agg.(components := Insert(agg.components, Component(r.net, r.attrs)));
        var (agg2, msgs) := Reevaluate(agg1, id, merge);
        Next((aggs[a := agg2], Copy(agg, r) + msgs + [AddRoute(r.net, IbgpOnly, r.attrs)]))
  }

  /** AggregationTable::delete_route. */
  function Deleted(aggs: Aggregates, r: Route, id: nat, merge: Merge): Outcome<(Aggregates, seq<Message>)> {
    if !Aggregable(r) then Next((aggs, [DeleteRoute(r.net, Ignore)]))
    else
      var a := AggNet(r);
      if a !in aggs then Abort
      else
        var agg := aggs[a];
        var agg1 := agg.(components := Remove(agg.components, r.net));
        var (agg2, msgs) := Reevaluate(agg1, id, merge);
        var aggs' := if agg2.components == [] then aggs - {a} else aggs[a := agg2];
        Next((aggs', Uncopy(agg, r) + msgs + [DeleteRoute(r.net, IbgpOnly)]))
  }

  /** AggregationTable::replace_route. */
  function Replaced(aggs: Aggregates, prior: Route, r: Route, id: nat, merge: Merge)
    : Outcome<(Aggregates, seq<Message>)>
  {
    if prior.aggrLen.None? && r.aggrLen.None? then Next((aggs, [ReplaceRoute(r.net, Ignore, r.attrs)]))
    else
      match Deleted(aggs, prior, id, merge)
      case Abort => Abort
      case Next((aggs1, msgs1)) =>
        match Added(aggs1, r, id, merge)
        case Abort => Abort
        case Next((aggs2, msgs2)) => Next((aggs2, msgs1 + msgs2))
  }

  // ---- The table downstream -----------------------------------------------------------

  type Table = map<(Net, Marker), Attrs>

  /** A well-formed message adds what is absent and deletes or replaces what is present. */
  function Deliver(t: Table, m: Message): Option<Table> {
    match m
    case AddRoute(n, k, a) => if (n, k) in t then None else Some(t[(n, k) := a])
    case DeleteRoute(n, k) => if (n, k) in t then Some(t - {(n, k)}) else None
    case ReplaceRoute(n, k, a) => if (n, k) in t then Some(t[(n, k) := a]) else None
  }

  function DeliverAll(t: Table, ms: seq<Message>): Option<Table>
    decreases |ms|
  {
    if ms == [] then Some(t)
    else
      match Deliver(t, ms[0])
      case None => None
      case Some(t1) => DeliverAll(t1, ms[1..])
  }
}
