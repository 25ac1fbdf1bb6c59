/** The dump as a whole: the routes of all peers, the dump iterator, and what the new peer has
    been told. */
module DumpSafety {
  import opened Wrappers
  import opened Nets
  import opened DumpModel

  datatype Route = Route(peer: Peer, genid: nat, attributes: nat)

  /** `live` is the winning route for each net upstream of the dump table and `view` what the
      table downstream has been told. `newest` is the latest generation of each peer, `up` the
      peers that are up, and `alive` the generations whose routes are not all deleted yet. */
  datatype World = World(
    it: Iter, live: map<Net, Route>, view: map<Net, Route>,
    newest: map<Peer, nat>, up: set<Peer>, alive: set<(Peer, nat)>)

  /** What the dump table sends downstream. */
  datatype Message = Add(net: Net, route: Route) | Delete(net: Net) | Replace(net: Net, route: Route)

  /** A well-formed message adds what is absent and deletes or replaces what is present. */
  function Deliver(view: map<Net, Route>, m: Message): Option<map<Net, Route>> {
    match m
    case Add(net, r) => if net in view then None else Some(view[net := r])
    case Delete(net) => if net in view then Some(view - {net}) else None
    case Replace(net, r) => if net in view then Some(view[net := r]) else None
  }

  datatype Event =
    | RouteAdded(net: Net, route: Route)
    | RouteDeleted(net: Net)
    | RouteReplaced(net: Net, route: Route)
    | RouteDumped(net: Net)
    | PeerDumped
    | WentDown(peer: Peer)
    | DownComplete(peer: Peer, genid: nat)
    | CameUp(peer: Peer, genid: nat)

  predicate Accepted(it: Iter, net: Net, r: Route) {
    Accepts(it, r.peer, r.genid, net)
  }

  function CurrentPeer(it: Iter): Peer
    requires Dumping(it)
  {
    it.order[it.current].0
  }

  /** A route of the peer being dumped that the dump has not reached. */
  ghost predicate Undumped(w: World, net: Net)
    requires Dumping(w.it) && CurrentPeer(w.it) in w.it.peers
  {
    && net in w.live && w.live[net].peer == CurrentPeer(w.it)
    && w.live[net].genid == w.it.peers[CurrentPeer(w.it)].genid
    && !(w.it.routesDumped && AtOrBefore(net, w.it.lastDumped))
  }

  /** The world around the dump: messages describe real changes, the dump visits a peer's routes
      in net order and leaves a peer only when none is left, and a peering goes down before a
      newer generation of it comes up. */
  ghost predicate Legal(w: World, e: Event) {
    match e
    case RouteAdded(net, r) => net !in w.live && (r.peer, r.genid) in w.alive
    case RouteDeleted(net) => net in w.live
    case RouteReplaced(net, r) => net in w.live && (r.peer, r.genid) in w.alive
    case RouteDumped(net) =>
      && Dumping(w.it) && CurrentPeer(w.it) in w.it.peers
      && Undumped(w, net) && forall m | Undumped(w, m) && m != net :: Precedes(net, m)
    case PeerDumped =>
      Dumping(w.it) && CurrentPeer(w.it) in w.it.peers && forall m | m in w.live :: !Undumped(w, m)
    case WentDown(p) => p in w.up && p in w.newest
    case DownComplete(p, g) =>
      && (p in w.up && p in w.newest ==> g != w.newest[p])
      && forall n | n in w.live :: !(w.live[n].peer == p && w.live[n].genid == g)
    case CameUp(p, g) => p !in w.up && (p in w.newest ==> g > w.newest[p])
  }

  function Told(o: Option<map<Net, Route>>, w: World): Outcome<World> {
    if o.Some? then Next(w.(view := o.value)) else Abort
  }

  /** DumpTable::replace_route asks about the old and the new route separately. */
  function AskBoth(it: Iter, net: Net, o: Route, r: Route): Outcome<(Iter, bool, bool)> {
    match RouteChangeIsValid(it, o.peer, o.genid, net)
    case Abort => Abort
    case Next((it1, oldValid)) =>
      match RouteChangeIsValid(it1, r.peer, r.genid, net)
      case Abort => Abort
      case Next((it2, newValid)) => Next((it2, oldValid, newValid))
  }

  function Replaced(w: World, it: Iter, net: Net, r: Route, oldValid: bool, newValid: bool): Outcome<World> {
    var w' := w.(it := it, live := w.live[net := r]);
    if oldValid && newValid then Told(Deliver(w.view, Replace(net, r)), w')
    else if newValid then Told(Deliver(w.view, Add(net, r)), w')
    else if oldValid then Told(Deliver(w.view, Delete(net)), w')
    else Next(w')
  }

  /** One event. Its own peer going down is nothing to the table, which will soon be unplumbed. It
      aborts on a failed assertion, and also if the table downstream would be sent
      an ill-formed message. */
  ghost function Step(w: World, e: Event): Outcome<World>
    requires Legal(w, e) && Listed(w.it)
  {
    match e
    case RouteAdded(net, r) =>
      (match RouteChangeIsValid(w.it, r.peer, r.genid, net)
       case Abort => Abort
       case Next((it, valid)) =>
         var w' := w.(it := it, live := w.live[net := r]);
         if valid then Told(Deliver(w.view, Add(net, r)), w') else Next(w'))
    case RouteDeleted(net) =>
      var r := w.live[net];
      (match RouteChangeIsValid(w.it, r.peer, r.genid, net)
       case Abort => Abort
       case Next((it, valid)) =>
         var w' := w.(it := it, live := w.live - {net});
         if valid then Told(Deliver(w.view, Delete(net)), w') else Next(w'))
    case RouteReplaced(net, r) =>
      (match AskBoth(w.it, net, w.live[net], r)
       case Abort => Abort
       case Next((it, oldValid, newValid)) => Replaced(w, it, net, r, oldValid, newValid))
    case RouteDumped(net) =>
      var r := w.live[net];
      (match RouteDump(w.it, r.peer, r.genid, net)
       case Abort => Abort
       case Next(it) => Told(Deliver(w.view, Add(net, r)), w.(it := it)))
    case PeerDumped => Next(w.(it := NextPeer(w.it)))
    case WentDown(p) =>
      if p == w.it.self then Next(w.(up := w.up - {p})) else
      (match PeeringWentDown(w.it, p, w.newest[p])
       case Abort => Abort
       case Next(it) => Next(w.(it := it, up := w.up - {p})))
    case DownComplete(p, g) =>
      if p == w.it.self then Next(w.(alive := w.alive - {(p, g)})) else
      (match PeeringDownComplete(w.it, p, g)
       case Abort => Abort
       case Next(it) => Next(w.(it := it, alive := w.alive - {(p, g)})))
    case CameUp(p, g) =>
      (match PeeringCameUp(w.it, p, g)
       case Abort => Abort
       case Next(it) => Next(w.(it := it, newest := w.newest[p := g], up := w.up + {p}, alive := w.alive + {(p, g)})))
  }

  // ---- Invariants ---------------------------------------------------------------------

  /** At most one peer is being dumped, namely the current one; the peers still to be dumped lie
      ahead of it; the new peer is not among them. */
  ghost predicate IterOk(it: Iter) {
    && it.current <= |it.order| && Listed(it)
    && (Dumping(it) ==> it.peers[CurrentPeer(it)].status == CurrentlyDumping)
    && (forall p | p in it.peers && it.peers[p].status == CurrentlyDumping :: Dumping(it) && CurrentPeer(it) == p)
    && (forall p | p in it.peers && it.peers[p].status == StillToDump :: Ahead(it, p))
    && (it.self in it.peers ==> it.peers[it.self].status !in {StillToDump, CurrentlyDumping})
  }

  ghost predicate Ahead(it: Iter, p: Peer) {
    exists j :: it.current < j < |it.order| && it.order[j].0 == p
  }

  /** Generations only grow, and a peer that is or will be dumped is up in the generation listed. */
  ghost predicate GenerationsOk(w: World) {
    && (forall a | a in w.alive :: a.0 in w.newest && a.1 <= w.newest[a.0])
    && (forall n | n in w.live :: (w.live[n].peer, w.live[n].genid) in w.alive)
    && (forall p | p in w.it.peers && w.it.peers[p].status in {StillToDump, CurrentlyDumping} ::
          p in w.up && p in w.newest && w.newest[p] == w.it.peers[p].genid)
  }

  /** The new peer has been told exactly the live routes that the iterator accepts. */
  ghost predicate Consistent(w: World) {
    forall n :: n in w.view <==> n in w.live && Accepted(w.it, n, w.live[n])
  }

  ghost predicate SameRoutes(w: World) {
    forall n | n in w.view && n in w.live :: w.view[n] == w.live[n]
  }

  ghost predicate Inv(w: World) {
    IterOk(w.it) && GenerationsOk(w) && Consistent(w) && SameRoutes(w)
  }

  // ---- What leaves acceptance alone ---------------------------------------------------

  lemma RememberKeeps(it: Iter, p: Peer, genid: nat)
    requires IterOk(it)
    ensures IterOk(Remember(it, p, genid))
    ensures forall q, g, n :: Accepts(Remember(it, p, genid), q, g, n) == Accepts(it, q, g, n)
  {
    var it' := Remember(it, p, genid);
    forall q | q in it'.peers && it'.peers[q].status == StillToDump ensures Ahead(it', q) {
      assert Ahead(it, q);
      var j :| it.current < j < |it.order| && it.order[j].0 == q;
      assert it'.order[j].0 == q;
    }
  }

  /** The generation assertions hold, except that a peer first seen during the dump may show a
      newer generation than the one it was first seen with. */
  ghost predicate StrayGeneration(it: Iter, r: Route) {
    r.peer in it.peers && it.peers[r.peer].status == FirstSeenDuringDump && r.genid > it.peers[r.peer].genid
  }

  lemma GenerationIsExpected(w: World, r: Route)
    requires Inv(w) && (r.peer, r.genid) in w.alive
    ensures GenerationExpected(w.it, r.peer, r.genid) <==> !StrayGeneration(w.it, r)
  {
  }

  // ---- Route changes ------------------------------------------------------------------

  /** Asking about a change disturbs nothing but the memory of unknown peers. */
  lemma AskKeeps(w: World, net: Net, r: Route)
    requires Inv(w) && (r.peer, r.genid) in w.alive
    ensures var a := RouteChangeIsValid(w.it, r.peer, r.genid, net);
            && (a.Abort? <==> StrayGeneration(w.it, r))
            && (a.Next? ==> Inv(w.(it := a.value.0)) && a.value.1 == Accepted(a.value.0, net, r))
  {
    GenerationIsExpected(w, r);
    RememberKeeps(w.it, r.peer, r.genid);
  }

  lemma AddedKeeps(w: World, net: Net, r: Route)
    requires Inv(w) && Legal(w, RouteAdded(net, r))
    ensures var w' := w.(live := w.live[net := r]);
            if Accepted(w.it, net, r) then net !in w.view && Inv(w'.(view := w.view[net := r])) else Inv(w')
  {
  }

  lemma AddKeeps(w: World, net: Net, r: Route)
    requires Inv(w) && Legal(w, RouteAdded(net, r))
    ensures Step(w, RouteAdded(net, r)).Abort? <==> StrayGeneration(w.it, r)
    ensures Step(w, RouteAdded(net, r)).Next? ==> Inv(Step(w, RouteAdded(net, r)).value)
  {
    AskKeeps(w, net, r);
    var a := RouteChangeIsValid(w.it, r.peer, r.genid, net);
    if a.Next? { AddedKeeps(w.(it := a.value.0), net, r); }
  }

  lemma DeletedKeeps(w: World, net: Net)
    requires Inv(w) && net in w.live
    ensures var w' := w.(live := w.live - {net});
            if Accepted(w.it, net, w.live[net]) then net in w.view && Inv(w'.(view := w.view - {net})) else Inv(w')
  {
  }

  lemma DeleteKeeps(w: World, net: Net)
    requires Inv(w) && Legal(w, RouteDeleted(net))
    ensures Step(w, RouteDeleted(net)).Abort? <==> StrayGeneration(w.it, w.live[net])
    ensures Step(w, RouteDeleted(net)).Next? ==> Inv(Step(w, RouteDeleted(net)).value)
  {
    var r := w.live[net];
    AskKeeps(w, net, r);
    var a := RouteChangeIsValid(w.it, r.peer, r.genid, net);
    if a.Next? { DeletedKeeps(w.(it := a.value.0), net); }
  }

  /** The four cases of replace_route, once both routes have been asked about. */
  lemma ReplacedKeeps(w: World, net: Net, r: Route)
    requires Inv(w) && Legal(w, RouteReplaced(net, r))
    ensures var o := Replaced(w, w.it, net, r, Accepted(w.it, net, w.live[net]), Accepted(w.it, net, r));
            o.Next? && Inv(o.value)
  {
  }

  lemma AskBothKeeps(w: World, net: Net, o: Route, r: Route)
    requires Inv(w) && (o.peer, o.genid) in w.alive && (r.peer, r.genid) in w.alive
    ensures var a := AskBoth(w.it, net, o, r);
            && (a.Abort? <==> StrayGeneration(w.it, o) || StrayGeneration(Remember(w.it, o.peer, o.genid), r))
            && (a.Next? ==> Inv(w.(it := a.value.0))
                            && a.value.1 == Accepted(a.value.0, net, o) && a.value.2 == Accepted(a.value.0, net, r))
  {
    AskKeeps(w, net, o);
    RememberKeeps(w.it, o.peer, o.genid);
    var w1 := w.(it := Remember(w.it, o.peer, o.genid));
    assert Inv(w1);
    AskKeeps(w1, net, r);
    RememberKeeps(w1.it, r.peer, r.genid);
  }

  lemma ReplaceKeeps(w: World, net: Net, r: Route)
    requires Inv(w) && Legal(w, RouteReplaced(net, r))
    ensures var it1 := Remember(w.it, w.live[net].peer, w.live[net].genid);
            Step(w, RouteReplaced(net, r)).Abort? <==> StrayGeneration(w.it, w.live[net]) || StrayGeneration(it1, r)
    ensures Step(w, RouteReplaced(net, r)).Next? ==> Inv(Step(w, RouteReplaced(net, r)).value)
  {
    AskBothKeeps(w, net, w.live[net], r);
    var a := AskBoth(w.it, net, w.live[net], r);
    if a.Next? {
      var w1 := w.(it := a.value.0);
      ReplacedKeeps(w1, net, r);
      assert Replaced(w, w1.it, net, r, a.value.1, a.value.2) == Replaced(w1, w1.it, net, r, a.value.1, a.value.2);
    }
  }

  // ---- Dumping ------------------------------------------------------------------------

  /** Reaching the first undumped net passes exactly that net. */
  lemma DumpPasses(last: Net, dumped: bool, net: Net, m: Net)
    requires !(dumped && AtOrBefore(net, last))
    requires m != net && !(dumped && AtOrBefore(m, last)) ==> Precedes(net, m)
    ensures AtOrBefore(m, net) <==> m == net || (dumped && AtOrBefore(m, last))
  {
    PrecedesTotal(m, net);
    if dumped {
      PrecedesTotal(net, last);
      if m != last && Precedes(m, last) { PrecedesTransitive(m, last, net); }
    }
  }

  /** A dump step makes exactly the dumped route visible. */
  lemma DumpShows(w: World, net: Net, n: Net)
    requires Inv(w) && Legal(w, RouteDumped(net)) && n in w.live
    ensures var it := w.it.(routesDumped := true, lastDumped := net);
            Accepted(it, n, w.live[n]) <==> n == net || Accepted(w.it, n, w.live[n])
    ensures !Accepted(w.it, net, w.live[net])
  {
    var r := w.live[n];
    var p := CurrentPeer(w.it);
    if r.peer == p && r.genid == w.it.peers[p].genid {
      DumpPasses(w.it.lastDumped, w.it.routesDumped, net, n);
    }
  }

  lemma DumpKeeps(w: World, net: Net)
    requires Inv(w) && Legal(w, RouteDumped(net))
    ensures Step(w, RouteDumped(net)).Next? && Inv(Step(w, RouteDumped(net)).value)
  {
    var it := w.it.(routesDumped := true, lastDumped := net);
    DumpShows(w, net, net);
    forall n | n in w.live ensures Accepted(it, n, w.live[n]) <==> n == net || Accepted(w.it, n, w.live[n]) {
      DumpShows(w, net, n);
    }
    forall p | p in it.peers && it.peers[p].status == StillToDump ensures Ahead(it, p) {
      assert Ahead(w.it, p);
      var j :| w.it.current < j < |w.it.order| && w.it.order[j].0 == p;
      assert it.order[j].0 == p;
    }
  }

  // ---- Moving to the next peer --------------------------------------------------------

  /** NextPeer in terms of the peers it touches: the old current peer may become completely
      dumped and a peer still to be dumped may become current. */
  lemma NextPeerTouches(it: Iter, q: Peer)
    requires Dumping(it) && Listed(it) && q in it.peers
    ensures var it' := NextPeer(it);
            && it'.peers.Keys == it.peers.Keys && it'.order == it.order && it.current <= it'.current <= |it.order|
            && it'.peers[q].genid == it.peers[q].genid && it'.peers[q].lastNet == it.peers[q].lastNet
            && it'.peers[q].deleting == it.peers[q].deleting
            && (it'.peers[q].status == it.peers[q].status
                || (q == CurrentPeer(it) &&
                    it.peers[q].status == CurrentlyDumping && it'.peers[q].status == CompletelyDumped)
                || (it.peers[q].status == StillToDump && it'.peers[q].status == CurrentlyDumping
                    && Dumping(it') && CurrentPeer(it') == q))
  {
  }

  /** Whatever the current peer's fate, the iterator is in order after moving on. */
  lemma NextPeerOk(it: Iter)
    requires Dumping(it) && Listed(it)
    requires it.peers[CurrentPeer(it)].status != StillToDump
    requires forall p | p in it.peers && it.peers[p].status == CurrentlyDumping :: CurrentPeer(it) == p
    requires forall p | p in it.peers && it.peers[p].status == StillToDump :: Ahead(it, p)
    requires it.self in it.peers ==> it.peers[it.self].status !in {StillToDump, CurrentlyDumping}
    ensures IterOk(NextPeer(it)) && !NextPeer(it).routesDumped
  {
    var it' := NextPeer(it);
    if it.self in it.peers { NextPeerTouches(it, it.self); }
    forall q | q in it.peers ensures q in it'.peers { NextPeerTouches(it, q); }
    forall q | q in it'.peers && it'.peers[q].status == StillToDump ensures Ahead(it', q) {
      NextPeerTouches(it, q);
      assert Ahead(it, q);
      var j :| it.current < j < |it.order| && it.order[j].0 == q;
      assert it'.order[j].0 == q;
    }
    forall q | q in it'.peers && it'.peers[q].status == CurrentlyDumping ensures Dumping(it') && CurrentPeer(it') == q {
      NextPeerTouches(it, q);
    }
  }

  /** Acceptance of the live routes, and with it what the new peer should see, is unchanged. */
  ghost predicate SameAcceptance(w: World, it: Iter) {
    forall n | n in w.live :: Accepted(it, n, w.live[n]) == Accepted(w.it, n, w.live[n])
  }

  /** The generations a peer about to be dumped must have are as before. */
  ghost predicate SameDumpable(w: World, it: Iter) {
    forall p | p in it.peers && it.peers[p].status in {StillToDump, CurrentlyDumping} ::
      && p in w.it.peers && w.it.peers[p].status in {StillToDump, CurrentlyDumping}
      && it.peers[p].genid == w.it.peers[p].genid
  }

  lemma IterChangeKeeps(w: World, it: Iter)
    requires Inv(w) && IterOk(it) && SameAcceptance(w, it) && SameDumpable(w, it)
    ensures Inv(w.(it := it))
  {
  }

  /** Leaving a peer whose routes are all dumped hides and shows nothing. */
  lemma PeerDumpedKeeps(w: World)
    requires Inv(w) && Legal(w, PeerDumped)
    ensures Inv(Step(w, PeerDumped).value) && SameAcceptance(w, NextPeer(w.it))
  {
    NextPeerOk(w.it);
    forall n | n in w.live ensures Accepted(NextPeer(w.it), n, w.live[n]) == Accepted(w.it, n, w.live[n]) {
      var r := w.live[n];
      if r.peer in w.it.peers { NextPeerTouches(w.it, r.peer); }
      assert !Undumped(w, n);
    }
    NextPeerDumpable(w, w.it);
    IterChangeKeeps(w, NextPeer(w.it));
  }

  lemma NextPeerDumpable(w: World, it: Iter)
    requires Dumping(it) && Listed(it) && SameDumpable(w, it)
    ensures SameDumpable(w, NextPeer(it))
  {
    var it' := NextPeer(it);
    forall p | p in it'.peers && it'.peers[p].status in {StillToDump, CurrentlyDumping}
      ensures p in w.it.peers && w.it.peers[p].status in {StillToDump, CurrentlyDumping}
      ensures it'.peers[p].genid == w.it.peers[p].genid {
      NextPeerTouches(it, CurrentPeer(it));
      NextPeerTouches(it, p);
    }
  }

  // ---- Peerings -----------------------------------------------------------------------

  lemma StillAhead(it: Iter, peers: map<Peer, PeerState>)
    requires forall p | p in it.peers && it.peers[p].status == StillToDump :: Ahead(it, p)
    requires forall p | p in peers && peers[p].status == StillToDump ::
               p in it.peers && it.peers[p].status == StillToDump
    ensures forall p | p in peers && peers[p].status == StillToDump :: Ahead(it.(peers := peers), p)
  {
    forall p | p in peers && peers[p].status == StillToDump ensures Ahead(it.(peers := peers), p) {
      assert Ahead(it, p);
      var j :| it.current < j < |it.order| && it.order[j].0 == p;
      assert it.(peers := peers).order[j].0 == p;
    }
  }

  /** A peering that goes down before its dump is never shown in that generation. */
  lemma StillDownKeeps(w: World, p: Peer)
    requires Inv(w) && Legal(w, WentDown(p)) && p != w.it.self
    requires p in w.it.peers && w.it.peers[p].status == StillToDump
    ensures var it := PeeringWentDown(w.it, p, w.newest[p]).value;
            Inv(w.(it := it)) && SameAcceptance(w, it)
  {
    var it := PeeringWentDown(w.it, p, w.newest[p]).value;
    StillAhead(w.it, it.peers);
    forall n | n in w.live ensures Accepted(it, n, w.live[n]) == Accepted(w.it, n, w.live[n]) {
      assert (w.live[n].peer, w.live[n].genid) in w.alive;
    }
    IterChangeKeeps(w, it);
  }

  /** The iterator right after the peer being dumped went down, before it moves on. */
  function Stopped(it: Iter, p: Peer, genid: nat): Iter
    requires p in it.peers
  {
    var st := it.peers[p].(deleting := it.peers[p].deleting + {genid});
    it.(peers := it.peers[p := if it.routesDumped then st.(status := DownDuringDump, lastNet := it.lastDumped)
                               else st.(status := DownBeforeDump)])
  }

  /** A peering that goes down during its dump keeps what was dumped and shows no more. */
  lemma CurrentDownKeeps(w: World, p: Peer)
    requires Inv(w) && Legal(w, WentDown(p)) && p != w.it.self
    requires p in w.it.peers && w.it.peers[p].status == CurrentlyDumping
    ensures PeeringWentDown(w.it, p, w.newest[p]).Next?
    ensures var it := PeeringWentDown(w.it, p, w.newest[p]).value;
            Inv(w.(it := it)) && SameAcceptance(w, it)
  {
    var it1 := Stopped(w.it, p, w.newest[p]);
    var it := NextPeer(it1);
    assert PeeringWentDown(w.it, p, w.newest[p]) == Next(it);
    StillAhead(w.it, it1.peers);
    NextPeerOk(it1);
    forall n | n in w.live ensures Accepted(it, n, w.live[n]) == Accepted(w.it, n, w.live[n]) {
      CurrentDownAccepts(w, p, n);
    }
    assert SameDumpable(w, it1);
    NextPeerDumpable(w, it1);
    IterChangeKeeps(w, it);
  }

  lemma CurrentDownAccepts(w: World, p: Peer, n: Net)
    requires Inv(w) && Legal(w, WentDown(p)) && p != w.it.self
    requires p in w.it.peers && w.it.peers[p].status == CurrentlyDumping
    requires n in w.live && Listed(Stopped(w.it, p, w.newest[p]))
    ensures Accepted(NextPeer(Stopped(w.it, p, w.newest[p])), n, w.live[n]) == Accepted(w.it, n, w.live[n])
  {
    var r := w.live[n];
    assert (r.peer, r.genid) in w.alive;
    if r.peer in w.it.peers { NextPeerTouches(Stopped(w.it, p, w.newest[p]), r.peer); }
  }

  lemma WentDownKeeps(w: World, p: Peer)
    requires Inv(w) && Legal(w, WentDown(p)) && Step(w, WentDown(p)).Next?
    ensures Inv(Step(w, WentDown(p)).value) && SameAcceptance(w, Step(w, WentDown(p)).value.it)
  {
    if p != w.it.self {
      var it := PeeringWentDown(w.it, p, w.newest[p]).value;
      var st := w.it.peers[p];
      if st.status == StillToDump {
        StillDownKeeps(w, p);
      } else if st.status == CurrentlyDumping {
        CurrentDownKeeps(w, p);
      }
      DownIsRecorded(w, p);
    }
  }

  /** A peer that is no longer up is not waiting to be dumped. */
  lemma DownIsRecorded(w: World, p: Peer)
    requires Inv(w) && Legal(w, WentDown(p)) && Step(w, WentDown(p)).Next? && p != w.it.self
    ensures var it := Step(w, WentDown(p)).value.it;
            p in it.peers && it.peers[p].status !in {StillToDump, CurrentlyDumping}
  {
    if w.it.peers[p].status == CurrentlyDumping {
      NextPeerTouches(Stopped(w.it, p, w.newest[p]), p);
    }
  }

  lemma DownCompleteIter(w: World, p: Peer, g: nat)
    requires Inv(w) && PeeringDownComplete(w.it, p, g).Next?
    ensures var it := PeeringDownComplete(w.it, p, g).value;
            Inv(w.(it := it)) && SameAcceptance(w, it)
  {
    var it := PeeringDownComplete(w.it, p, g).value;
    StillAhead(w.it, it.peers);
    forall n | n in w.live ensures Accepted(it, n, w.live[n]) == Accepted(w.it, n, w.live[n]) {
      assert w.live[n].peer in it.peers <==> w.live[n].peer in w.it.peers;
    }
    assert SameDumpable(w, it) && IterOk(it);
    IterChangeKeeps(w, it);
  }

  lemma DownCompleteKeeps(w: World, p: Peer, g: nat)
    requires Inv(w) && Legal(w, DownComplete(p, g)) && Step(w, DownComplete(p, g)).Next?
    ensures Inv(Step(w, DownComplete(p, g)).value) && SameAcceptance(w, Step(w, DownComplete(p, g)).value.it)
  {
    if p != w.it.self { DownCompleteIter(w, p, g); }
  }

  /** A new generation has no routes yet, so recognising it shows nothing. */
  lemma CameUpIter(w: World, p: Peer, g: nat)
    requires Inv(w) && Legal(w, CameUp(p, g)) && PeeringCameUp(w.it, p, g).Next?
    ensures var it := PeeringCameUp(w.it, p, g).value;
            Inv(w.(it := it)) && SameAcceptance(w, it)
  {
    var it := PeeringCameUp(w.it, p, g).value;
    StillAhead(w.it, it.peers);
    forall n | n in w.live ensures Accepted(it, n, w.live[n]) == Accepted(w.it, n, w.live[n]) {
      assert (w.live[n].peer, w.live[n].genid) in w.alive;
    }
    IterChangeKeeps(w, it);
  }

  lemma CameUpKeeps(w: World, p: Peer, g: nat)
    requires Inv(w) && Legal(w, CameUp(p, g)) && Step(w, CameUp(p, g)).Next?
    ensures Inv(Step(w, CameUp(p, g)).value) && SameAcceptance(w, Step(w, CameUp(p, g)).value.it)
  {
    CameUpIter(w, p, g);
  }

  // ---- Steps and runs -----------------------------------------------------------------

  /** Every event keeps the new peer's view equal to the accepted live routes. */
  lemma StepKeepsInv(w: World, e: Event)
    requires Inv(w) && Legal(w, e) && Step(w, e).Next?
    ensures Inv(Step(w, e).value)
  {
    match e
    case RouteAdded(net, r) => AddKeeps(w, net, r);
    case RouteDeleted(net) => DeleteKeeps(w, net);
    case RouteReplaced(net, r) => ReplaceKeeps(w, net, r);
    case RouteDumped(net) => DumpKeeps(w, net);
    case PeerDumped => PeerDumpedKeeps(w);
    case WentDown(p) => WentDownKeeps(w, p);
    case DownComplete(p, g) => DownCompleteKeeps(w, p, g);
    case CameUp(p, g) => CameUpKeeps(w, p, g);
  }

  lemma RouteEventAcceptance(w: World, e: Event, n: Net)
    requires Inv(w) && Legal(w, e) && Step(w, e).Next? && n in w.live
    requires e.RouteAdded? || e.RouteDeleted? || e.RouteReplaced?
    ensures Accepted(Step(w, e).value.it, n, w.live[n]) == Accepted(w.it, n, w.live[n])
  {
    match e
    case RouteAdded(net, r) => RememberKeeps(w.it, r.peer, r.genid);
    case RouteDeleted(net) => RememberKeeps(w.it, w.live[net].peer, w.live[net].genid);
    case RouteReplaced(net, r) =>
      RememberKeeps(w.it, w.live[net].peer, w.live[net].genid);
      RememberKeeps(Remember(w.it, w.live[net].peer, w.live[net].genid), r.peer, r.genid);
  }

  lemma StepAcceptance(w: World, e: Event, n: Net)
    requires Inv(w) && Legal(w, e) && Step(w, e).Next? && n in w.live
    ensures Accepted(Step(w, e).value.it, n, w.live[n]) <==> Accepted(w.it, n, w.live[n]) || e == RouteDumped(n)
  {
    match e
    case RouteAdded(_, _) => RouteEventAcceptance(w, e, n);
    case RouteDeleted(_) => RouteEventAcceptance(w, e, n);
    case RouteReplaced(_, _) => RouteEventAcceptance(w, e, n);
    case RouteDumped(net) => DumpShows(w, net, n);
    case PeerDumped => PeerDumpedKeeps(w);
    case WentDown(p) => WentDownKeeps(w, p);
    case DownComplete(p, g) => DownCompleteKeeps(w, p, g);
    case CameUp(p, g) => CameUpKeeps(w, p, g);
  }

  /** Only a dump step changes the visibility of a route that stays live, and it changes it for
      the dumped route alone. */
  lemma StepVisibility(w: World, e: Event, n: Net)
    requires Inv(w) && Legal(w, e) && Step(w, e).Next?
    requires n in w.live && n in Step(w, e).value.live && Step(w, e).value.live[n] == w.live[n]
    ensures n in Step(w, e).value.view <==> n in w.view || e == RouteDumped(n)
  {
    StepKeepsInv(w, e);
    StepAcceptance(w, e, n);
  }
}
