/** The dump iterator: which route changes a new peer hears while the tables of all other peers
    are dumped to it in the background and peerings go down and come up. */
module DumpModel {
  import opened Wrappers
  import opened Nets

  type Peer = nat

  datatype Status =
    StillToDump | CurrentlyDumping | DownDuringDump | DownBeforeDump | CompletelyDumped | NewPeer | FirstSeenDuringDump

  /** PeerDumpState: what is known about one peer. `deleting` are the generations whose routes
      are still being deleted in the background. */
  datatype PeerState = PeerState(status: Status, genid: nat, lastNet: Net, deleting: set<nat>)

  datatype Iter = Iter(
    self: Peer, order: seq<(Peer, nat)>, current: nat, routesDumped: bool, lastDumped: Net, peers: map<Peer, PeerState>)

  /** is_valid(): some peer is still being dumped. */
  predicate Dumping(it: Iter) {
    it.current < |it.order|
  }

  /** Net order up to and including the given net. */
  predicate AtOrBefore(x: Net, y: Net) {
    x == y || Precedes(x, y)
  }

  // ---- Construction -------------------------------------------------------------------

  function Others(self: Peer, list: seq<(Peer, nat)>): (r: seq<(Peer, nat)>)
    ensures forall p | p in r :: p in list && p.0 != self
    ensures forall p | p in list && p.0 != self :: p in r
  {
    if list == [] then [] else
      var front := Others(self, list[..|list| - 1]);
      if list[|list| - 1].0 == self then front else front + [list[|list| - 1]]
  }

  /** One state per listed peer; the last listing of a peer wins. */
  function ListedStates(order: seq<(Peer, nat)>): (m: map<Peer, PeerState>)
    ensures forall p :: p in m <==> exists i :: 0 <= i < |order| && order[i].0 == p
    ensures forall p | p in m :: m[p].status == StillToDump && m[p].deleting == {} && (p, m[p].genid) in order
  {
    if order == [] then map[] else
      var (p, g) := order[|order| - 1];
      var m := ListedStates(order[..|order| - 1]);
      assert order[|order| - 1].0 == p;
      m[p := PeerState(StillToDump, g, [], {})]
  }

  function Start(self: Peer, list: seq<(Peer, nat)>): Iter {
    var order := Others(self, list);
    var peers := ListedStates(order);
    if order == [] then Iter(self, order, 0, false, [], peers)
    else
      assert order[0].0 in peers;
      Iter(self, order, 0, false, [], peers[order[0].0 := peers[order[0].0].(status := CurrentlyDumping)])
  }

  /** Start-up report of a peering whose routes are still being deleted. */
  function PeeringIsDown(it: Iter, p: Peer, genid: nat): Outcome<Iter> {
    if p == it.self then Abort
    else if p !in it.peers then
      Next(it.(peers := it.peers[p := PeerState(DownBeforeDump, genid, [], {genid})]))
    else
      var st := it.peers[p];
      match st.status
      case StillToDump | CurrentlyDumping | DownBeforeDump =>
        Next(it.(peers := it.peers[p := st.(deleting := st.deleting + {genid})]))
      case _ => Abort
  }

  // ---- Dumping ------------------------------------------------------------------------

  /** The first position from i on whose peer is still to be dumped, or the end. */
  function NextUndumped(order: seq<(Peer, nat)>, peers: map<Peer, PeerState>, i: nat): (k: nat)
    requires i <= |order| && forall j | 0 <= j < |order| :: order[j].0 in peers
    ensures i <= k <= |order|
    ensures k < |order| ==> peers[order[k].0].status == StillToDump
    ensures forall j | i <= j < k :: peers[order[j].0].status != StillToDump
    decreases |order| - i
  {
    if i == |order| || peers[order[i].0].status == StillToDump then i
    else NextUndumped(order, peers, i + 1)
  }

  ghost predicate Listed(it: Iter) {
    forall j | 0 <= j < |it.order| :: it.order[j].0 in it.peers
  }

  /** Finish with the current peer and move to the next one still to be dumped. */
  function NextPeer(it: Iter): Iter
    requires Dumping(it) && Listed(it)
  {
    var p := it.order[it.current].0;
    var peers := if it.peers[p].status == CurrentlyDumping
                 then it.peers[p := it.peers[p].(status := CompletelyDumped)] else it.peers;
    var k := NextUndumped(it.order, peers, it.current);
    if k == |it.order| then it.(peers := peers, current := k, routesDumped := false)
    else
      var q := it.order[k].0;
      it.(peers := peers[q := peers[q].(status := CurrentlyDumping)], current := k, routesDumped := false)
  }

  function RouteDump(it: Iter, p: Peer, genid: nat, net: Net): Outcome<Iter>
    requires Dumping(it)
  {
    if p != it.order[it.current].0 || p !in it.peers || genid != it.peers[p].genid then Abort
    else Next(it.(routesDumped := true, lastDumped := net))
  }

  // ---- Peerings going down and coming up ----------------------------------------------

  function PeeringWentDown(it: Iter, p: Peer, genid: nat): Outcome<Iter>
    requires Listed(it)
  {
    if p == it.self || p !in it.peers then Abort
    else
      var st := it.peers[p];
      var down := st.(status := DownBeforeDump, deleting := st.deleting + {genid});
      match st.status
      case StillToDump => Next(it.(peers := it.peers[p := down]))
      case CurrentlyDumping =>
        if it.routesDumped && genid != st.genid then Abort
        else
          var st' := if it.routesDumped then down.(status := DownDuringDump, lastNet := it.lastDumped) else down;
          var it' := it.(peers := it.peers[p := st']);
          if Dumping(it') then Next(NextPeer(it')) else Abort
      case _ => Next(it)
  }

  function PeeringDownComplete(it: Iter, p: Peer, genid: nat): Outcome<Iter> {
    if p == it.self || p !in it.peers then Abort
    else
      var st := it.peers[p];
      if genid in st.deleting then Next(it.(peers := it.peers[p := st.(deleting := st.deleting - {genid})]))
      else if st.status == StillToDump || st.status == CurrentlyDumping then Abort
      else Next(it)
  }

  function PeeringCameUp(it: Iter, p: Peer, genid: nat): Outcome<Iter> {
    if p == it.self then Abort
    else if p !in it.peers || it.peers[p].status == FirstSeenDuringDump then
      Next(it.(peers := it.peers[p := PeerState(NewPeer, genid, [], {})]))
    else if it.peers[p].status == StillToDump || it.peers[p].status == CurrentlyDumping then Abort
    else Next(it)
  }

  /** waiting_for_deletion_completion(). */
  predicate Waiting(it: Iter) {
    exists p | p in it.peers ::
      it.peers[p].deleting != {} || it.peers[p].status == StillToDump || it.peers[p].status == CurrentlyDumping
  }

  // ---- Which changes are passed on ----------------------------------------------------

  /** The pure form of route_change_is_valid: whether a change to a route of this peer and
      generation for this net belongs to what the new peer has been told. */
  predicate Accepts(it: Iter, p: Peer, genid: nat, net: Net) {
    p in it.peers && genid >= it.peers[p].genid &&
    var st := it.peers[p];
    match st.status
    case StillToDump => false
    case CurrentlyDumping => genid == st.genid && it.routesDumped && AtOrBefore(net, it.lastDumped)
    case DownDuringDump => genid > st.genid || AtOrBefore(net, st.lastNet)
    case DownBeforeDump => genid > st.genid
    case CompletelyDumped => true
    case NewPeer => true
    case FirstSeenDuringDump => false
  }

  /** A peer never heard of is remembered. */
  function Remember(it: Iter, p: Peer, genid: nat): Iter {
    if p in it.peers then it
    else it.(peers := it.peers[p := PeerState(FirstSeenDuringDump, genid, [], {})])
  }

  /** The assertions of route_change_is_valid on the generation. */
  predicate GenerationExpected(it: Iter, p: Peer, genid: nat) {
    p in it.peers && genid > it.peers[p].genid ==>
      it.peers[p].status !in {StillToDump, CurrentlyDumping, FirstSeenDuringDump}
  }

  function RouteChangeIsValid(it: Iter, p: Peer, genid: nat, net: Net): Outcome<(Iter, bool)> {
    if !GenerationExpected(it, p, genid) then Abort
    else Next((Remember(it, p, genid), Accepts(it, p, genid, net)))
  }
}
