/** The dump iterator with the fields the source updates in place. Every method is proved to take
    the step of the same name in DumpModel; `aborted` reports a failed assertion. */
module DumpIterator {
  import opened Wrappers
  import opened Nets
  import opened DumpModel

  class Iterator {
    const self: Peer
    var order: seq<(Peer, nat)>
    var current: nat
    var routesDumped: bool
    var lastDumped: Net
    var peers: map<Peer, PeerState>

    function View(): Iter
      reads this
    {
      Iter(self, order, current, routesDumped, lastDumped, peers)
    }

    /** Every peer in the dump order has a state. */
    ghost predicate Valid()
      reads this
    {
      Listed(View())
    }

    /** The dump order and the state of each listed peer, leaving out the new peer itself. */
    static method Listing(self: Peer, list: seq<(Peer, nat)>)
      returns (order: seq<(Peer, nat)>, peers: map<Peer, PeerState>)
      ensures order == Others(self, list) && peers == ListedStates(order)
    {
      order, peers := [], map[];
      var i := 0;
      while i < |list|
        invariant 0 <= i <= |list|
        invariant order == Others(self, list[..i]) && peers == ListedStates(order)
      {
        assert list[..i + 1][..i] == list[..i];
        if list[i].0 != self {
          order, peers := Append(order, peers, list[i]);
        }
        i := i + 1;
      }
      assert list[..|list|] == list;
    }

    static method Append(order: seq<(Peer, nat)>, peers: map<Peer, PeerState>, x: (Peer, nat))
      returns (order': seq<(Peer, nat)>, peers': map<Peer, PeerState>)
      requires peers == ListedStates(order)
      ensures order' == order + [x] && peers' == ListedStates(order')
    {
      order' := order + [x];
      assert order'[..|order|] == order;
      peers' := peers[x.0 := PeerState(StillToDump, x.1, [], {})];
    }

    constructor (self: Peer, list: seq<(Peer, nat)>)
      ensures Valid() && View() == Start(self, list)
    {
      var o, ps := Listing(self, list);
      if o != [] {
        assert o[0].0 in ps;
        ps := ps[o[0].0 := ps[o[0].0].(status := CurrentlyDumping)];
      }
      this.self := self;
      order, current, routesDumped, lastDumped, peers := o, 0, false, [], ps;
    }

    method RouteDump(p: Peer, genid: nat, net: Net) returns (aborted: bool)
      requires Valid() && Dumping(View())
      modifies this
      ensures Valid()
      ensures var o := DumpModel.RouteDump(old(View()), p, genid, net);
              aborted == o.Abort? && (o.Next? ==> View() == o.value)
    {
      if p != order[current].0 || genid != peers[p].genid {
        return true;
      }
      routesDumped := true;
      lastDumped := net;
      return false;
    }

    /** True while some peer is left to dump. */
    method NextPeer() returns (more: bool)
      requires Valid() && Dumping(View())
      modifies this
      ensures Valid() && View() == DumpModel.NextPeer(old(View()))
      ensures more == Dumping(View())
    {
      var p := order[current].0;
      if peers[p].status == CurrentlyDumping {
        peers := peers[p := peers[p].(status := CompletelyDumped)];
      }
      ghost var start := current;
      ghost var target := NextUndumped(order, peers, start);
      while current < |order| && peers[order[current].0].status != StillToDump
        invariant start <= current <= |order|
        invariant NextUndumped(order, peers, start) == NextUndumped(order, peers, current)
        modifies this`current
        decreases |order| - current
      {
        current := current + 1;
      }
      if current < |order| {
        var q := order[current].0;
        peers := peers[q := peers[q].(status := CurrentlyDumping)];
      }
      routesDumped := false;
      more := current < |order|;
    }

    method PeeringIsDown(p: Peer, genid: nat) returns (aborted: bool)
      requires Valid()
      modifies this
      ensures Valid()
      ensures var o := DumpModel.PeeringIsDown(old(View()), p, genid);
              aborted == o.Abort? && (o.Next? ==> View() == o.value)
    {
      if p == self {
        return true;
      }
      if p !in peers {
        peers := peers[p := PeerState(DownBeforeDump, genid, [], {genid})];
        return false;
      }
      var st := peers[p];
      match st.status {
        case StillToDump | CurrentlyDumping | DownBeforeDump =>
          peers := peers[p := st.(deleting := st.deleting + {genid})];
          return false;
        case _ =>
          return true;
      }
    }

    method PeeringWentDown(p: Peer, genid: nat) returns (aborted: bool)
      requires Valid()
      modifies this
      ensures Valid()
      ensures var o := DumpModel.PeeringWentDown(old(View()), p, genid);
              aborted == o.Abort? && (o.Next? ==> View() == o.value)
    {
      if p == self || p !in peers {
        return true;
      }
      var st := peers[p];
      match st.status {
        case StillToDump =>
          peers := peers[p := st.(status := DownBeforeDump, deleting := st.deleting + {genid})];
        case CurrentlyDumping =>
          if routesDumped {
            if genid != st.genid {
              return true;
            }
            peers := peers[p := st.(status := DownDuringDump, lastNet := lastDumped,
                                    deleting := st.deleting + {genid})];
          } else {
            peers := peers[p := st.(status := DownBeforeDump, deleting := st.deleting + {genid})];
          }
          if current >= |order| {
            return true;
          }
          var _ := NextPeer();
        case _ =>
      }
      return false;
    }

    method PeeringDownComplete(p: Peer, genid: nat) returns (aborted: bool)
      requires Valid()
      modifies this
      ensures Valid()
      ensures var o := DumpModel.PeeringDownComplete(old(View()), p, genid);
              aborted == o.Abort? && (o.Next? ==> View() == o.value)
    {
      if p == self || p !in peers {
        return true;
      }
      var st := peers[p];
      if genid in st.deleting {
        peers := peers[p := st.(deleting := st.deleting - {genid})];
        return false;
      }
      aborted := st.status == StillToDump || st.status == CurrentlyDumping;
    }

    method PeeringCameUp(p: Peer, genid: nat) returns (aborted: bool)
      requires Valid()
      modifies this
      ensures Valid()
      ensures var o := DumpModel.PeeringCameUp(old(View()), p, genid);
              aborted == o.Abort? && (o.Next? ==> View() == o.value)
    {
      if p == self {
        return true;
      }
      if p !in peers {
        peers := peers[p := PeerState(NewPeer, genid, [], {})];
        return false;
      }
      match peers[p].status {
        case StillToDump | CurrentlyDumping =>
          return true;
        case FirstSeenDuringDump =>
          peers := peers[p := PeerState(NewPeer, genid, [], {})];
          return false;
        case _ =>
          return false;
      }
    }

    method WaitingForDeletionCompletion() returns (wait: bool)
      ensures wait == Waiting(View())
    {
      var todo := peers.Keys;
      while todo != {}
        invariant todo <= peers.Keys
        invariant forall p | p in peers && p !in todo ::
                    peers[p].deleting == {} && peers[p].status != StillToDump && peers[p].status != CurrentlyDumping
        decreases |todo|
      {
        var p :| p in todo;
        if peers[p].deleting != {} || peers[p].status == StillToDump || peers[p].status == CurrentlyDumping {
          return true;
        }
        todo := todo - {p};
      }
      return false;
    }

    method RouteChangeIsValid(p: Peer, net: Net, genid: nat) returns (aborted: bool, valid: bool)
      requires Valid()
      modifies this
      ensures Valid()
      ensures var o := DumpModel.RouteChangeIsValid(old(View()), p, genid, net);
              aborted == o.Abort? && (o.Next? ==> (View(), valid) == o.value)
    {
      if p !in peers {
        peers := peers[p := PeerState(FirstSeenDuringDump, genid, [], {})];
        return false, false;
      }
      var st := peers[p];
      if genid < st.genid {
        return false, false;
      }
      match st.status {
        case StillToDump =>
          return genid != st.genid, false;
        case CurrentlyDumping =>
          return genid != st.genid, routesDumped && (net == lastDumped || Precedes(net, lastDumped));
        case DownDuringDump =>
          if genid == st.genid {
            return false, net == st.lastNet || Precedes(net, st.lastNet);
          }
          return false, true;
        case DownBeforeDump =>
          return false, genid != st.genid;
        case CompletelyDumped =>
          return false, true;
        case NewPeer =>
          return false, true;
        case FirstSeenDuringDump =>
          return genid != st.genid, false;
      }
    }
  }
}
