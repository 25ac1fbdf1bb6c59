/** The dump table: it asks the iterator about every route that passes, and passes on what the new
    peer is to be told. Each method takes the step of its event, so what holds of runs holds here. */
module DumpTable {
  import opened Wrappers
  import opened Nets
  import opened DumpModel
  import opened DumpSafety
  import opened DumpCompletion
  import DumpIterator

  class DumpTable {
    const iter: DumpIterator.Iterator
    /** The routes, peerings and the new peer around the table. */
    ghost var world: World

    ghost predicate Valid()
      reads this, iter
    {
      iter.View() == world.it && Inv(world)
    }

    /** What the new peer holds once it has been told. */
    static function Told(view: map<Net, Route>, m: Option<Message>): Option<map<Net, Route>> {
      if m.None? then Some(view) else Deliver(view, m.value)
    }

    ghost predicate Took(was: World, e: Event, aborted: bool, m: Option<Message>)
      requires Inv(was) && Legal(was, e)
      reads this, iter
    {
      && aborted == Step(was, e).Abort?
      && (!aborted ==> Valid() && world == Step(was, e).value && Told(was.view, m) == Some(world.view))
    }

    /** Plumbed in: the peers to dump are listed, and the deletion tables that are found reported. */
    constructor (self: Peer, list: seq<(Peer, nat)>, reports: seq<(Peer, nat)>,
      ghost live: map<Net, Route>, ghost newest: map<Peer, nat>, ghost up: set<Peer>, ghost alive: set<(Peer, nat)>)
      requires Startable(self, list, reports, live, newest, up, alive)
      requires forall n | n in live :: !ReportedTooOld(self, list, reports, live, n)
      ensures Valid() && fresh(iter)
      ensures Reported(Start(self, list), reports).Next?
      ensures world == StartWorld(Reported(Start(self, list), reports).value, live, newest, up, alive)
    {
      iter := new DumpIterator.Iterator(self, list);
      new;
      StartsConsistent(self, list, reports, live, newest, up, alive);
      StartOk(self, list);
      ReportAll(iter, reports);
      world := StartWorld(iter.View(), live, newest, up, alive);
    }

    /** The sweep over the deletion tables. */
    static method ReportAll(iter: DumpIterator.Iterator, reports: seq<(Peer, nat)>)
      requires iter.Valid() && Fresh(iter.View())
      modifies iter
      ensures Reported(old(iter.View()), reports) == Next(iter.View())
    {
      ghost var it0 := iter.View();
      var i := 0;
      assert reports[..0] == [];
      while i < |reports|
        invariant i <= |reports| && iter.Valid() && Reported(it0, reports[..i]) == Next(iter.View())
      {
        assert reports[..i + 1][..i] == reports[..i];
        ReportsLeave(it0, reports[..i + 1]);
        if reports[i].0 != iter.self { var _ := iter.PeeringIsDown(reports[i].0, reports[i].1); }
        i := i + 1;
      }
      assert reports[..i] == reports;
    }

    method AddRoute(net: Net, r: Route) returns (aborted: bool, m: Option<Message>)
      requires Valid() && Legal(world, RouteAdded(net, r))
      modifies this, iter
      ensures Took(old(world), RouteAdded(net, r), aborted, m)
    {
      AddKeeps(world, net, r);
      var valid;
      aborted, valid := iter.RouteChangeIsValid(r.peer, net, r.genid);
      m := if valid then Some(Add(net, r)) else None;
      if !aborted { world := Step(world, RouteAdded(net, r)).value; }
    }

    method DeleteRoute(net: Net, r: Route) returns (aborted: bool, m: Option<Message>)
      requires Valid() && Legal(world, RouteDeleted(net)) && r == world.live[net]
      modifies this, iter
      ensures Took(old(world), RouteDeleted(net), aborted, m)
    {
      DeleteKeeps(world, net);
      var valid;
      aborted, valid := iter.RouteChangeIsValid(r.peer, net, r.genid);
      m := if valid then Some(Delete(net)) else None;
      if !aborted { world := Step(world, RouteDeleted(net)).value; }
    }

    /** A replacement may reach the new peer as an addition or a deletion. */
    method ReplaceRoute(net: Net, o: Route, r: Route) returns (aborted: bool, m: Option<Message>)
      requires Valid() && Legal(world, RouteReplaced(net, r)) && o == world.live[net]
      modifies this, iter
      ensures Took(old(world), RouteReplaced(net, r), aborted, m)
    {
      ReplaceKeeps(world, net, r);
      m := None;
      var oldValid, newValid;
      aborted, oldValid := iter.RouteChangeIsValid(o.peer, net, o.genid);
      if aborted { return; }
      aborted, newValid := iter.RouteChangeIsValid(r.peer, net, r.genid);
      if aborted { return; }
      if newValid {
        m := Some(if oldValid then Replace(net, r) else Add(net, r));
      } else if oldValid {
        m := Some(Delete(net));
      }
      world := Step(world, RouteReplaced(net, r)).value;
    }

    /** The next route of the peer being dumped. */
    method DumpRoute(net: Net, r: Route) returns (aborted: bool, m: Option<Message>)
      requires Valid() && Legal(world, RouteDumped(net)) && r == world.live[net]
      modifies this, iter
      ensures Took(old(world), RouteDumped(net), aborted, m) && !aborted && m == Some(Add(net, r))
    {
      DumpKeeps(world, net);
      aborted := iter.RouteDump(r.peer, r.genid, net);
      m := Some(Add(net, r));
      world := Step(world, RouteDumped(net)).value;
    }

    /** No route of the current peer is left to dump. */
    method PeerDumped() returns (more: bool)
      requires Valid() && Legal(world, Event.PeerDumped)
      modifies this, iter
      ensures Took(old(world), Event.PeerDumped, false, None) && more == Dumping(world.it)
    {
      PeerDumpedKeeps(world);
      more := iter.NextPeer();
      world := Step(world, Event.PeerDumped).value;
    }

    method PeeringWentDown(p: Peer, genid: nat) returns (aborted: bool)
      requires Valid() && Legal(world, WentDown(p)) && genid == world.newest[p]
      modifies this, iter
      ensures Took(old(world), WentDown(p), aborted, None)
    {
      if Step(world, WentDown(p)).Next? { StepKeepsInv(world, WentDown(p)); }
      aborted := false;
      if p != iter.self { aborted := iter.PeeringWentDown(p, genid); }
      if !aborted { world := Step(world, WentDown(p)).value; }
    }

    method PeeringDownComplete(p: Peer, genid: nat) returns (aborted: bool)
      requires Valid() && Legal(world, DownComplete(p, genid))
      modifies this, iter
      ensures Took(old(world), DownComplete(p, genid), aborted, None)
    {
      if Step(world, DownComplete(p, genid)).Next? { StepKeepsInv(world, DownComplete(p, genid)); }
      aborted := false;
      if p != iter.self { aborted := iter.PeeringDownComplete(p, genid); }
      if !aborted { world := Step(world, DownComplete(p, genid)).value; }
    }

    method PeeringCameUp(p: Peer, genid: nat) returns (aborted: bool)
      requires Valid() && Legal(world, CameUp(p, genid))
      modifies this, iter
      ensures Took(old(world), CameUp(p, genid), aborted, None)
    {
      if Step(world, CameUp(p, genid)).Next? { StepKeepsInv(world, CameUp(p, genid)); }
      aborted := iter.PeeringCameUp(p, genid);
      if !aborted { world := Step(world, CameUp(p, genid)).value; }
    }
  }
}
