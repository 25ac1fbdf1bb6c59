/** The dump from start-up to completion. */
module DumpCompletion {
  import opened Wrappers
  import opened Nets
  import opened DumpModel
  import opened DumpSafety

  // ---- Start-up -----------------------------------------------------------------------

  /** DumpTable::peering_is_down: the table does not care about its own peer. */
  function ReportOne(it: Iter, p: Peer, genid: nat): Outcome<Iter> {
    if p == it.self then Next(it) else PeeringIsDown(it, p, genid)
  }

  /** The start-up reports of peerings whose old routes are still being deleted. */
  function Reported(it: Iter, reports: seq<(Peer, nat)>): Outcome<Iter> {
    if reports == [] then Next(it)
    else
      match Reported(it, reports[..|reports| - 1])
      case Abort => Abort
      case Next(it1) => ReportOne(it1, reports[|reports| - 1].0, reports[|reports| - 1].1)
  }

  /** The first generation reported for a peer. */
  function FirstReport(reports: seq<(Peer, nat)>, p: Peer): (r: Option<nat>)
    ensures r.Some? ==> (p, r.value) in reports
    ensures r.None? ==> forall g :: (p, g) !in reports
  {
    if reports == [] then None
    else
      var r := FirstReport(reports[..|reports| - 1], p);
      if r.Some? then r
      else if reports[|reports| - 1].0 == p then
        assert reports[|reports| - 1] == (p, reports[|reports| - 1].1);
        Some(reports[|reports| - 1].1)
      else
        assert forall x | x in reports :: x in reports[..|reports| - 1] || x == reports[|reports| - 1];
        None
  }

  /** What the reports leave behind: the listed peers are as at the start, and a peer that was
      only reported counts as down before the dump in the generation first reported. */
  ghost predicate AfterReports(it0: Iter, it: Iter, reports: seq<(Peer, nat)>) {
    && it == it0.(peers := it.peers)
    && (forall p :: p in it.peers <==> p in it0.peers || (p != it0.self && FirstReport(reports, p).Some?))
    && (forall p | p in it0.peers :: it.peers[p] == it0.peers[p].(deleting := it.peers[p].deleting))
    && (forall p | p in it.peers && p !in it0.peers ::
          it.peers[p] == PeerState(DownBeforeDump, FirstReport(reports, p).value, [], it.peers[p].deleting))
    && (forall p, g | p in it.peers && p != it0.self && (p, g) in reports :: g in it.peers[p].deleting)
  }

  ghost predicate Fresh(it: Iter) {
    forall p | p in it.peers :: it.peers[p].status in {StillToDump, CurrentlyDumping}
  }

  lemma {:induction false} ReportsLeave(it0: Iter, reports: seq<(Peer, nat)>)
    requires Fresh(it0)
    ensures Reported(it0, reports).Next? && AfterReports(it0, Reported(it0, reports).value, reports)
  {
    if reports != [] {
      var front, last := reports[..|reports| - 1], reports[|reports| - 1];
      ReportsLeave(it0, front);
      ReportLeaves(it0, Reported(it0, front).value, front, last);
      assert reports == front + [last];
      assert Reported(it0, reports) == ReportOne(Reported(it0, front).value, last.0, last.1);
    }
  }

  lemma ReportLeaves(it0: Iter, it: Iter, front: seq<(Peer, nat)>, last: (Peer, nat))
    requires Fresh(it0) && AfterReports(it0, it, front)
    ensures var o := ReportOne(it, last.0, last.1);
            o.Next? && AfterReports(it0, o.value, front + [last])
  {
    var reports := front + [last];
    assert reports[..|reports| - 1] == front;
    var it' := ReportOne(it, last.0, last.1).value;
    forall p, g | p in it'.peers && p != it0.self && (p, g) in reports ensures g in it'.peers[p].deleting {
      assert (p, g) == last || (p, g) in front;
    }
  }

  /** The world when the dump table is plumbed in: nothing has been told yet. */
  ghost function StartWorld(
    it: Iter, live: map<Net, Route>, newest: map<Peer, nat>, up: set<Peer>, alive: set<(Peer, nat)>): World
  {
    World(it, live, map[], newest, up, alive)
  }

  /** The listed peers are up, in the generation listed, and generations are tracked. */
  ghost predicate Startable(
    self: Peer, list: seq<(Peer, nat)>, reports: seq<(Peer, nat)>,
    live: map<Net, Route>, newest: map<Peer, nat>, up: set<Peer>, alive: set<(Peer, nat)>)
  {
    && (forall x | x in list && x.0 != self :: x.0 in up && x.0 in newest && newest[x.0] == x.1)
    && (forall x | x in reports && x.0 != self :: x.0 in newest && x.1 <= newest[x.0])
    && (forall a | a in alive :: a.0 in newest && a.1 <= newest[a.0])
    && (forall n | n in live :: (live[n].peer, live[n].genid) in alive)
  }

  lemma StartOk(self: Peer, list: seq<(Peer, nat)>)
    ensures IterOk(Start(self, list)) && Fresh(Start(self, list))
    ensures !Start(self, list).routesDumped && Start(self, list).self == self
  {
    var it := Start(self, list);
    forall p | p in it.peers && it.peers[p].status == StillToDump ensures Ahead(it, p) {
      assert p in ListedStates(it.order);
      var i :| 0 <= i < |it.order| && it.order[i].0 == p;
      assert i > 0;
    }
  }

  lemma StartLists(self: Peer, list: seq<(Peer, nat)>)
    ensures forall p | p in Start(self, list).peers :: (p, Start(self, list).peers[p].genid) in list && p != self
    ensures forall x | x in list && x.0 != self :: x.0 in Start(self, list).peers
  {
    var it := Start(self, list);
    forall p | p in it.peers ensures (p, it.peers[p].genid) in list && p != self {
      assert p in ListedStates(it.order);
      assert (p, it.peers[p].genid) in it.order;
    }
    forall x | x in list && x.0 != self ensures x.0 in it.peers { StartListsOne(self, list, x); }
  }

  lemma StartListsOne(self: Peer, list: seq<(Peer, nat)>, x: (Peer, nat))
    requires x in list && x.0 != self
    ensures x.0 in Start(self, list).peers
  {
    var order := Others(self, list);
    var i :| 0 <= i < |order| && order[i] == x;
    assert order[i].0 == x.0;
    assert x.0 in ListedStates(order);
  }

  lemma ReportsKeepIterOk(it0: Iter, it: Iter, reports: seq<(Peer, nat)>)
    requires IterOk(it0) && AfterReports(it0, it, reports)
    ensures IterOk(it)
  {
    assert forall p | p in it.peers && it.peers[p].status == StillToDump ::
             p in it0.peers && it0.peers[p].status == StillToDump;
    StillAhead(it0, it.peers);
  }

  /** A peer that was only reported, with a live route newer than its first report. */
  ghost predicate ReportedTooOld(
    self: Peer, list: seq<(Peer, nat)>, reports: seq<(Peer, nat)>, live: map<Net, Route>, n: Net)
    requires n in live
  {
    var p := live[n].peer;
    && p != self && (forall g :: (p, g) !in list)
    && FirstReport(reports, p).Some? && live[n].genid > FirstReport(reports, p).value
  }

  /** The dump starts consistent exactly when no peer that is down was first reported in a
      generation older than one of its live routes. DumpSweep shows that
      the reports made at start-up are of that kind. */
  lemma StartsConsistent(
    self: Peer, list: seq<(Peer, nat)>, reports: seq<(Peer, nat)>,
    live: map<Net, Route>, newest: map<Peer, nat>, up: set<Peer>, alive: set<(Peer, nat)>)
    requires Startable(self, list, reports, live, newest, up, alive)
    ensures Reported(Start(self, list), reports).Next?
    ensures Inv(StartWorld(Reported(Start(self, list), reports).value, live, newest, up, alive)) <==>
            forall n | n in live :: !ReportedTooOld(self, list, reports, live, n)
  {
    var it0 := Start(self, list);
    StartOk(self, list);
    StartLists(self, list);
    ReportsLeave(it0, reports);
    var it := Reported(it0, reports).value;
    ReportsKeepIterOk(it0, it, reports);
    var w := StartWorld(it, live, newest, up, alive);
    assert GenerationsOk(w) by {
      forall p | p in it.peers && it.peers[p].status in {StillToDump, CurrentlyDumping}
        ensures p in up && p in newest && newest[p] == it.peers[p].genid {
        assert p in it0.peers && (p, it0.peers[p].genid) in list;
      }
    }
    forall n | n in live ensures Accepted(it, n, live[n]) <==> ReportedTooOld(self, list, reports, live, n) {
      var p := live[n].peer;
      if p in it0.peers {
        assert (p, it0.peers[p].genid) in list;
      } else if p in it.peers && p != self {
        assert forall g :: (p, g) !in list;
      }
    }
  }

  // ---- Completion ---------------------------------------------------------------------

  /** Why a generation of a peer known since start-up may still be hidden, or need not be. */
  ghost predicate Accounted(it: Iter, p: Peer, g: nat) {
    p in it.peers && var st := it.peers[p];
    || (g > st.genid && st.status in {DownDuringDump, DownBeforeDump, CompletelyDumped})
    || g in st.deleting
    || (g == st.genid && st.status in {StillToDump, CurrentlyDumping, CompletelyDumped})
  }

  ghost predicate AllAccounted(w: World, known: set<Peer>) {
    && (forall p | p in known ::
          && p in w.it.peers && w.it.peers[p].status !in {NewPeer, FirstSeenDuringDump}
          && p in w.newest && w.it.peers[p].genid <= w.newest[p])
    && (forall a | a in w.alive && a.0 in known :: Accounted(w.it, a.0, a.1))
  }

  /** The peers listed or reported when the dump starts. */
  ghost function KnownAtStart(it: Iter): set<Peer> {
    it.peers.Keys
  }

  /** Every generation alive at start-up is the listed one of its peer or was reported. */
  ghost predicate AllReported(
    list: seq<(Peer, nat)>, reports: seq<(Peer, nat)>, known: set<Peer>, alive: set<(Peer, nat)>)
  {
    forall a | a in alive && a.0 in known :: a in list || a in reports
  }

  lemma StartAccounted(
    self: Peer, list: seq<(Peer, nat)>, reports: seq<(Peer, nat)>,
    live: map<Net, Route>, newest: map<Peer, nat>, up: set<Peer>, alive: set<(Peer, nat)>)
    requires Startable(self, list, reports, live, newest, up, alive)
    requires Reported(Start(self, list), reports).Next?
    requires AllReported(list, reports, KnownAtStart(Reported(Start(self, list), reports).value), alive)
    ensures var it := Reported(Start(self, list), reports).value;
            AllAccounted(StartWorld(it, live, newest, up, alive), KnownAtStart(it))
  {
    var it0 := Start(self, list);
    StartOk(self, list);
    StartLists(self, list);
    ReportsLeave(it0, reports);
    var it := Reported(it0, reports).value;
    forall a | a in alive && a.0 in KnownAtStart(it) ensures Accounted(it, a.0, a.1) {
      if a in reports {
        assert (a.0, a.1) in reports;
      } else {
        assert a in list && a.0 != self;
        assert a.0 in it0.peers && (a.0, it0.peers[a.0].genid) in list;
      }
    }
  }

  // Accounting is kept by every step.

  lemma NextPeerAccounts(it: Iter, p: Peer, g: nat)
    requires Dumping(it) && Listed(it) && Accounted(it, p, g)
    ensures Accounted(NextPeer(it), p, g)
  {
    NextPeerTouches(it, p);
  }

  lemma WentDownAccounts(w: World, p: Peer, q: Peer, g: nat)
    requires Inv(w) && Legal(w, WentDown(p)) && Step(w, WentDown(p)).Next? && Accounted(w.it, q, g)
    ensures Accounted(Step(w, WentDown(p)).value.it, q, g)
  {
    if p != w.it.self && w.it.peers[p].status == CurrentlyDumping {
      var it1 := Stopped(w.it, p, w.newest[p]);
      assert PeeringWentDown(w.it, p, w.newest[p]) == Next(NextPeer(it1));
      assert Accounted(it1, q, g);
      NextPeerAccounts(it1, q, g);
    }
  }

  lemma StepAccounts(w: World, e: Event, q: Peer, g: nat)
    requires Inv(w) && Legal(w, e) && Step(w, e).Next? && Accounted(w.it, q, g)
    requires w.it.peers[q].status !in {NewPeer, FirstSeenDuringDump} && e != DownComplete(q, g)
    ensures Accounted(Step(w, e).value.it, q, g)
  {
    match e
    case PeerDumped => NextPeerAccounts(w.it, q, g);
    case WentDown(p) => WentDownAccounts(w, p, q, g);
    case _ =>
  }

  ghost predicate Known(it: Iter, p: Peer, g: nat) {
    p in it.peers && it.peers[p].status !in {NewPeer, FirstSeenDuringDump} && it.peers[p].genid == g
  }

  lemma WentDownKeepsKnown(w: World, q: Peer, p: Peer)
    requires Inv(w) && Legal(w, WentDown(q)) && Step(w, WentDown(q)).Next?
    requires p in w.it.peers && Known(w.it, p, w.it.peers[p].genid)
    ensures Known(Step(w, WentDown(q)).value.it, p, w.it.peers[p].genid)
  {
    if q in w.it.peers && w.it.peers[q].status == CurrentlyDumping {
      NextPeerTouches(Stopped(w.it, q, w.newest[q]), p);
    }
  }

  lemma RememberKeepsKnown(it: Iter, q: Peer, genid: nat, p: Peer, g: nat)
    requires Known(it, p, g)
    ensures Known(Remember(it, q, genid), p, g)
  {
  }

  lemma ReplaceKeepsKnown(w: World, net: Net, r: Route, p: Peer)
    requires Inv(w) && Legal(w, RouteReplaced(net, r)) && Step(w, RouteReplaced(net, r)).Next?
    requires p in w.it.peers && Known(w.it, p, w.it.peers[p].genid)
    ensures Known(Step(w, RouteReplaced(net, r)).value.it, p, w.it.peers[p].genid)
  {
    var o := w.live[net];
    RememberKeepsKnown(w.it, o.peer, o.genid, p, w.it.peers[p].genid);
    RememberKeepsKnown(Remember(w.it, o.peer, o.genid), r.peer, r.genid, p, w.it.peers[p].genid);
  }

  lemma OthersKeepKnown(w: World, e: Event, p: Peer)
    requires Inv(w) && Legal(w, e) && Step(w, e).Next? && !e.PeerDumped? && !e.WentDown? && !e.RouteReplaced?
    requires p in w.it.peers && Known(w.it, p, w.it.peers[p].genid)
    ensures Known(Step(w, e).value.it, p, w.it.peers[p].genid)
  {
  }

  lemma StepKeepsKnown(w: World, e: Event, p: Peer)
    requires Inv(w) && Legal(w, e) && Step(w, e).Next?
    requires p in w.it.peers && w.it.peers[p].status !in {NewPeer, FirstSeenDuringDump}
    ensures var it := Step(w, e).value.it;
            && p in it.peers && it.peers[p].status !in {NewPeer, FirstSeenDuringDump}
            && it.peers[p].genid == w.it.peers[p].genid
  {
    if e.PeerDumped? {
      NextPeerTouches(w.it, p);
    } else if e.WentDown? {
      WentDownKeepsKnown(w, e.peer, p);
    } else if e.RouteReplaced? {
      ReplaceKeepsKnown(w, e.net, e.route, p);
    } else {
      OthersKeepKnown(w, e, p);
    }
  }

  /** A peering that comes back starts a generation newer than anything recorded for it. */
  lemma CameUpAccounts(w: World, p: Peer, g: nat)
    requires Inv(w) && Legal(w, CameUp(p, g)) && Step(w, CameUp(p, g)).Next?
    requires p in w.it.peers && w.it.peers[p].status !in {NewPeer, FirstSeenDuringDump}
    requires w.it.peers[p].genid < g
    ensures Accounted(Step(w, CameUp(p, g)).value.it, p, g)
  {
  }

  /** Generations appear when a peering comes up and vanish when its deletion is complete. */
  lemma StepGenerations(w: World, e: Event)
    requires Inv(w) && Legal(w, e) && Step(w, e).Next?
    ensures var w' := Step(w, e).value;
            && (forall a | a in w'.alive :: (a in w.alive && e != DownComplete(a.0, a.1)) || e == CameUp(a.0, a.1))
            && (forall p | p in w.newest :: p in w'.newest && w.newest[p] <= w'.newest[p])
  {
  }

  lemma StepKeepsAccounts(w: World, e: Event, known: set<Peer>)
    requires Inv(w) && AllAccounted(w, known) && Legal(w, e) && Step(w, e).Next?
    ensures AllAccounted(Step(w, e).value, known)
  {
    var w' := Step(w, e).value;
    StepGenerations(w, e);
    forall p | p in known
      ensures p in w'.it.peers && w'.it.peers[p].status !in {NewPeer, FirstSeenDuringDump}
      ensures w'.it.peers[p].genid == w.it.peers[p].genid {
      StepKeepsKnown(w, e, p);
    }
    forall a | a in w'.alive && a.0 in known ensures Accounted(w'.it, a.0, a.1) {
      if e == CameUp(a.0, a.1) {
        CameUpAccounts(w, a.0, a.1);
      } else {
        StepAccounts(w, e, a.0, a.1);
      }
    }
  }

  // ---- Runs ---------------------------------------------------------------------------

  ghost predicate Runs(w: World, es: seq<Event>)
    decreases |es|
  {
    es == [] || (Listed(w.it) && Legal(w, es[0]) && Step(w, es[0]).Next? && Runs(Step(w, es[0]).value, es[1..]))
  }

  ghost function Final(w: World, es: seq<Event>): World
    requires Runs(w, es)
    decreases |es|
  {
    if es == [] then w else Final(Step(w, es[0]).value, es[1..])
  }

  lemma {:induction false} RunKeepsInv(w: World, es: seq<Event>)
    requires Inv(w) && Runs(w, es)
    ensures Inv(Final(w, es))
    decreases |es|
  {
    if es != [] {
      StepKeepsInv(w, es[0]);
      RunKeepsInv(Step(w, es[0]).value, es[1..]);
    }
  }

  lemma {:induction false} RunKeepsAccounts(w: World, es: seq<Event>, known: set<Peer>)
    requires Inv(w) && AllAccounted(w, known) && Runs(w, es)
    ensures AllAccounted(Final(w, es), known)
    decreases |es|
  {
    if es != [] {
      StepKeepsInv(w, es[0]);
      StepKeepsAccounts(w, es[0], known);
      RunKeepsAccounts(Step(w, es[0]).value, es[1..], known);
    }
  }

  /** Dump consistency: in every run from start-up the new peer has been told exactly the live
      routes that the iterator accepts. */
  lemma DumpIsConsistent(
    self: Peer, list: seq<(Peer, nat)>, reports: seq<(Peer, nat)>,
    live: map<Net, Route>, newest: map<Peer, nat>, up: set<Peer>, alive: set<(Peer, nat)>, es: seq<Event>)
    requires Startable(self, list, reports, live, newest, up, alive)
    requires forall n | n in live :: !ReportedTooOld(self, list, reports, live, n)
    requires Reported(Start(self, list), reports).Next?
    requires Runs(StartWorld(Reported(Start(self, list), reports).value, live, newest, up, alive), es)
    ensures var w := Final(StartWorld(Reported(Start(self, list), reports).value, live, newest, up, alive), es);
            w.view == map n | n in w.live && Accepted(w.it, n, w.live[n]) :: w.live[n]
  {
    StartsConsistent(self, list, reports, live, newest, up, alive);
    RunKeepsInv(StartWorld(Reported(Start(self, list), reports).value, live, newest, up, alive), es);
  }

  /** Once the iterator no longer waits, every generation still alive of a known peer is shown. */
  lemma NotWaitingShows(w: World, known: set<Peer>, n: Net)
    requires Inv(w) && AllAccounted(w, known) && !Waiting(w.it)
    requires n in w.live && w.live[n].peer in known
    ensures n in w.view && w.view[n] == w.live[n]
  {
    var r := w.live[n];
    assert (r.peer, r.genid) in w.alive;
    assert Accounted(w.it, r.peer, r.genid);
  }

  /** Dump completion: when the iterator stops waiting, no live route of a peer listed or reported
      at start-up is hidden from the new peer. */
  lemma DumpCompletes(
    self: Peer, list: seq<(Peer, nat)>, reports: seq<(Peer, nat)>,
    live: map<Net, Route>, newest: map<Peer, nat>, up: set<Peer>, alive: set<(Peer, nat)>, es: seq<Event>, n: Net)
    requires Startable(self, list, reports, live, newest, up, alive)
    requires forall m | m in live :: !ReportedTooOld(self, list, reports, live, m)
    requires Reported(Start(self, list), reports).Next?
    requires AllReported(list, reports, KnownAtStart(Reported(Start(self, list), reports).value), alive)
    requires Runs(StartWorld(Reported(Start(self, list), reports).value, live, newest, up, alive), es)
    requires var w := Final(StartWorld(Reported(Start(self, list), reports).value, live, newest, up, alive), es);
             && !Waiting(w.it) && n in w.live
             && w.live[n].peer in KnownAtStart(Reported(Start(self, list), reports).value)
    ensures var w := Final(StartWorld(Reported(Start(self, list), reports).value, live, newest, up, alive), es);
            n in w.view && w.view[n] == w.live[n]
  {
    var it := Reported(Start(self, list), reports).value;
    var w0 := StartWorld(it, live, newest, up, alive);
    StartsConsistent(self, list, reports, live, newest, up, alive);
    StartAccounted(self, list, reports, live, newest, up, alive);
    RunKeepsInv(w0, es);
    RunKeepsAccounts(w0, es, KnownAtStart(it));
    NotWaitingShows(Final(w0, es), KnownAtStart(it), n);
  }
}
