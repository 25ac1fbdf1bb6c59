/** The deletion tables found behind the rib-ins when a dump starts: reporting them in turn starts the
    dump consistent, and reporting them in another order need not. */
module DumpSweep {
  import opened Wrappers
  import opened Nets
  import opened DumpModel
  import opened DumpSafety
  import opened DumpCompletion

  // ---- Deletion tables behind a rib-in ------------------------------------------------

  /** A rib-in, whether its peering is up, its generation, and those of the deletion tables plumbed
      in behind it, nearest first. */
  datatype RibIn = RibIn(peer: Peer, up: bool, genid: nat, tables: seq<nat>)

  /** The peering goes down, with or without routes to delete, or comes up; or the deletion table at
      a position has finished and is taken out. */
  datatype RibEvent = WentDown(routes: bool) | CameUp | Finished(at: nat)

  predicate Possible(r: RibIn, e: RibEvent) {
    match e
    case WentDown(_) => r.up
    case CameUp => !r.up
    case Finished(i) => i < |r.tables|
  }

  function After(r: RibIn, e: RibEvent): RibIn
    requires Possible(r, e)
  {
    match e
    case WentDown(routes) => r.(up := false, tables := if routes then [r.genid] + r.tables else r.tables)
    case CameUp => r.(up := true, genid := r.genid + 1)
    case Finished(i) => r.(tables := r.tables[..i] + r.tables[i + 1..])
  }

  predicate PossibleAll(r: RibIn, es: seq<RibEvent>)
    decreases |es|
  {
    es == [] || (Possible(r, es[0]) && PossibleAll(After(r, es[0]), es[1..]))
  }

  function AfterAll(r: RibIn, es: seq<RibEvent>): RibIn
    requires PossibleAll(r, es)
    decreases |es|
  {
    if es == [] then r else AfterAll(After(r, es[0]), es[1..])
  }

  predicate Descending(gs: seq<nat>) {
    forall i, j | 0 <= i < j < |gs| :: gs[i] > gs[j]
  }

  /** Newest first, and none newer than the rib-in. */
  ghost predicate Nested(r: RibIn) {
    && Descending(r.tables)
    && forall i | 0 <= i < |r.tables| :: r.tables[i] <= r.genid && (r.up ==> r.tables[i] < r.genid)
  }

  lemma StepKeepsNested(r: RibIn, e: RibEvent)
    requires Nested(r) && Possible(r, e)
    ensures Nested(After(r, e)) && After(r, e).peer == r.peer
  {
    var ts := After(r, e).tables;
    match e
    case WentDown(routes) =>
      if routes {
        forall i, j | 0 <= i < j < |ts| ensures ts[i] > ts[j] {
          assert ts[j] == r.tables[j - 1];
          if i > 0 { assert ts[i] == r.tables[i - 1]; }
        }
      }
    case CameUp =>
    case Finished(k) =>
      forall i, j | 0 <= i < j < |ts| ensures ts[i] > ts[j] {
        assert ts[i] == r.tables[if i < k then i else i + 1];
        assert ts[j] == r.tables[if j < k then j else j + 1];
      }
  }

  /** However often a peering goes down and up, its deletion tables are nested newest first. */
  lemma {:induction false} RunKeepsNested(r: RibIn, es: seq<RibEvent>)
    requires Nested(r) && PossibleAll(r, es)
    ensures Nested(AfterAll(r, es)) && AfterAll(r, es).peer == r.peer
    decreases |es|
  {
    if es != [] {
      StepKeepsNested(r, es[0]);
      RunKeepsNested(After(r, es[0]), es[1..]);
    }
  }

  // ---- The sweep ----------------------------------------------------------------------

  function Tagged(p: Peer, gs: seq<nat>): (xs: seq<(Peer, nat)>)
    ensures |xs| == |gs| && forall i | 0 <= i < |gs| :: xs[i] == (p, gs[i])
  {
    seq(|gs|, i requires 0 <= i < |gs| => (p, gs[i]))
  }

  /** The reports of one sweep over the rib-ins. */
  function Sweep(ribs: seq<RibIn>): seq<(Peer, nat)> {
    if ribs == [] then [] else Tagged(ribs[0].peer, ribs[0].tables) + Sweep(ribs[1..])
  }

  ghost predicate OnePerPeer(ribs: seq<RibIn>) {
    forall i, j | 0 <= i < j < |ribs| :: ribs[i].peer != ribs[j].peer
  }

  ghost predicate NewestFirst(reports: seq<(Peer, nat)>) {
    forall i, j | 0 <= i < j < |reports| && reports[i].0 == reports[j].0 :: reports[i].1 >= reports[j].1
  }

  lemma {:induction false} SweepIsFrom(ribs: seq<RibIn>, x: (Peer, nat))
    ensures x in Sweep(ribs) <==> exists r :: r in ribs && r.peer == x.0 && x.1 in r.tables
  {
    if ribs != [] {
      var r0 := ribs[0];
      var front := Tagged(r0.peer, r0.tables);
      SweepIsFrom(ribs[1..], x);
      if x in front {
        var i :| 0 <= i < |front| && front[i] == x;
        assert r0.tables[i] == x.1;
        assert r0 in ribs && r0.peer == x.0 && x.1 in r0.tables;
      }
      if r0.peer == x.0 && x.1 in r0.tables {
        var i :| 0 <= i < |r0.tables| && r0.tables[i] == x.1;
        assert front[i] == x;
      }
      assert ribs == [r0] + ribs[1..];
    }
  }

  lemma {:induction false} SweepIsNewestFirst(ribs: seq<RibIn>)
    requires OnePerPeer(ribs) && forall r | r in ribs :: Nested(r)
    ensures NewestFirst(Sweep(ribs))
  {
    if ribs != [] {
      var front, rest := Tagged(ribs[0].peer, ribs[0].tables), Sweep(ribs[1..]);
      assert forall r | r in ribs[1..] :: r in ribs;
      SweepIsNewestFirst(ribs[1..]);
      assert Nested(ribs[0]);
      var all: seq<(Peer, nat)> := front + rest;
      forall i, j | 0 <= i < j < |all| && all[i].0 == all[j].0 ensures all[i].1 >= all[j].1 {
        if i < |front| <= j {
          assert rest[j - |front|] in rest;
          OtherPeers(ribs, rest[j - |front|]);
        }
      }
    }
  }

  lemma OtherPeers(ribs: seq<RibIn>, x: (Peer, nat))
    requires ribs != [] && OnePerPeer(ribs) && x in Sweep(ribs[1..])
    ensures x.0 != ribs[0].peer
  {
    SweepIsFrom(ribs[1..], x);
    var r :| r in ribs[1..] && r.peer == x.0 && x.1 in r.tables;
    var i :| 0 <= i < |ribs[1..]| && ribs[1..][i] == r;
    assert ribs[i + 1] == r;
  }

  /** Of the generations reported for a peer, the first is the newest. */
  lemma {:induction false} FirstIsNewest(reports: seq<(Peer, nat)>, p: Peer, g: nat)
    requires NewestFirst(reports) && (p, g) in reports
    ensures FirstReport(reports, p).Some? && FirstReport(reports, p).value >= g
  {
    var front, last := reports[..|reports| - 1], reports[|reports| - 1];
    assert reports == front + [last];
    if (p, g) in front {
      assert NewestFirst(front);
      FirstIsNewest(front, p, g);
    } else if FirstReport(front, p).Some? {
      var i :| 0 <= i < |front| && front[i] == (p, FirstReport(front, p).value);
      assert reports[i].1 >= reports[|front|].1;
    }
  }

  // ---- Start-up -----------------------------------------------------------------------

  /** Every route is held by the rib-in of its peer or by a deletion table behind it. */
  ghost predicate Held(ribs: seq<RibIn>, live: map<Net, Route>) {
    forall n | n in live :: exists r :: r in ribs && HeldBy(r, live[n])
  }

  ghost predicate HeldBy(r: RibIn, route: Route) {
    r.peer == route.peer && (route.genid in r.tables || (r.up && route.genid == r.genid))
  }

  ghost predicate ListsAllUp(self: Peer, list: seq<(Peer, nat)>, ribs: seq<RibIn>) {
    forall r | r in ribs && r.up && r.peer != self :: (r.peer, r.genid) in list
  }

  lemma NotTooOld(self: Peer, list: seq<(Peer, nat)>, ribs: seq<RibIn>, live: map<Net, Route>, n: Net)
    requires OnePerPeer(ribs) && (forall r | r in ribs :: Nested(r)) && ListsAllUp(self, list, ribs)
    requires n in live && exists r :: r in ribs && HeldBy(r, live[n])
    ensures !ReportedTooOld(self, list, Sweep(ribs), live, n)
  {
    var p, g := live[n].peer, live[n].genid;
    var r :| r in ribs && HeldBy(r, live[n]);
    if p != self && (forall h :: (p, h) !in list) && FirstReport(Sweep(ribs), p).Some? {
      assert (p, FirstReport(Sweep(ribs), p).value) in Sweep(ribs);
      assert (p, r.genid) !in list;
      SweepIsFrom(ribs, (p, g));
      SweepIsNewestFirst(ribs);
      FirstIsNewest(Sweep(ribs), p, g);
    }
  }

  /** A dump whose start-up reports come from the sweep starts consistent, whatever went on before. */
  lemma SweepStartsConsistent(
    self: Peer, list: seq<(Peer, nat)>, ribs: seq<RibIn>,
    live: map<Net, Route>, newest: map<Peer, nat>, up: set<Peer>, alive: set<(Peer, nat)>)
    requires Startable(self, list, Sweep(ribs), live, newest, up, alive)
    requires OnePerPeer(ribs) && (forall r | r in ribs :: Nested(r)) && ListsAllUp(self, list, ribs) && Held(ribs, live)
    ensures Reported(Start(self, list), Sweep(ribs)).Next?
    ensures Inv(StartWorld(Reported(Start(self, list), Sweep(ribs)).value, live, newest, up, alive))
  {
    StartsConsistent(self, list, Sweep(ribs), live, newest, up, alive);
    forall n | n in live ensures !ReportedTooOld(self, list, Sweep(ribs), live, n) {
      NotTooOld(self, list, ribs, live, n);
    }
  }

  /** The generations alive are those that the rib-ins and their deletion tables hold. */
  ghost predicate AliveHeld(ribs: seq<RibIn>, alive: set<(Peer, nat)>) {
    forall a | a in alive :: exists r :: r in ribs && r.peer == a.0 && (a.1 in r.tables || (r.up && a.1 == r.genid))
  }

  /** The sweep leaves no generation out. */
  lemma SweepReportsAll(
    self: Peer, list: seq<(Peer, nat)>, ribs: seq<RibIn>, known: set<Peer>, alive: set<(Peer, nat)>)
    requires ListsAllUp(self, list, ribs) && AliveHeld(ribs, alive) && self !in known
    ensures AllReported(list, Sweep(ribs), known, alive)
  {
    forall a | a in alive && a.0 in known ensures a in list || a in Sweep(ribs) {
      var r :| r in ribs && r.peer == a.0 && (a.1 in r.tables || (r.up && a.1 == r.genid));
      if a.1 in r.tables { SweepIsFrom(ribs, a); }
    }
  }

  /** So a dump that starts with the sweep completes: when the iterator stops waiting, no live route of a
      peer listed or reported at start-up is hidden from the new peer. */
  lemma SweptDumpCompletes(
    self: Peer, list: seq<(Peer, nat)>, ribs: seq<RibIn>,
    live: map<Net, Route>, newest: map<Peer, nat>, up: set<Peer>, alive: set<(Peer, nat)>, es: seq<Event>, n: Net)
    requires Startable(self, list, Sweep(ribs), live, newest, up, alive)
    requires OnePerPeer(ribs) && (forall r | r in ribs :: Nested(r)) && ListsAllUp(self, list, ribs)
    requires Held(ribs, live) && AliveHeld(ribs, alive)
    requires Reported(Start(self, list), Sweep(ribs)).Next?
    requires Runs(StartWorld(Reported(Start(self, list), Sweep(ribs)).value, live, newest, up, alive), es)
    requires var w := Final(StartWorld(Reported(Start(self, list), Sweep(ribs)).value, live, newest, up, alive), es);
             && !Waiting(w.it) && n in w.live
             && w.live[n].peer in KnownAtStart(Reported(Start(self, list), Sweep(ribs)).value)
    ensures var w := Final(StartWorld(Reported(Start(self, list), Sweep(ribs)).value, live, newest, up, alive), es);
            n in w.view && w.view[n] == w.live[n]
  {
    var it := Reported(Start(self, list), Sweep(ribs)).value;
    forall m | m in live ensures !ReportedTooOld(self, list, Sweep(ribs), live, m) {
      NotTooOld(self, list, ribs, live, m);
    }
    SelfIsUnknown(self, list, Sweep(ribs));
    SweepReportsAll(self, list, ribs, KnownAtStart(it), alive);
    DumpCompletes(self, list, Sweep(ribs), live, newest, up, alive, es, n);
  }

  lemma SelfIsUnknown(self: Peer, list: seq<(Peer, nat)>, reports: seq<(Peer, nat)>)
    requires Reported(Start(self, list), reports).Next?
    ensures self !in KnownAtStart(Reported(Start(self, list), reports).value)
  {
    StartOk(self, list);
    StartLists(self, list);
    ReportsLeave(Start(self, list), reports);
  }

  // ---- The other order ----------------------------------------------------------------

  const ROUTE: Route := Route(7, 2, 0)

  /** The same two deletion tables of one peer, reported oldest first: the dump believes that the
      route of the newer generation has been told. */
  lemma OldestFirstWitness()
    ensures Nested(RibIn(7, false, 2, [2, 1])) && HeldBy(RibIn(7, false, 2, [2, 1]), ROUTE)
    ensures Startable(1, [], [(7, 1), (7, 2)], map[[true] := ROUTE], map[7 := 2], {}, {(7, 1), (7, 2)})
    ensures Reported(Start(1, []), [(7, 1), (7, 2)]).Next?
    ensures !Inv(StartWorld(Reported(Start(1, []), [(7, 1), (7, 2)]).value, map[[true] := ROUTE], map[7 := 2], {},
                            {(7, 1), (7, 2)}))
  {
    var reports: seq<(Peer, nat)> := [(7, 1), (7, 2)];
    var live: map<Net, Route> := map[[true] := ROUTE];
    StartsConsistent(1, [], reports, live, map[7 := 2], {}, {(7, 1), (7, 2)});
    assert reports[..1] == [(7, 1)];
    assert FirstReport(reports[..1], 7) == Some(1);
    assert FirstReport(reports, 7) == Some(1);
    assert [true] in live && ReportedTooOld(1, [], reports, live, [true]);
  }
}
