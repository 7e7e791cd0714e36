/** What the epidemic guarantees, proved about `Covid.Day`, `Covid.Days` and `Covid.Simulation`. */
module CovidProperties {
  import opened Wrappers
  import opened Graphs
  import opened Counting
  import opened Covid

  /** Edge `i` of the scan over `ws` from `start` infects its target: the guard of line 89
      holds and the draw it consumes succeeds. */
  predicate EdgeHit(st: seq<State>, sheltered: set<nat>, draws: nat -> bool, ws: seq<nat>, start: Scan, i: nat)
    requires Below(ws, |st|) && i < |ws|
  {
    Exposed(st, sheltered, ws[i]) && draws(EdgeScan(st, sheltered, draws, ws, i, start).used)
  }

  /** On the day that starts from `st` with `used` draws made, the infected node `u`
      infects its `j`-th successor. */
  predicate Transmits(g: Graph, st: seq<State>, sheltered: set<nat>, draws: nat -> bool, used: nat, u: nat, j: nat)
    requires g.Valid() && |st| == |g.nodes| && u < |g.nodes| && j < |g.succ[u]|
  {
    st[u] == Infected && EdgeHit(st, sheltered, draws, g.succ[u], NodeScan(g, st, sheltered, draws, u, Scan(map[], used)), j)
  }

  /** Some infected node among the first `k` infects `w` that day. */
  predicate InfectedBy(g: Graph, st: seq<State>, sheltered: set<nat>, draws: nat -> bool, used: nat, k: nat, w: nat)
    requires g.Valid() && |st| == |g.nodes| && k <= |g.nodes|
  {
    exists u, j :: 0 <= u < k && 0 <= j < |g.succ[u]| && g.succ[u][j] == w && Transmits(g, st, sheltered, draws, used, u, j)
  }

  /** One of the first `k` edges of the scan over `ws` from `start` hits `w`. */
  predicate HitWithin(st: seq<State>, sheltered: set<nat>, draws: nat -> bool, ws: seq<nat>, start: Scan, k: nat, w: nat)
    requires Below(ws, |st|) && k <= |ws|
  {
    exists i :: 0 <= i < k && ws[i] == w && EdgeHit(st, sheltered, draws, ws, start, i)
  }

  /** What the scan of lines 88-91 adds to `new_states`: exactly the targets of the edges that hit. */
  lemma {:induction false} EdgeScanEffect(st: seq<State>, sheltered: set<nat>, draws: nat -> bool, ws: seq<nat>, k: nat, start: Scan)
    requires Below(ws, |st|) && k <= |ws|
    ensures var r := EdgeScan(st, sheltered, draws, ws, k, start);
      forall w :: w in r.updates <==> (w in start.updates || HitWithin(st, sheltered, draws, ws, start, k, w))
    ensures var r := EdgeScan(st, sheltered, draws, ws, k, start);
      forall w :: w in r.updates ==>
        r.updates[w] == if HitWithin(st, sheltered, draws, ws, start, k, w) then Infected else start.updates[w]
  {
    if k > 0 {
      EdgeScanEffect(st, sheltered, draws, ws, k - 1, start);
      forall w
        ensures HitWithin(st, sheltered, draws, ws, start, k, w)
            <==> HitWithin(st, sheltered, draws, ws, start, k - 1, w) || (ws[k - 1] == w && EdgeHit(st, sheltered, draws, ws, start, k - 1))
      {
        if HitWithin(st, sheltered, draws, ws, start, k, w) {
          var i :| 0 <= i < k && ws[i] == w && EdgeHit(st, sheltered, draws, ws, start, i);
          if i < k - 1 {
            assert HitWithin(st, sheltered, draws, ws, start, k - 1, w);
          }
        }
      }
    }
  }

  /** Taking node `u` into the scan adds to the infections exactly the hits of its edges. */
  lemma InfectedByStep(g: Graph, st: seq<State>, sheltered: set<nat>, draws: nat -> bool, used: nat, u: nat, w: nat)
    requires g.Valid() && |st| == |g.nodes| && u < |g.nodes|
    ensures InfectedBy(g, st, sheltered, draws, used, u + 1, w) <==>
      || InfectedBy(g, st, sheltered, draws, used, u, w)
      || (st[u] == Infected &&
          HitWithin(st, sheltered, draws, g.succ[u], NodeScan(g, st, sheltered, draws, u, Scan(map[], used)), |g.succ[u]|, w))
  {
    var ws, acc := g.succ[u], NodeScan(g, st, sheltered, draws, u, Scan(map[], used));
    if InfectedBy(g, st, sheltered, draws, used, u + 1, w) {
      var u', j :| 0 <= u' < u + 1 && 0 <= j < |g.succ[u']| && g.succ[u'][j] == w && Transmits(g, st, sheltered, draws, used, u', j);
      if u' < u {
        assert InfectedBy(g, st, sheltered, draws, used, u, w);
      } else {
        assert HitWithin(st, sheltered, draws, ws, acc, |ws|, w);
      }
    }
    if st[u] == Infected && HitWithin(st, sheltered, draws, ws, acc, |ws|, w) {
      var i :| 0 <= i < |ws| && ws[i] == w && EdgeHit(st, sheltered, draws, ws, acc, i);
      assert Transmits(g, st, sheltered, draws, used, u, i);
    }
    if InfectedBy(g, st, sheltered, draws, used, u, w) {
      var u', j :| 0 <= u' < u && 0 <= j < |g.succ[u']| && g.succ[u'][j] == w && Transmits(g, st, sheltered, draws, used, u', j);
      assert InfectedBy(g, st, sheltered, draws, used, u + 1, w);
    }
  }

  /** How many of the first `k` successors `ws` pass the guard of line 89. */
  function ExposedCount(st: seq<State>, sheltered: set<nat>, ws: seq<nat>, k: nat): (c: nat)
    requires Below(ws, |st|) && k <= |ws|
    ensures c <= k
  {
    if k == 0 then 0
    else ExposedCount(st, sheltered, ws, k - 1) + (if Exposed(st, sheltered, ws[k - 1]) then 1 else 0)
  }

  /** The guarded edges out of the infected nodes among the first `k`. */
  function GuardedEdges(g: Graph, st: seq<State>, sheltered: set<nat>, k: nat): nat
    requires g.Valid() && |st| == |g.nodes| && k <= |g.nodes|
  {
    if k == 0 then 0
    else GuardedEdges(g, st, sheltered, k - 1)
         + (if st[k - 1] == Infected then ExposedCount(st, sheltered, g.succ[k - 1], |g.succ[k - 1]|) else 0)
  }

  /** The successor loop of lines 88-91 makes exactly one draw per successor whose guard holds:
      the short-circuit `and` skips the draw for the others. */
  lemma {:induction false} EdgeScanUsed(st: seq<State>, sheltered: set<nat>, draws: nat -> bool, ws: seq<nat>, k: nat, start: Scan)
    requires Below(ws, |st|) && k <= |ws|
    ensures EdgeScan(st, sheltered, draws, ws, k, start).used == start.used + ExposedCount(st, sheltered, ws, k)
  {
    if k > 0 {
      EdgeScanUsed(st, sheltered, draws, ws, k - 1, start);
    }
  }

  /** The node loop of lines 85-92 makes one draw per guarded edge out of an infected node. */
  lemma {:induction false} NodeScanUsed(g: Graph, st: seq<State>, sheltered: set<nat>, draws: nat -> bool, k: nat, start: Scan)
    requires g.Valid() && |st| == |g.nodes| && k <= |g.nodes|
    ensures NodeScan(g, st, sheltered, draws, k, start).used == start.used + GuardedEdges(g, st, sheltered, k)
  {
    if k > 0 {
      NodeScanUsed(g, st, sheltered, draws, k - 1, start);
      if st[k - 1] == Infected {
        var acc := NodeScan(g, st, sheltered, draws, k - 1, start);
        EdgeScanUsed(st, sheltered, draws, g.succ[k - 1], |g.succ[k - 1]|, acc);
      }
    }
  }

  /** A day uses as many draws as there are guarded edges out of its infected nodes. */
  lemma DayUsed(g: Graph, st: seq<State>, sheltered: set<nat>, draws: nat -> bool, used: nat)
    requires g.Valid() && |st| == |g.nodes|
    ensures Day(g, st, sheltered, draws, used).used == used + GuardedEdges(g, st, sheltered, |g.nodes|)
  {
    NodeScanUsed(g, st, sheltered, draws, |g.nodes|, Scan(map[], used));
  }

  /** What the scan of lines 85-92 over the first `k` nodes has put in `new_states` for `w`:
      an entry exactly when `w` is one of those nodes and infected, or one of them infects it;
      Recovered for the infected node itself, Infected otherwise. */
  predicate ScanMarks(g: Graph, st: seq<State>, sheltered: set<nat>, draws: nat -> bool, used: nat, k: nat, w: nat)
    requires g.Valid() && |st| == |g.nodes| && k <= |g.nodes| && w < |st|
  {
    var r := NodeScan(g, st, sheltered, draws, k, Scan(map[], used));
    && (w in r.updates <==> (st[w] == Infected && w < k) || InfectedBy(g, st, sheltered, draws, used, k, w))
    && (w in r.updates ==> r.updates[w] == if st[w] == Infected then Recovered else Infected)
  }

  /** Taking node `u` into the scan keeps `ScanMarks` for every `w`. */
  lemma NodeScanStep(g: Graph, st: seq<State>, sheltered: set<nat>, draws: nat -> bool, used: nat, u: nat, w: nat)
    requires g.Valid() && |st| == |g.nodes| && u < |g.nodes| && w < |st|
    requires ScanMarks(g, st, sheltered, draws, used, u, w)
    ensures ScanMarks(g, st, sheltered, draws, used, u + 1, w)
  {
    var acc := NodeScan(g, st, sheltered, draws, u, Scan(map[], used));
    if st[u] == Infected {
      EdgeScanEffect(st, sheltered, draws, g.succ[u], |g.succ[u]|, acc);
    }
    InfectedByStep(g, st, sheltered, draws, used, u, w);
  }

  /** The whole scan of lines 85-92 over the first `k` nodes: every infected node among them is
      marked recovered, and every other node is marked infected exactly when one of them
      infects it. */
  lemma {:induction false} NodeScanEffect(g: Graph, st: seq<State>, sheltered: set<nat>, draws: nat -> bool, used: nat, k: nat)
    requires g.Valid() && |st| == |g.nodes| && k <= |g.nodes|
    ensures forall w :: 0 <= w < |st| ==> ScanMarks(g, st, sheltered, draws, used, k, w)
  {
    if k > 0 {
      NodeScanEffect(g, st, sheltered, draws, used, k - 1);
      forall w | 0 <= w < |st| ensures ScanMarks(g, st, sheltered, draws, used, k, w) {
        NodeScanStep(g, st, sheltered, draws, used, k - 1, w);
      }
    }
  }

  /** One day, node by node: an infected node recovers, a node that some infected node infects
      becomes infected, and every other node keeps its state. */
  lemma DayEffect(g: Graph, st: seq<State>, sheltered: set<nat>, draws: nat -> bool, used: nat, w: nat)
    requires g.Valid() && |st| == |g.nodes| && w < |g.nodes|
    ensures Day(g, st, sheltered, draws, used).states[w] ==
      if st[w] == Infected then Recovered
      else if InfectedBy(g, st, sheltered, draws, used, |g.nodes|, w) then Infected
      else st[w]
  {
    NodeScanEffect(g, st, sheltered, draws, used, |g.nodes|);
    assert ScanMarks(g, st, sheltered, draws, used, |g.nodes|, w);
  }

  /** The one-way transitions of a day (lines 83-95): I becomes R, R and V never change, S
      becomes I or stays S, and a node becomes I exactly when it was S, is not sheltered, and
      the draw for an edge from an infected predecessor succeeded. */
  lemma DayTransitions(g: Graph, st: seq<State>, sheltered: set<nat>, draws: nat -> bool, used: nat, w: nat)
    requires g.Valid() && |st| == |g.nodes| && w < |g.nodes|
    ensures var next := Day(g, st, sheltered, draws, used).states;
      && (st[w] == Infected ==> next[w] == Recovered)
      && (st[w] == Recovered ==> next[w] == Recovered)
      && (st[w] == Vaccinated ==> next[w] == Vaccinated)
      && (st[w] == Susceptible ==> next[w] == Susceptible || next[w] == Infected)
      && (next[w] == Infected <==> st[w] == Susceptible && w !in sheltered && InfectedBy(g, st, sheltered, draws, used, |g.nodes|, w))
      && (next[w] == Infected ==> exists u :: u in g.pred[w] && st[u] == Infected)
  {
    DayEffect(g, st, sheltered, draws, used, w);
    var next := Day(g, st, sheltered, draws, used).states;
    if InfectedBy(g, st, sheltered, draws, used, |g.nodes|, w) {
      var u, j :| 0 <= u < |g.nodes| && 0 <= j < |g.succ[u]| && g.succ[u][j] == w && Transmits(g, st, sheltered, draws, used, u, j);
      assert w in g.succ[u];
      assert u in g.pred[w];
    }
  }

  /** Transmission never infects a sheltered node (line 89). */
  lemma ShelteredNotInfectedByDay(g: Graph, st: seq<State>, sheltered: set<nat>, draws: nat -> bool, used: nat, w: nat)
    requires g.Valid() && |st| == |g.nodes| && w < |g.nodes| && w in sheltered
    ensures Day(g, st, sheltered, draws, used).states[w] != Infected
  {
    DayTransitions(g, st, sheltered, draws, used, w);
  }

  /** The number of susceptible nodes never grows from one day to the next. */
  lemma SusceptibleNonIncreasing(g: Graph, st: seq<State>, sheltered: set<nat>, draws: nat -> bool, used: nat)
    requires g.Valid() && |st| == |g.nodes|
    ensures Count(Day(g, st, sheltered, draws, used).states, Susceptible) <= Count(st, Susceptible)
  {
    var next := Day(g, st, sheltered, draws, used).states;
    forall w | 0 <= w < |next| && next[w] == Susceptible ensures st[w] == Susceptible {
      DayTransitions(g, st, sheltered, draws, used, w);
    }
    CountPointwise(st, next, Susceptible);
  }

  /** The four counters of `counts` always add up to the number of nodes. */
  lemma {:induction false} CountsCoverAllNodes(st: seq<State>)
    ensures Count(st, Susceptible) + Count(st, Infected) + Count(st, Recovered) + Count(st, Vaccinated) == |st|
  {
    if st != [] {
      var init := st[..|st| - 1];
      CountsCoverAllNodes(init);
      assert Count(st, Susceptible) == Count(init, Susceptible) + (if st[|st| - 1] == Susceptible then 1 else 0);
      assert Count(st, Infected) == Count(init, Infected) + (if st[|st| - 1] == Infected then 1 else 0);
      assert Count(st, Recovered) == Count(init, Recovered) + (if st[|st| - 1] == Recovered then 1 else 0);
      assert Count(st, Vaccinated) == Count(init, Vaccinated) + (if st[|st| - 1] == Vaccinated then 1 else 0);
    }
  }

  /** `history` has one entry per day, and entry `d` is the number of nodes infected at the
      start of day `d`, so it never exceeds the number of nodes. */
  lemma {:induction false} HistoryCountsInfected(g: Graph, st0: seq<State>, sheltered: set<nat>, draws: nat -> bool, t: nat, d: nat)
    requires g.Valid() && |st0| == |g.nodes| && d < t
    ensures |Days(g, st0, sheltered, draws, t).history| == t
    ensures Days(g, st0, sheltered, draws, t).history[d] == Count(Days(g, st0, sheltered, draws, d).states, Infected)
    ensures Days(g, st0, sheltered, draws, t).history[d] <= |g.nodes|
  {
    if d < t - 1 {
      HistoryCountsInfected(g, st0, sheltered, draws, t - 1, d);
    }
  }

  /** A recovered node stays recovered for the rest of the run. */
  lemma {:induction false} RecoveredStays(g: Graph, st0: seq<State>, sheltered: set<nat>, draws: nat -> bool, s: nat, t: nat, w: nat)
    requires g.Valid() && |st0| == |g.nodes| && w < |g.nodes| && s <= t
    requires Days(g, st0, sheltered, draws, s).states[w] == Recovered
    ensures Days(g, st0, sheltered, draws, t).states[w] == Recovered
  {
    if s < t {
      RecoveredStays(g, st0, sheltered, draws, s, t - 1, w);
      var prev := Days(g, st0, sheltered, draws, t - 1);
      DayTransitions(g, prev.states, sheltered, draws, prev.used, w);
    }
  }

  /** Over a whole run the number of susceptible nodes never grows. */
  lemma {:induction false} SusceptibleNonIncreasingOverRun(g: Graph, st0: seq<State>, sheltered: set<nat>, draws: nat -> bool, s: nat, t: nat)
    requires g.Valid() && |st0| == |g.nodes| && s <= t
    ensures Count(Days(g, st0, sheltered, draws, t).states, Susceptible) <= Count(Days(g, st0, sheltered, draws, s).states, Susceptible)
  {
    if s < t {
      SusceptibleNonIncreasingOverRun(g, st0, sheltered, draws, s, t - 1);
      var prev := Days(g, st0, sheltered, draws, t - 1);
      SusceptibleNonIncreasing(g, prev.states, sheltered, draws, prev.used);
    }
  }

  /** No day ever produces the state V: it only arises from a start that already holds it. */
  lemma {:induction false} NeverVaccinated(g: Graph, st0: seq<State>, sheltered: set<nat>, draws: nat -> bool, t: nat)
    requires g.Valid() && |st0| == |g.nodes| && Vaccinated !in st0
    ensures Vaccinated !in Days(g, st0, sheltered, draws, t).states
    ensures Count(Days(g, st0, sheltered, draws, t).states, Vaccinated) == 0
  {
    CountZero(Days(g, st0, sheltered, draws, t).states, Vaccinated);
    if t > 0 {
      NeverVaccinated(g, st0, sheltered, draws, t - 1);
      var prev := Days(g, st0, sheltered, draws, t - 1);
      var next := Days(g, st0, sheltered, draws, t).states;
      forall w | 0 <= w < |next| ensures next[w] != Vaccinated {
        DayTransitions(g, prev.states, sheltered, draws, prev.used, w);
      }
    }
  }

  /** After seeding, the initiators that are nodes are infected and every other node is
      susceptible, whatever the vaccination sample; no node is in state V. */
  lemma SeededStates(g: Graph, initiators: seq<NodeId>)
    ensures forall w :: 0 <= w < |g.nodes| ==>
      && (Seeded(g, initiators)[w] == Infected <==> g.nodes[w] in initiators)
      && (Seeded(g, initiators)[w] != Infected ==> Seeded(g, initiators)[w] == Susceptible)
    ensures Vaccinated !in Seeded(g, initiators)
  {
  }

  /** Sampling without replacement: the sheltered set has as many nodes as the sample. */
  lemma {:induction false} ShelterSetSize(sample: seq<nat>)
    requires Distinct(sample)
    ensures |ShelterSet(sample)| == |sample|
  {
    if sample != [] {
      var init, last := sample[..|sample| - 1], sample[|sample| - 1];
      ShelterSetSize(init);
      assert ShelterSet(sample) == ShelterSet(init) + {last};
      assert last !in ShelterSet(init);
    }
  }

  /** Line 75: when the shelter sample is accepted, the sheltered set holds exactly
      `int(len(G.nodes) * shelter)` nodes of the graph. */
  lemma ShelteredSize(n: nat, shelter: real, sample: seq<nat>)
    requires IsSample(sample, n, SampleSize(n, shelter)) && 0 <= SampleSize(n, shelter) <= n
    ensures |ShelterSet(sample)| == SampleSize(n, shelter)
    ensures forall w :: w in ShelterSet(sample) ==> w < n
  {
    ShelterSetSize(sample);
  }

  /** A sheltered node is infected on some day only if it was seeded as an initiator, and then
      only on the first day (lines 77-79 and 89). */
  lemma ShelteredOnlySeeded(g: Graph, initiators: seq<NodeId>, sheltered: set<nat>, draws: nat -> bool, t: nat, w: nat)
    requires g.Valid() && w < |g.nodes| && w in sheltered
    ensures Days(g, Seeded(g, initiators), sheltered, draws, t).states[w] == Infected ==> t == 0 && g.nodes[w] in initiators
  {
    if t > 0 {
      var prev := Days(g, Seeded(g, initiators), sheltered, draws, t - 1);
      ShelteredNotInfectedByDay(g, prev.states, sheltered, draws, prev.used, w);
    }
  }

  /** A run that does not raise returns one history entry per day of `range(lifespan)`, each at
      most the number of nodes, and never counts a vaccinated node. */
  lemma SimulationOutcome(g: Graph, initiators: seq<NodeId>, lifespan: int, shelter: real, vaccinations: real,
                          vaccinated: seq<nat>, shelterSample: seq<nat>, draws: nat -> bool, d: nat)
    requires g.Valid()
    ensures Simulation(g, initiators, lifespan, shelter, vaccinations, vaccinated, shelterSample, draws).Failure?
            <==> SetupError(g, initiators, shelter, vaccinations).Some?
    ensures var r := Simulation(g, initiators, lifespan, shelter, vaccinations, vaccinated, shelterSample, draws);
      r.Success? ==>
        && |r.value.history| == (if lifespan > 0 then lifespan else 0)
        && (d < |r.value.history| ==> r.value.history[d] <= |g.nodes|)
        && Vaccinated !in r.value.states
  {
    if SetupError(g, initiators, shelter, vaccinations).None? {
      var days := if lifespan > 0 then lifespan else 0;
      var sheltered := ShelterSet(shelterSample);
      if d < days {
        HistoryCountsInfected(g, Seeded(g, initiators), sheltered, draws, days, d);
      }
      SeededStates(g, initiators);
      NeverVaccinated(g, Seeded(g, initiators), sheltered, draws, days);
    }
  }

  /** The vaccination defect: the sample written under "State" by line 72 changes no run.
      Two runs that differ only in the vaccination sample report the same history and the
      same "state" attributes. */
  lemma VaccinationIsNoOp(g: Graph, initiators: seq<NodeId>, lifespan: int, shelter: real, vaccinations: real,
                          vaccinated1: seq<nat>, vaccinated2: seq<nat>, shelterSample: seq<nat>, draws: nat -> bool)
    requires g.Valid()
    ensures var r1 := Simulation(g, initiators, lifespan, shelter, vaccinations, vaccinated1, shelterSample, draws);
            var r2 := Simulation(g, initiators, lifespan, shelter, vaccinations, vaccinated2, shelterSample, draws);
      && r1.Success? == r2.Success?
      && (r1.Failure? ==> r1 == r2)
      && (r1.Success? ==> r1.value.history == r2.value.history && r1.value.states == r2.value.states)
  {
  }

  /** Because of the same defect, an initiator is infected on day 0 even when every node was
      sampled as vaccinated, so the first history entry counts it. */
  lemma VaccinatedInitiatorStillInfected(g: Graph, initiators: seq<NodeId>, lifespan: int, shelter: real, vaccinations: real,
                                         vaccinated: seq<nat>, shelterSample: seq<nat>, draws: nat -> bool, w: nat)
    requires g.Valid() && w < |g.nodes| && g.nodes[w] in initiators && lifespan > 0
    requires Simulation(g, initiators, lifespan, shelter, vaccinations, vaccinated, shelterSample, draws).Success?
    ensures Simulation(g, initiators, lifespan, shelter, vaccinations, vaccinated, shelterSample, draws).value.history[0] >= 1
  {
    var st0 := Seeded(g, initiators);
    HistoryCountsInfected(g, st0, ShelterSet(shelterSample), draws, lifespan, 0);
    assert st0[w] == Infected;
    CountZero(st0, Infected);
  }
}
