/** Concrete runs of the epidemic on the two-node graph A -> B, seeded with A, where every
    Bernoulli draw succeeds (`p_inf = 1.0`). */
module CovidScenarios {
  import opened Wrappers
  import opened Graphs
  import opened Counting
  import opened Covid

  function Edge(): (g: Graph)
    ensures g.Valid()
  {
    Graph(["A", "B"], [[1], []], [[], [0]])
  }

  /** Every draw `random.random() < 1.0` succeeds. */
  function AlwaysSucceeds(i: nat): bool {
    true
  }

  /** Day 1 counts A, A infects B and recovers; day 2 counts B, which recovers. */
  lemma EdgeTwoDays()
    ensures Seeded(Edge(), ["A"]) == [Infected, Susceptible]
    ensures Day(Edge(), [Infected, Susceptible], {}, AlwaysSucceeds, 0) == DayResult([Recovered, Infected], 1)
    ensures Days(Edge(), [Infected, Susceptible], {}, AlwaysSucceeds, 2) == RunState([Recovered, Recovered], 1, [1, 1])
  {
    var g := Edge();
    var s0, s1, s2 := [Infected, Susceptible], [Recovered, Infected], [Recovered, Recovered];
    var draws: nat -> bool := AlwaysSucceeds;
    assert NodeScan(g, s0, {}, draws, 1, Scan(map[], 0)) == Scan(map[1 := Infected, 0 := Recovered], 1);
    assert NodeScan(g, s0, {}, draws, 2, Scan(map[], 0)) == Scan(map[1 := Infected, 0 := Recovered], 1);
    assert Day(g, s0, {}, draws, 0) == DayResult(s1, 1);
    assert NodeScan(g, s1, {}, draws, 2, Scan(map[], 1)) == Scan(map[1 := Recovered], 1);
    assert Day(g, s1, {}, draws, 1) == DayResult(s2, 1);
    assert Count(s0, Infected) == 1 && Count(s1, Infected) == 1;
  }

  /** With no sheltering and no vaccination the run returns the history [1, 1]. */
  lemma EdgeSimulation()
    ensures Simulation(Edge(), ["A"], 2, 0.0, 0.0, [], [], AlwaysSucceeds)
      == Success(Outcome([1, 1], [Recovered, Recovered], [None, None]))
  {
    EdgeTwoDays();
    assert ShelterSet([]) == {};
    assert SetupError(Edge(), ["A"], 0.0, 0.0) == None;
    assert Days(Edge(), Seeded(Edge(), ["A"]), ShelterSet([]), AlwaysSucceeds, 2) == RunState([Recovered, Recovered], 1, [1, 1]);
    assert CapitalState(2, []) == [None, None];
  }

  /** With a vaccination rate of 1.0 both nodes are sampled, yet the run is the same: only the
      unread "State" attribute records the vaccination. */
  lemma EdgeAllVaccinated()
    ensures IsSample([0, 1], 2, SampleSize(2, 1.0))
    ensures Simulation(Edge(), ["A"], 2, 0.0, 1.0, [0, 1], [], AlwaysSucceeds)
      == Success(Outcome([1, 1], [Recovered, Recovered], [Some(Vaccinated), Some(Vaccinated)]))
  {
    EdgeTwoDays();
    assert ShelterSet([]) == {};
    assert SampleSize(2, 1.0) == 2;
    assert SetupError(Edge(), ["A"], 0.0, 1.0) == None;
    assert CapitalState(2, [0, 1]) == [Some(Vaccinated), Some(Vaccinated)];
  }

  /** An initiator that is not a node makes line 78 raise. */
  lemma EdgeUnknownInitiator()
    ensures Simulation(Edge(), ["A", "Z"], 2, 0.0, 0.0, [], [], AlwaysSucceeds) == Failure(NodeNotFound("Z"))
  {
    assert "Z" !in Edge().nodes;
    assert FirstUnknown(Edge().nodes, ["A", "Z"]) == Some("Z") by {
      assert ["A", "Z"][1..] == ["Z"];
    }
  }

  /** Rates above 1 ask `random.sample` for more nodes than there are. */
  lemma EdgeRateTooLarge()
    ensures Simulation(Edge(), ["A"], 2, 0.0, 1.5, [], [], AlwaysSucceeds) == Failure(SampleSizeOutOfRange(3))
  {
    assert SampleSize(2, 1.5) == 3;
  }

  /** A and B both point at C. */
  function Fan(): (g: Graph)
    ensures g.Valid()
  {
    Graph(["A", "B", "C"], [[2], [2], []], [[], [], [0, 1]])
  }

  /** With A and B infected, sheltering C fails both guards, so the day makes no draw; without
      sheltering each edge into C makes one draw and C becomes infected. */
  lemma FanDraws()
    ensures Day(Fan(), [Infected, Infected, Susceptible], {2}, AlwaysSucceeds, 0)
      == DayResult([Recovered, Recovered, Susceptible], 0)
    ensures Day(Fan(), [Infected, Infected, Susceptible], {}, AlwaysSucceeds, 0)
      == DayResult([Recovered, Recovered, Infected], 2)
  {
    var g := Fan();
    var st := [Infected, Infected, Susceptible];
    var draws: nat -> bool := AlwaysSucceeds;
    assert !Exposed(st, {2}, 2);
    assert NodeScan(g, st, {2}, draws, 1, Scan(map[], 0)) == Scan(map[0 := Recovered], 0);
    assert NodeScan(g, st, {2}, draws, 2, Scan(map[], 0)) == Scan(map[0 := Recovered, 1 := Recovered], 0);
    assert NodeScan(g, st, {2}, draws, 3, Scan(map[], 0)) == Scan(map[0 := Recovered, 1 := Recovered], 0);
    assert NodeScan(g, st, {}, draws, 1, Scan(map[], 0)) == Scan(map[2 := Infected, 0 := Recovered], 1);
    assert NodeScan(g, st, {}, draws, 3, Scan(map[], 0)) == Scan(map[2 := Infected, 0 := Recovered, 1 := Recovered], 2);
  }
}
