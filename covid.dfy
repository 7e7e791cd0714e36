/** The S/I/R epidemic, `covid_simulation` in dynamic_population.py. `st[v]` stands for the
    attribute `G.nodes[v]["state"]` of the node at position `v`.

    Randomness is replaced by inputs: the two `random.sample` results are given as sequences of
    node positions, and the outcomes of `random.random() < p_inf` as the stream `draws`, whose
    entry `i` is the outcome of the `i`-th comparison made during the run. */
module Covid {
  import opened Wrappers
  import opened Graphs
  import opened Counting

  /** The state constants of lines 7-10. */
  datatype State = Susceptible | Infected | Recovered | Vaccinated

  /** `random.sample` raising ValueError for a size outside [0, population], and `G.nodes[n]`
      raising KeyError for an initiator that is not a node. */
  datatype Error = SampleSizeOutOfRange(size: int) | NodeNotFound(id: NodeId)

  /** Python's `int(x)`, which truncates toward zero. */
  function Truncate(x: real): (r: int)
    ensures x >= 0.0 ==> r as real <= x < r as real + 1.0
    ensures x < 0.0 ==> r as real - 1.0 < x <= r as real
  {
    if x >= 0.0 then x.Floor else -((-x).Floor)
  }

  /** The sample sizes `int(len(G.nodes) * rate)` of lines 70 and 74. `random.sample` accepts
      the size exactly when `n * rate` lies strictly between -1 and `n + 1`; in particular
      every rate in [0, 1] is accepted. */
  function SampleSize(n: nat, rate: real): (k: int)
    ensures 0 <= k <= n <==> -1.0 < n as real * rate < n as real + 1.0
    ensures 0.0 <= rate <= 1.0 ==> 0 <= k <= n
  {
    Truncate(n as real * rate)
  }

  /** What `random.sample(list(G.nodes), k)` can return: `k` distinct nodes. */
  predicate IsSample(s: seq<nat>, n: nat, k: int) {
    Distinct(s) && Below(s, n) && (0 <= k <= n ==> |s| == k)
  }

  /** `set(random.sample(...))` of line 75. */
  function ShelterSet(sample: seq<nat>): set<nat> {
    set i | i in sample
  }

  /** The guard of line 89: the target is susceptible and not sheltered. */
  predicate Exposed(st: seq<State>, sheltered: set<nat>, w: nat)
    requires w < |st|
  {
    st[w] == Susceptible && w !in sheltered
  }

  /** The dict `new_states` as a scan fills it, and how many draws have been made so far. */
  datatype Scan = Scan(updates: map<nat, State>, used: nat)

  /** Lines 88-91 over the first `k` successors `ws` of an infected node, from `start`:
      a draw is made only when the guard holds (short-circuit `and`) and, when it succeeds,
      the target is marked infected. */
  function EdgeScan(st: seq<State>, sheltered: set<nat>, draws: nat -> bool, ws: seq<nat>, k: nat, start: Scan): (r: Scan)
    requires Below(ws, |st|) && k <= |ws|
    ensures start.used <= r.used
  {
    if k == 0 then start
    else
      var acc := EdgeScan(st, sheltered, draws, ws, k - 1, start);
      var w := ws[k - 1];
      if Exposed(st, sheltered, w) then
        Scan(if draws(acc.used) then acc.updates[w := Infected] else acc.updates, acc.used + 1)
      else acc
  }

  /** Lines 85-92 over the first `k` nodes, from `start`: each infected node tries its
      successors in order and is then marked recovered. */
  function NodeScan(g: Graph, st: seq<State>, sheltered: set<nat>, draws: nat -> bool, k: nat, start: Scan): (r: Scan)
    requires g.Valid() && |st| == |g.nodes| && k <= |g.nodes|
    ensures start.used <= r.used
  {
    if k == 0 then start
    else
      var acc := NodeScan(g, st, sheltered, draws, k - 1, start);
      if st[k - 1] == Infected then
        var after := EdgeScan(st, sheltered, draws, g.succ[k - 1], |g.succ[k - 1]|, acc);
        Scan(after.updates[k - 1 := Recovered], after.used)
      else acc
  }

  /** The states after one day and the number of draws made by then. */
  datatype DayResult = DayResult(states: seq<State>, used: nat)

  /** One day (lines 83-95): scan every node against the states at the start of the day,
      then write all of `new_states` back at once. */
  function Day(g: Graph, st: seq<State>, sheltered: set<nat>, draws: nat -> bool, used: nat): (d: DayResult)
    requires g.Valid() && |st| == |g.nodes|
    ensures |d.states| == |st| && used <= d.used
  {
    var scan := NodeScan(g, st, sheltered, draws, |st|, Scan(map[], used));
    DayResult(seq(|st|, i requires 0 <= i < |st| => if i in scan.updates then scan.updates[i] else st[i]), scan.used)
  }

  /** The states, draws used and `history` after `t` days from `st0`. */
  datatype RunState = RunState(states: seq<State>, used: nat, history: seq<nat>)

  function Days(g: Graph, st0: seq<State>, sheltered: set<nat>, draws: nat -> bool, t: nat): (e: RunState)
    requires g.Valid() && |st0| == |g.nodes|
    ensures |e.states| == |g.nodes| && |e.history| == t
  {
    if t == 0 then RunState(st0, 0, [])
    else
      var prev := Days(g, st0, sheltered, draws, t - 1);
      var d := Day(g, prev.states, sheltered, draws, prev.used);
      RunState(d.states, d.used, prev.history + [Count(prev.states, Infected)])
  }

  /** The states after lines 67-79: the initiators infected, every other node susceptible.
      The vaccination sample plays no part, because line 72 writes the key "State" while every
      read is of "state" (lines 78, 86) - a defect of the source that is kept here. */
  function Seeded(g: Graph, initiators: seq<NodeId>): (st: seq<State>)
    ensures |st| == |g.nodes|
  {
    seq(|g.nodes|, i requires 0 <= i < |g.nodes| => if g.nodes[i] in initiators then Infected else Susceptible)
  }

  /** The first initiator that is not a node, where line 78 raises. */
  function FirstUnknown(nodes: seq<NodeId>, initiators: seq<NodeId>): (r: Option<NodeId>)
    ensures r.None? <==> forall i :: 0 <= i < |initiators| ==> initiators[i] in nodes
    ensures r.Some? ==> exists k :: 0 <= k < |initiators| && initiators[k] == r.value
                          && r.value !in nodes && forall i :: 0 <= i < k ==> initiators[i] in nodes
  {
    if initiators == [] then None
    else if initiators[0] !in nodes then Some(initiators[0])
    else
      var r := FirstUnknown(nodes, initiators[1..]);
      if r.Some? then
        var k :| 0 <= k < |initiators[1..]| && initiators[1..][k] == r.value
                   && r.value !in nodes && forall i :: 0 <= i < k ==> initiators[1..][i] in nodes;
        assert initiators[k + 1] == r.value;
        r
      else r
  }

  /** The attribute `G.nodes[v]["State"]` that line 72 writes: Vaccinated for the sampled
      nodes, absent for the others. */
  function CapitalState(n: nat, vaccinated: seq<nat>): (cs: seq<Option<State>>)
    ensures |cs| == n
  {
    seq(n, i requires 0 <= i < n => if i in vaccinated then Some(Vaccinated) else None)
  }

  /** What a successful run leaves: the returned `history`, and the node attributes
      "state" and "State" as they stand at the end. */
  datatype Outcome = Outcome(history: seq<nat>, states: seq<State>, capitalState: seq<Option<State>>)

  /** Why lines 70-79 raise, if they do: a sample size out of range (vaccination first), then
      the first initiator that is not a node. */
  function SetupError(g: Graph, initiators: seq<NodeId>, shelter: real, vaccinations: real): (r: Option<Error>)
    ensures r.None? <==> && 0 <= SampleSize(|g.nodes|, vaccinations) <= |g.nodes|
                         && 0 <= SampleSize(|g.nodes|, shelter) <= |g.nodes|
                         && forall i :: 0 <= i < |initiators| ==> initiators[i] in g.nodes
  {
    var n := |g.nodes|;
    var numVaccinated := SampleSize(n, vaccinations);
    var numSheltered := SampleSize(n, shelter);
    if !(0 <= numVaccinated <= n) then Some(SampleSizeOutOfRange(numVaccinated))
    else if !(0 <= numSheltered <= n) then Some(SampleSizeOutOfRange(numSheltered))
    else match FirstUnknown(g.nodes, initiators)
      case Some(id) => Some(NodeNotFound(id))
      case None => None
  }

  /** `covid_simulation` as a function of its inputs, the samples and the draw stream; a
      negative `lifespan` gives an empty `range`. */
  function Simulation(g: Graph, initiators: seq<NodeId>, lifespan: int, shelter: real, vaccinations: real,
                      vaccinated: seq<nat>, shelterSample: seq<nat>, draws: nat -> bool): (r: Result<Outcome, Error>)
    requires g.Valid()
    ensures r.Failure? <==> SetupError(g, initiators, shelter, vaccinations).Some?
    ensures r.Failure? ==> Some(r.error) == SetupError(g, initiators, shelter, vaccinations)
    ensures r.Success? ==> && |r.value.history| == (if lifespan > 0 then lifespan else 0)
                           && |r.value.states| == |g.nodes| && |r.value.capitalState| == |g.nodes|
  {
    match SetupError(g, initiators, shelter, vaccinations)
    case Some(e) => Failure(e)
    case None =>
      var e := Days(g, Seeded(g, initiators), ShelterSet(shelterSample), draws, if lifespan > 0 then lifespan else 0);
      Success(Outcome(e.history, e.states, CapitalState(|g.nodes|, vaccinated)))
  }
}
