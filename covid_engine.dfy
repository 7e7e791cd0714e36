/** The imperative `covid_simulation`: node attributes in arrays, updated as the source does. */
module CovidEngine {
  import opened Wrappers
  import opened Graphs
  import opened Counting
  import opened Covid

  /** Lines 88-91 for the infected node `v`: try every successor in order, one draw per
      exposed successor, recording the infections in `newStates`. */
  method Spread(g: Graph, state: array<State>, sheltered: set<nat>, draws: nat -> bool, v: nat,
                newStates: map<nat, State>, used: nat) returns (updates: map<nat, State>, usedAfter: nat)
    requires g.Valid() && state.Length == |g.nodes| && v < |g.nodes|
    ensures Scan(updates, usedAfter) == EdgeScan(state[..], sheltered, draws, g.succ[v], |g.succ[v]|, Scan(newStates, used))
  {
    var ws := g.succ[v];
    updates, usedAfter := newStates, used;
    for j := 0 to |ws|
      invariant Scan(updates, usedAfter) == EdgeScan(state[..], sheltered, draws, ws, j, Scan(newStates, used))
    {
      var neighbor := ws[j];
      if state[neighbor] == Susceptible && neighbor !in sheltered {
        if draws(usedAfter) {
          updates := updates[neighbor := Infected];
        }
        usedAfter := usedAfter + 1;
      }
    }
  }

  /** Lines 84-93: one scan of all nodes against the unmodified states, filling `new_states`
      and the four counters of `counts`. */
  method ScanDay(g: Graph, state: array<State>, sheltered: set<nat>, draws: nat -> bool, used: nat)
    returns (newStates: map<nat, State>, usedAfter: nat, susceptible: nat, infected: nat, recovered: nat, vaccinated: nat)
    requires g.Valid() && state.Length == |g.nodes|
    ensures Scan(newStates, usedAfter) == NodeScan(g, state[..], sheltered, draws, |g.nodes|, Scan(map[], used))
    ensures susceptible == Count(state[..], Susceptible) && infected == Count(state[..], Infected)
    ensures recovered == Count(state[..], Recovered) && vaccinated == Count(state[..], Vaccinated)
  {
    var n := |g.nodes|;
    newStates, usedAfter := map[], used;
    susceptible, infected, recovered, vaccinated := 0, 0, 0, 0;
    for v := 0 to n
      invariant Scan(newStates, usedAfter) == NodeScan(g, state[..], sheltered, draws, v, Scan(map[], used))
      invariant susceptible == Count(state[..][..v], Susceptible) && infected == Count(state[..][..v], Infected)
      invariant recovered == Count(state[..][..v], Recovered) && vaccinated == Count(state[..][..v], Vaccinated)
    {
      var st := state[v];
      if st == Infected {
        newStates, usedAfter := Spread(g, state, sheltered, draws, v, newStates, usedAfter);
        newStates := newStates[v := Recovered];
      }
      CountPrefix(state[..], v, Susceptible);
      CountPrefix(state[..], v, Infected);
      CountPrefix(state[..], v, Recovered);
      CountPrefix(state[..], v, Vaccinated);
      match st
      case Susceptible => susceptible := susceptible + 1;
      case Infected => infected := infected + 1;
      case Recovered => recovered := recovered + 1;
      case Vaccinated => vaccinated := vaccinated + 1;
    }
    assert state[..][..n] == state[..];
  }

  /** Lines 94-95: write every entry of `new_states` into the node attributes. */
  method Apply(state: array<State>, newStates: map<nat, State>)
    requires forall w :: w in newStates ==> w < state.Length
    modifies state
    ensures forall i :: 0 <= i < state.Length ==> state[i] == if i in newStates then newStates[i] else old(state[i])
  {
    var pending := newStates.Keys;
    while pending != {}
      invariant pending <= newStates.Keys
      invariant forall i :: 0 <= i < state.Length ==>
        state[i] == if i in newStates && i !in pending then newStates[i] else old(state[i])
      decreases pending
    {
      var w :| w in pending;
      state[w] := newStates[w];
      pending := pending - {w};
    }
  }

  /** Lines 71-72: write `Vaccinated` under the key "State" of every sampled node, starting
      from nodes that carry no such key. */
  method Vaccinate(capital: array<Option<State>>, vaccinatedSample: seq<nat>)
    requires Below(vaccinatedSample, capital.Length)
    requires forall u :: 0 <= u < capital.Length ==> capital[u] == None
    modifies capital
    ensures capital[..] == CapitalState(capital.Length, vaccinatedSample)
  {
    for k := 0 to |vaccinatedSample|
      invariant forall u :: 0 <= u < capital.Length ==>
        capital[u] == if u in vaccinatedSample[..k] then Some(Vaccinated) else None
    {
      // The defect of line 72: the capitalised key "State" is written, which no read looks at.
      capital[vaccinatedSample[k]] := Some(Vaccinated);
    }
    assert vaccinatedSample[..|vaccinatedSample|] == vaccinatedSample;
  }

  /** Lines 77-79 from all-susceptible states: infect each initiator in turn, stopping at the
      first one that is not a node (the KeyError of line 78), which is returned. */
  method SeedInitiators(g: Graph, state: array<State>, initiators: seq<NodeId>) returns (unknown: Option<NodeId>)
    requires g.Valid() && state.Length == |g.nodes|
    requires forall u :: 0 <= u < state.Length ==> state[u] == Susceptible
    modifies state
    ensures unknown == FirstUnknown(g.nodes, initiators)
    ensures unknown.None? ==> state[..] == Seeded(g, initiators)
  {
    var n := |g.nodes|;
    for k := 0 to |initiators|
      invariant FirstUnknown(g.nodes, initiators) == FirstUnknown(g.nodes, initiators[k..])
      invariant forall u :: 0 <= u < n ==> state[u] == if g.nodes[u] in initiators[..k] then Infected else Susceptible
    {
      var id := initiators[k];
      assert initiators[k..][1..] == initiators[k + 1..];
      var index := IndexOf(g.nodes, id);
      if index.None? {
        return Some(id);
      }
      if state[index.value] == Susceptible {
        state[index.value] := Infected;
      }
      assert initiators[..k + 1] == initiators[..k] + [id];
    }
    assert initiators[..|initiators|] == initiators;
    assert initiators[|initiators|..] == [];
    unknown := None;
  }

  /** Lines 67-79: reset every state, write the vaccination sample under the key "State",
      take the sheltered set and infect the susceptible initiators; `error` is what they raise. */
  method Setup(g: Graph, initiators: seq<NodeId>, shelter: real, vaccinations: real,
               vaccinatedSample: seq<nat>, shelterSample: seq<nat>)
    returns (error: Option<Error>, state: array<State>, capital: array<Option<State>>, sheltered: set<nat>)
    requires g.Valid()
    requires IsSample(vaccinatedSample, |g.nodes|, SampleSize(|g.nodes|, vaccinations))
    requires IsSample(shelterSample, |g.nodes|, SampleSize(|g.nodes|, shelter))
    ensures error == SetupError(g, initiators, shelter, vaccinations)
    ensures fresh(state) && fresh(capital)
    ensures error.None? ==> && state[..] == Seeded(g, initiators)
                            && capital[..] == CapitalState(|g.nodes|, vaccinatedSample)
                            && sheltered == ShelterSet(shelterSample)
  {
    var n := |g.nodes|;
    error, sheltered := None, {};
    // Line 68 sets every node susceptible.
    state := new State[n](_ => Susceptible);
    // No node carries the key "State" before line 72.
    capital := new Option<State>[n](_ => None);

    var numVaccinated := SampleSize(n, vaccinations);
    if !(0 <= numVaccinated <= n) {
      return Some(SampleSizeOutOfRange(numVaccinated)), state, capital, sheltered;
    }
    Vaccinate(capital, vaccinatedSample);

    var numSheltered := SampleSize(n, shelter);
    if !(0 <= numSheltered <= n) {
      return Some(SampleSizeOutOfRange(numSheltered)), state, capital, sheltered;
    }
    sheltered := ShelterSet(shelterSample);

    var unknown := SeedInitiators(g, state, initiators);
    if unknown.Some? {
      return Some(NodeNotFound(unknown.value)), state, capital, sheltered;
    }
  }

  /** Lines 81-96: `lifespan` days of scan-then-apply, each appending the number of nodes
      that were infected at the start of the day. */
  method RunDays(g: Graph, state: array<State>, sheltered: set<nat>, draws: nat -> bool, days: nat)
    returns (history: seq<nat>)
    requires g.Valid() && state.Length == |g.nodes|
    modifies state
    ensures history == Days(g, old(state[..]), sheltered, draws, days).history
    ensures state[..] == Days(g, old(state[..]), sheltered, draws, days).states
  {
    ghost var start := state[..];
    history := [];
    var used: nat := 0;
    for t := 0 to days
      invariant Days(g, start, sheltered, draws, t) == RunState(state[..], used, history)
    {
      ghost var before := state[..];
      var newStates, usedAfter, susceptible, infected, recovered, vaccinated := ScanDay(g, state, sheltered, draws, used);
      ScanKeysAreNodes(g, before, sheltered, draws, |g.nodes|, Scan(map[], used));
      Apply(state, newStates);
      ApplyIsDay(g, before, state[..], sheltered, draws, used, newStates, usedAfter);
      used := usedAfter;
      history := history + [infected];
    }
  }

  /** The scan marks only nodes of the graph. */
  lemma {:induction false} EdgeScanKeysAreNodes(st: seq<State>, sheltered: set<nat>, draws: nat -> bool, ws: seq<nat>, k: nat, start: Scan)
    requires Below(ws, |st|) && k <= |ws|
    ensures forall w :: w in EdgeScan(st, sheltered, draws, ws, k, start).updates ==> w in start.updates || w < |st|
  {
    if k > 0 {
      EdgeScanKeysAreNodes(st, sheltered, draws, ws, k - 1, start);
    }
  }

  lemma {:induction false} ScanKeysAreNodes(g: Graph, st: seq<State>, sheltered: set<nat>, draws: nat -> bool, k: nat, start: Scan)
    requires g.Valid() && |st| == |g.nodes| && k <= |g.nodes|
    ensures forall w :: w in NodeScan(g, st, sheltered, draws, k, start).updates ==> w in start.updates || w < |st|
  {
    if k > 0 {
      ScanKeysAreNodes(g, st, sheltered, draws, k - 1, start);
      var acc := NodeScan(g, st, sheltered, draws, k - 1, start);
      if st[k - 1] == Infected {
        EdgeScanKeysAreNodes(st, sheltered, draws, g.succ[k - 1], |g.succ[k - 1]|, acc);
      }
    }
  }

  /** Writing back `new_states` after a full scan yields the next day's states. */
  lemma ApplyIsDay(g: Graph, before: seq<State>, after: seq<State>, sheltered: set<nat>, draws: nat -> bool,
                   used: nat, newStates: map<nat, State>, usedAfter: nat)
    requires g.Valid() && |before| == |g.nodes| && |after| == |g.nodes|
    requires Scan(newStates, usedAfter) == NodeScan(g, before, sheltered, draws, |g.nodes|, Scan(map[], used))
    requires forall i :: 0 <= i < |after| ==> after[i] == if i in newStates then newStates[i] else before[i]
    ensures Day(g, before, sheltered, draws, used) == DayResult(after, usedAfter)
  {
  }

  /** `covid_simulation(G, initiators, p_inf, lifespan, shelter, vaccinations)`, with the
      samples and the outcomes of the Bernoulli draws as inputs. */
  method Simulate(g: Graph, initiators: seq<NodeId>, lifespan: int, shelter: real, vaccinations: real,
                  vaccinatedSample: seq<nat>, shelterSample: seq<nat>, draws: nat -> bool)
    returns (r: Result<Outcome, Error>)
    requires g.Valid()
    requires IsSample(vaccinatedSample, |g.nodes|, SampleSize(|g.nodes|, vaccinations))
    requires IsSample(shelterSample, |g.nodes|, SampleSize(|g.nodes|, shelter))
    ensures r == Simulation(g, initiators, lifespan, shelter, vaccinations, vaccinatedSample, shelterSample, draws)
  {
    var error, state, capital, sheltered := Setup(g, initiators, shelter, vaccinations, vaccinatedSample, shelterSample);
    if error.Some? {
      return Failure(error.value);
    }
    var days: nat := if lifespan > 0 then lifespan else 0;
    ghost var capitalSeen := capital[..];
    var history := RunDays(g, state, sheltered, draws, days);
    assert capital[..] == capitalSeen;
    r := Success(Outcome(history, state[..], capital[..]));
  }
}
