# Diffusion simulations on a directed graph, verified in Dafny

This project models the two simulation engines of `dynamic_population.py` and proves what
they guarantee:

- `cascade_simulation` is a deterministic threshold cascade. The initiators start active.
  In each round, every inactive node that has at least one predecessor, and whose fraction
  of active predecessors reaches `threshold`, is scheduled. The scheduled nodes are switched
  on together after the scan. The loop stops after the first round that schedules nothing.
- `covid_simulation` is an S/I/R epidemic run for `lifespan` days. Setup resets every node
  to S, writes the vaccination sample, takes the sheltered set and infects the initiators.
  Each day, every infected node tries each successor that is S and not sheltered, one
  Bernoulli draw per such edge, and then recovers. The changes are collected in `new_states`
  and written back after the scan. The number of infected nodes at the start of the day is
  appended to `history`.

Both engines are imperative, as in the source:

- The per-node attributes live in arrays.
- The `while changed` loop, the `for t in range(lifespan)` loop and the inner scans are
  methods with loop invariants.
- Each method is proved equal to a pure specification function (`Cascade.Round` and
  `Cascade.Run`; `Covid.Day`, `Covid.Days` and `Covid.Simulation`).
- The lemmas state the engines' properties about those functions.

Layout:

- `graphs.dfy`: the graph. Nodes are addressed by their position in `G.nodes`. `succ` and
  `pred` list each node's successors and predecessors in the graph's adjacency order, and
  `Graph.Valid` says the two describe one edge set. Lists are kept, not an edge set,
  because the order of `G.successors(n)` decides which draw each edge consumes.
- `counting.dfy`: counting the positions that hold a value.
- `wrappers.dfy`: `Option` and `Result`.
- `cascade.dfy`, `cascade_properties.dfy`, `cascade_scenarios.dfy`: the cascade engine,
  its specification and properties, and concrete runs.
- `covid.dfy`, `covid_engine.dfy`, `covid_properties.dfy`, `covid_scenarios.dfy`: the
  epidemic, split the same way.

Randomness is an input:

- The two `random.sample` results are sequences of distinct node positions
  (`Covid.IsSample`). Their length is `int(len(G.nodes) * rate)` whenever that size is in
  range.
- The outcomes of `random.random() < p_inf` are a stream `draws: nat -> bool`. Entry `i`
  is the `i`-th comparison of the run. A draw is consumed only when the guard of line 89
  holds, because `and` short-circuits (`CovidProperties.EdgeScanUsed`). Draws are taken in
  node order, then successor order.

Error paths:

- `random.sample` raises ValueError when a sample size is outside `[0, len(G.nodes)]`. The
  model returns `Failure(SampleSizeOutOfRange(size))`. The vaccination size is checked first.
- `G.nodes[n]` raises KeyError for an initiator that is not a node. The model returns
  `Failure(NodeNotFound(id))` for the first such initiator.

Behaviour of the source worth noting:

- **The vaccination defect.** Line 72 writes the key `"State"`, while lines 78 and 86 read
  `"state"`. Vaccination therefore has no effect:
  - a sampled node can still be seeded and infected;
  - `counts[VACCINATED]` is always 0.

  The model keeps this faithfully. The `"State"` attribute is a separate array
  (`capital`, returned as `Outcome.capitalState`) that nothing reads.
  `CovidProperties.VaccinationIsNoOp` and `CovidScenarios.EdgeAllVaccinated` state the
  consequence: with a vaccination rate of 1.0 the two-node run returns `[1, 1]`.
- **The threshold-0.5 cycle.** On the cycle A→B→C→D→A with initiator A and threshold 0.5,
  B's only predecessor A is active, so B joins in round 1. C joins in round 2 and D in
  round 3, and the loop body runs four times (`CascadeScenarios.CycleHalfThreshold`).
- **Threshold 0.** `0/1 >= 0` holds, so every node with a predecessor joins in round 1. On
  that cycle the loop body runs twice (`CascadeScenarios.CycleZeroThreshold`).
- **Sample sizes** use `int(...)`, which truncates toward zero (`Covid.Truncate`).
  `random.sample` accepts such a size exactly when `n * rate` lies strictly between -1 and
  `n + 1` (`Covid.SampleSize`).
- **Unknown initiators.** In the cascade, initiator ids that name no node are ignored
  (`CascadeProperties.UnknownInitiatorIgnored`). Only the epidemic raises.
- **No parameter validation:**
  - `threshold` and `p_inf` are never checked;
  - a rate outside `[0, 1]` fails only if its sample size is out of range;
  - a negative `lifespan` gives an empty `range` and an empty history.

## Model

| member | source | states |
|---|---|---|
| Cascade.InitialActivity | dynamic_population.py:38-40 | the start has one attribute per node; `CascadeProperties.InitiatorsStayActive` says exactly the initiators that are nodes are active |
| Cascade.ActiveAmong | dynamic_population.py:53 | the number of active predecessors is at most the number of predecessors; monotone and local by `CascadeProperties.ActiveAmongMonotone` and `CascadeProperties.ActiveAmongLocal` |
| Cascade.Round | dynamic_population.py:46-59 | a round keeps one attribute per node and activates exactly the nodes that join (`Joins`: inactive, with a predecessor, active fraction `>= threshold`); it is monotone by `CascadeProperties.RoundKeepsActive` |
| Cascade.Run | dynamic_population.py:42-61 | the loop's final attributes have one entry per node; they are the least fixpoint above the start by `CascadeProperties.RunIsFixpoint`, `CascadeProperties.RunKeepsActive` and `CascadeProperties.RunIsLeast` |
| Graphs.IndexOf | dynamic_population.py:78 | `G.nodes[n]` finds a node exactly when the id is in the graph, and the position found holds that id |
| Cascade.CountActiveNeighbors | dynamic_population.py:50-53 | the loop's sum is the number of active predecessors of the node, at most the number of predecessors |
| Cascade.ScanRound | dynamic_population.py:46-55 | `new_active` holds exactly the nodes that join: inactive, with a predecessor, and an active fraction `>= threshold` |
| Cascade.Activate | dynamic_population.py:58-59 | after the write-back a node is active iff it was active before or was scheduled; every other attribute is unchanged |
| Cascade.RoundStep | dynamic_population.py:44-61 | one pass of the loop body yields `Round` of the snapshot; `changed` stays false iff the round is a fixpoint; otherwise fewer nodes are inactive |
| Cascade.RoundShrinksInactive | dynamic_population.py:44-61 | a round that changes something strictly lowers the number of inactive nodes (the termination measure) |
| Cascade.Rounds | dynamic_population.py:42-61 | the loop body runs at least once and at most (initially inactive nodes) + 1 times |
| Cascade.Simulate | dynamic_population.py:37-64 | the final attributes are the fixpoint `Run` from the initiators, reached after `Rounds` passes, at most (initially inactive nodes) + 1 |
| CascadeProperties.RoundKeepsActive | dynamic_population.py:47-59 | a node active at the start of a round is active at its end |
| CascadeProperties.RunKeepsActive | dynamic_population.py:44-61 | no node active at some point of the run is ever reset |
| CascadeProperties.InitiatorsStayActive | dynamic_population.py:38-40 | at the start exactly the initiators are active, and every initiator that is a node is active at the end |
| CascadeProperties.UnknownInitiatorIgnored | dynamic_population.py:38-40 | adding an id that names no node changes nothing |
| CascadeProperties.NoPredecessorsStaysInactive | dynamic_population.py:50-52 | an inactive node without predecessors is never activated, whatever the threshold |
| CascadeProperties.NoPredecessorsOnlyIfInitiator | dynamic_population.py:38-52 | a node without predecessors is active at the end iff it is an initiator |
| CascadeProperties.RunIsFixpoint | dynamic_population.py:42-61 | when the loop stops, one more round would add nothing |
| CascadeProperties.FinalBelowThreshold | dynamic_population.py:50-57 | at the end every inactive node with a predecessor has an active fraction strictly below `threshold` |
| CascadeProperties.ActiveAmongMonotone | dynamic_population.py:53 | more active nodes never give fewer active predecessors |
| CascadeProperties.JoinsMonotone | dynamic_population.py:48-55 | a node that joins from some active set is active or joins from any larger active set |
| CascadeProperties.RunIsLeast | dynamic_population.py:42-61 | the final set is included in every set that includes the start and that a round leaves unchanged |
| CascadeProperties.ActiveAmongLocal | dynamic_population.py:53 | the sum depends only on the listed predecessors' attributes |
| CascadeProperties.JoinsIsLocal | dynamic_population.py:46-59 | whether a node joins depends only on its own and its predecessors' attributes at the start of the round (synchronous update) |
| CascadeProperties.ThresholdAboveOne | dynamic_population.py:54 | with a threshold above 1 nothing beyond the start becomes active |
| CascadeProperties.ThresholdZero | dynamic_population.py:50-55 | with a threshold of 0 or less every node with a predecessor is active after one round |
| CascadeScenarios.CycleHalfThreshold | dynamic_population.py:37-64 | on the 4-cycle from A with threshold 0.5, round 1 activates only B, all four end active, and the body runs 4 times |
| CascadeScenarios.CycleZeroThreshold | dynamic_population.py:37-64 | on the 4-cycle with threshold 0, round 1 activates all nodes, and the body runs twice |
| Covid.Truncate | dynamic_population.py:70 | `int(x)` lies within 1 of `x` on the side of zero |
| Covid.SampleSize | dynamic_population.py:70-75 | the size `int(n * rate)` is in `[0, n]` exactly when `n * rate` lies strictly between -1 and `n + 1`, so every rate in `[0, 1]` is accepted |
| Covid.EdgeScan | dynamic_population.py:88-91 | the successor loop of one infected node makes one draw per successor whose guard holds (`CovidProperties.EdgeScanUsed`); what it marks is characterised by `CovidProperties.EdgeScanEffect` |
| Covid.NodeScan | dynamic_population.py:85-92 | the node loop makes one draw per guarded edge out of an infected node (`CovidProperties.NodeScanUsed`); what it marks is characterised by `CovidProperties.NodeScanEffect` |
| CovidProperties.EdgeScanUsed | dynamic_population.py:88-90 | the successor loop uses exactly as many draws as there are successors that are susceptible and not sheltered: the short-circuit `and` skips the draw for the others |
| CovidProperties.NodeScanUsed | dynamic_population.py:85-90 | the node loop uses exactly one draw per guarded edge out of each infected node, in node order |
| CovidProperties.DayUsed | dynamic_population.py:83-95 | a day advances the draw stream by the number of guarded edges out of its infected nodes |
| Covid.Day | dynamic_population.py:83-95 | one day keeps one state per node and never takes back a draw; the per-node transitions are `CovidProperties.DayEffect` and `CovidProperties.DayTransitions` |
| Covid.Seeded | dynamic_population.py:67-79 | setup leaves one state per node; `CovidProperties.SeededStates` says exactly the initiators are infected and the rest susceptible |
| Covid.CapitalState | dynamic_population.py:72 | the unread `"State"` attribute has one entry per node; `CovidEngine.Vaccinate` writes exactly it |
| Covid.Simulation | dynamic_population.py:66-99 | the run fails exactly when setup raises, with that error; otherwise it returns one history entry per day of `range(lifespan)` and one state per node |
| CovidProperties.ShelterSetSize | dynamic_population.py:75 | a sample without repeats gives a sheltered set of the same size |
| CovidProperties.ShelteredSize | dynamic_population.py:74-75 | an accepted shelter sample gives exactly `int(len(G.nodes) * shelter)` sheltered nodes, all of them nodes of the graph |
| Covid.FirstUnknown | dynamic_population.py:77-78 | there is no result iff every initiator is a node; otherwise the result is the first initiator that is not |
| Covid.SetupError | dynamic_population.py:67-79 | setup raises iff a sample size is out of range or some initiator is not a node |
| Covid.Days | dynamic_population.py:81-96 | `t` days append exactly `t` entries to `history` and keep one state per node |
| CovidEngine.Spread | dynamic_population.py:88-91 | the successor loop of an infected node adds and consumes what the edge scan `EdgeScan` prescribes |
| CovidEngine.ScanDay | dynamic_population.py:84-93 | the node loop leaves `new_states` and the draw position as `NodeScan` prescribes, and each counter equals the number of nodes in its state |
| CovidEngine.Apply | dynamic_population.py:94-95 | after the write-back a node holds its `new_states` entry if it has one, and its old state otherwise |
| CovidEngine.ApplyIsDay | dynamic_population.py:83-95 | scanning and then writing back gives the next day's states and draw position |
| CovidEngine.Vaccinate | dynamic_population.py:71-72 | exactly the sampled nodes carry the unread `"State"` key, with value V |
| CovidEngine.SeedInitiators | dynamic_population.py:77-79 | returns the first initiator that is not a node, if any; otherwise exactly the initiators are infected and every other node is susceptible |
| CovidEngine.Setup | dynamic_population.py:67-79 | raises exactly the error `SetupError` gives; otherwise leaves the seeded states, the `"State"` attribute of the sample, and the sheltered set |
| CovidEngine.RunDays | dynamic_population.py:81-96 | the day loop returns the history and leaves the states that `Days` gives for `lifespan` days |
| CovidEngine.Simulate | dynamic_population.py:66-99 | the whole run returns what `Simulation` gives: the error that setup raises, or the history and the final attributes |
| CovidProperties.EdgeScanEffect | dynamic_population.py:88-91 | the successor loop marks exactly the targets of edges whose guard holds and whose draw succeeds, as infected |
| CovidProperties.InfectedByStep | dynamic_population.py:85-92 | taking one more node into the scan adds to the infections exactly the hits of its edges, if it is infected |
| CovidProperties.NodeScanEffect | dynamic_population.py:85-92 | `new_states` marks every scanned infected node recovered, and every other node infected exactly when a scanned infected node hits it |
| CovidProperties.DayEffect | dynamic_population.py:83-95 | after a day an infected node is recovered, a node that some infected node hits is infected, and every other node keeps its state |
| CovidProperties.DayTransitions | dynamic_population.py:83-95 | I→R; R and V never change; S goes only to S or I; a node becomes I iff it was S, unsheltered and hit; a node that becomes I has an infected predecessor |
| CovidProperties.ShelteredNotInfectedByDay | dynamic_population.py:89 | transmission never infects a sheltered node |
| CovidProperties.SusceptibleNonIncreasing | dynamic_population.py:83-95 | the number of susceptible nodes does not grow from one day to the next |
| CovidProperties.SusceptibleNonIncreasingOverRun | dynamic_population.py:81-96 | the number of susceptible nodes does not grow between any two days of a run |
| CovidProperties.CountsCoverAllNodes | dynamic_population.py:84-93 | the four counters add up to the number of nodes |
| CovidProperties.HistoryCountsInfected | dynamic_population.py:81-96 | `history` has one entry per day; entry `d` is the number of nodes infected at the start of day `d`, so at most the number of nodes |
| CovidProperties.RecoveredStays | dynamic_population.py:81-96 | a recovered node stays recovered for the rest of the run |
| CovidProperties.NeverVaccinated | dynamic_population.py:70-93 | from a start without V no day produces V, so `counts[VACCINATED]` is 0 every day |
| CovidProperties.SeededStates | dynamic_population.py:67-79 | after setup a node is infected iff it is an initiator, every other node is susceptible, and none is V |
| CovidProperties.ShelteredOnlySeeded | dynamic_population.py:75-79 | a sheltered node is infected only at the start, and only if it is an initiator |
| CovidProperties.SimulationOutcome | dynamic_population.py:66-99 | the run fails iff setup raises; otherwise `history` has `max(lifespan, 0)` entries, each at most the number of nodes, and no final state is V |
| CovidProperties.VaccinationIsNoOp | dynamic_population.py:70-79 | two runs that differ only in the vaccination sample both fail or both give the same history and states |
| CovidProperties.VaccinatedInitiatorStillInfected | dynamic_population.py:70-79 | an initiator is counted on the first day even if it was sampled as vaccinated |
| CovidScenarios.EdgeTwoDays | dynamic_population.py:81-96 | on A→B seeded with A and every draw succeeding, day 1 gives R, I and day 2 gives R, R with history `[1, 1]` |
| CovidScenarios.EdgeSimulation | dynamic_population.py:66-99 | the whole run on A→B for 2 days without sheltering or vaccination returns `[1, 1]` |
| CovidScenarios.EdgeAllVaccinated | dynamic_population.py:70-72 | with vaccination rate 1.0 both nodes are sampled, yet the run still returns `[1, 1]` |
| CovidScenarios.EdgeUnknownInitiator | dynamic_population.py:77-78 | an initiator that is not a node makes the run fail with that id |
| CovidScenarios.EdgeRateTooLarge | dynamic_population.py:70-71 | a rate of 1.5 on two nodes asks for a sample of 3 and fails |
| CovidScenarios.FanDraws | dynamic_population.py:85-92 | with A and B infected and both pointing at C, sheltering C makes the day use no draw and leave C susceptible; without sheltering it uses two draws and infects C |

## Left out

- `parse_args`, `main`, `load_graph`: command-line handling, `sys.exit` and GML file
  reading. The graph is an input value.
- `plot_graph`, `plot_history` and the `interactive` plot calls of lines 62-63 and 97-98:
  rendering, which does not change the state.
- `random.sample` and `random.random()`: their results are inputs. The comparison with
  `p_inf` is not modelled, and `p_inf` does not appear.
- Floating point: `active_neighbors / len(neighbors)` and `len(G.nodes) * rate` are exact
  real arithmetic, not IEEE doubles. `threshold` and the two rates are reals, so NaN and
  infinity cannot occur. The error paths they would open are not modelled: `int(nan)`
  raises ValueError and `int(inf)` raises OverflowError at lines 70 and 74.
- The graph object itself: the engines' node attributes are arrays local to a run, and
  their final values are returned instead of being left on `G`. The cascade returns the
  final `active` attribute by position, not `G`.
- The set `active` updated at line 60 is never read again by the source, so it is not
  modelled.
- The counter `round` of lines 43 and 61 only feeds plot titles. It is a ghost
  out-parameter of `Cascade.Simulate`.
- Attribute writes made before an exception (line 68 and line 72 before a later sample
  fails, an initiator infected before an unknown one) are not part of `Failure`, because
  the caller sees only the exception.
- `counts[state] += 1` would raise KeyError for a state other than S, I, R or V. That
  cannot happen, because the states only ever hold S, I or R.
