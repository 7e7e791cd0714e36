/** The deterministic threshold cascade, `cascade_simulation` in dynamic_population.py.
    `act[v]` stands for the attribute `G.nodes[v]["active"]` of the node at position `v`. */
module Cascade {
  import opened Graphs
  import opened Counting

  /** The attributes after lines 38-40: active exactly for the nodes named as initiators.
      Initiator ids that name no node have no position and so are ignored. */
  function InitialActivity(g: Graph, initiators: seq<NodeId>): (act: seq<bool>)
    ensures |act| == |g.nodes|
  {
    seq(|g.nodes|, v requires 0 <= v < |g.nodes| => g.nodes[v] in initiators)
  }

  /** How many of the nodes listed in `ps` are active: the sum on line 53. */
  function ActiveAmong(ps: seq<nat>, act: seq<bool>): (c: nat)
    requires Below(ps, |act|)
    ensures c <= |ps|
  {
    if ps == [] then 0
    else ActiveAmong(ps[..|ps| - 1], act) + (if act[ps[|ps| - 1]] then 1 else 0)
  }

  /** Whether node `v` goes into `new_active` in a round that starts from `act` (lines 48-55):
      it is inactive, has a predecessor, and its active fraction reaches the threshold. */
  predicate Joins(g: Graph, act: seq<bool>, v: nat, threshold: real)
    requires g.Valid() && |act| == |g.nodes| && v < |g.nodes|
  {
    var ps := g.pred[v];
    !act[v] && |ps| > 0 && (ActiveAmong(ps, act) as real) / (|ps| as real) >= threshold
  }

  /** One round of the `while changed` loop: every node that joins is set active at once. */
  function Round(g: Graph, act: seq<bool>, threshold: real): (next: seq<bool>)
    requires g.Valid() && |act| == |g.nodes|
    ensures |next| == |act|
  {
    seq(|act|, v requires 0 <= v < |act| => act[v] || Joins(g, act, v, threshold))
  }

  /** A round that changes something activates at least one node and deactivates none. */
  lemma RoundShrinksInactive(g: Graph, act: seq<bool>, threshold: real)
    requires g.Valid() && |act| == |g.nodes|
    requires Round(g, act, threshold) != act
    ensures Count(Round(g, act, threshold), false) < Count(act, false)
  {
    var next := Round(g, act, threshold);
    var v :| 0 <= v < |act| && next[v] != act[v];
    CountPointwise(act, next, false);
  }

  /** The attributes when the loop stops: rounds are repeated until one adds nothing. */
  function Run(g: Graph, act: seq<bool>, threshold: real): (final: seq<bool>)
    requires g.Valid() && |act| == |g.nodes|
    ensures |final| == |act|
    decreases Count(act, false)
  {
    var next := Round(g, act, threshold);
    if next == act then act
    else
      RoundShrinksInactive(g, act, threshold);
      Run(g, next, threshold)
  }

  /** How many times the body of the `while changed` loop runs, the last, empty round included.
      It never exceeds the number of initially inactive nodes plus one. */
  function Rounds(g: Graph, act: seq<bool>, threshold: real): (k: nat)
    requires g.Valid() && |act| == |g.nodes|
    ensures 1 <= k <= Count(act, false) + 1
    decreases Count(act, false)
  {
    var next := Round(g, act, threshold);
    if next == act then 1
    else
      RoundShrinksInactive(g, act, threshold);
      1 + Rounds(g, next, threshold)
  }

  /** The sum on line 53: how many predecessors of `v` are active in `active`. */
  method CountActiveNeighbors(g: Graph, active: array<bool>, v: nat) returns (count: nat)
    requires g.Valid() && active.Length == |g.nodes| && v < |g.nodes|
    ensures count == ActiveAmong(g.pred[v], active[..])
    ensures count <= |g.pred[v]|
  {
    var neighbors := g.pred[v];
    count := 0;
    for k := 0 to |neighbors|
      invariant count == ActiveAmong(neighbors[..k], active[..])
    {
      assert neighbors[..k + 1][..k] == neighbors[..k];
      if active[neighbors[k]] {
        count := count + 1;
      }
    }
    assert neighbors[..|neighbors|] == neighbors;
  }

  /** Lines 46-55: the nodes that join in this round, all judged against the same,
      unmodified attributes. */
  method ScanRound(g: Graph, active: array<bool>, threshold: real) returns (newActive: set<nat>)
    requires g.Valid() && active.Length == |g.nodes|
    ensures forall u: nat :: u in newActive <==> (u < |g.nodes| && Joins(g, active[..], u, threshold))
  {
    newActive := {};
    for v := 0 to |g.nodes|
      invariant forall u: nat :: u in newActive <==> (u < v && Joins(g, active[..], u, threshold))
    {
      if active[v] {
        continue;
      }
      var neighbors := g.pred[v];
      if |neighbors| == 0 {
        continue;
      }
      var activeNeighbors := CountActiveNeighbors(g, active, v);
      if (activeNeighbors as real) / (|neighbors| as real) >= threshold {
        newActive := newActive + {v};
      }
    }
  }

  /** Lines 58-59: every scheduled node is set active, in the set's iteration order. */
  method Activate(active: array<bool>, newActive: set<nat>)
    requires forall u :: u in newActive ==> u < active.Length
    modifies active
    ensures forall u :: 0 <= u < active.Length ==> active[u] == (old(active[u]) || u in newActive)
  {
    var pending := newActive;
    while pending != {}
      invariant pending <= newActive
      invariant forall u :: 0 <= u < active.Length ==> active[u] == (old(active[u]) || (u in newActive && u !in pending))
      decreases pending
    {
      var u :| u in pending;
      active[u] := true;
      pending := pending - {u};
    }
  }

  /** `cascade_simulation(G, initiators, threshold)`: the final `active` attribute of every
      node, by position, and (as a ghost) the number of rounds the loop ran. */
  method Simulate(g: Graph, initiators: seq<NodeId>, threshold: real) returns (final: seq<bool>, ghost rounds: nat)
    requires g.Valid()
    ensures final == Run(g, InitialActivity(g, initiators), threshold)
    ensures rounds == Rounds(g, InitialActivity(g, initiators), threshold)
    ensures rounds <= Count(InitialActivity(g, initiators), false) + 1
  {
    var n := |g.nodes|;
    var active := new bool[n];
    for v := 0 to n
      invariant forall u :: 0 <= u < v ==> active[u] == (g.nodes[u] in initiators)
    {
      active[v] := g.nodes[v] in initiators;
    }
    ghost var start := active[..];
    assert start == InitialActivity(g, initiators);

    var changed := true;
    rounds := 0;
    while changed
      invariant changed ==> Run(g, active[..], threshold) == Run(g, start, threshold)
      invariant changed ==> rounds + Rounds(g, active[..], threshold) == Rounds(g, start, threshold)
      invariant !changed ==> active[..] == Run(g, start, threshold)
      invariant !changed ==> rounds == Rounds(g, start, threshold)
      decreases Count(active[..], false) + (if changed then 1 else 0)
    {
      changed := false;
      ghost var snapshot := active[..];
      var newActive := ScanRound(g, active, threshold);
      if newActive != {} {
        changed := true;
        Activate(active, newActive);
      }
      RoundStep(g, snapshot, active[..], newActive, threshold);
      rounds := rounds + 1;
    }
    final := active[..];
  }

  /** What one pass of the loop body does to the attributes, in terms of `Round`. */
  lemma RoundStep(g: Graph, snapshot: seq<bool>, after: seq<bool>, newActive: set<nat>, threshold: real)
    requires g.Valid() && |snapshot| == |g.nodes| && |after| == |g.nodes|
    requires forall u: nat :: u in newActive <==> (u < |g.nodes| && Joins(g, snapshot, u, threshold))
    requires forall u :: 0 <= u < |g.nodes| ==> after[u] == (snapshot[u] || u in newActive)
    ensures after == Round(g, snapshot, threshold)
    ensures newActive == {} <==> Round(g, snapshot, threshold) == snapshot
    ensures newActive != {} ==> Count(after, false) < Count(snapshot, false)
  {
    var next := Round(g, snapshot, threshold);
    assert after == next;
    if newActive != {} {
      var u :| u in newActive;
      assert !snapshot[u] && next[u];
      RoundShrinksInactive(g, snapshot, threshold);
    } else {
      assert forall u :: 0 <= u < |g.nodes| ==> next[u] == snapshot[u];
    }
  }
}
