/** What the threshold cascade guarantees, proved about `Cascade.Round` and `Cascade.Run`. */
module CascadeProperties {
  import opened Graphs
  import opened Counting
  import opened Cascade

  /** `b` has every node active that `a` has. */
  predicate Includes(b: seq<bool>, a: seq<bool>)
    requires |a| == |b|
  {
    forall v :: 0 <= v < |a| && a[v] ==> b[v]
  }

  /** Monotonicity of one round: an active node stays active (lines 48-49 skip it and
      lines 58-59 only ever write `True`). */
  lemma RoundKeepsActive(g: Graph, act: seq<bool>, threshold: real)
    requires g.Valid() && |act| == |g.nodes|
    ensures Includes(Round(g, act, threshold), act)
  {
  }

  /** Monotonicity of the whole run: no node that is active at some round is ever reset. */
  lemma {:induction false} RunKeepsActive(g: Graph, act: seq<bool>, threshold: real)
    requires g.Valid() && |act| == |g.nodes|
    ensures Includes(Run(g, act, threshold), act)
    decreases Count(act, false)
  {
    var next := Round(g, act, threshold);
    if next != act {
      RoundShrinksInactive(g, act, threshold);
      RunKeepsActive(g, next, threshold);
    }
  }

  /** Every initiator that is a node of the graph is active at the end, and at the start
      exactly the initiators are active. */
  lemma InitiatorsStayActive(g: Graph, initiators: seq<NodeId>, threshold: real, v: nat)
    requires g.Valid() && v < |g.nodes|
    ensures InitialActivity(g, initiators)[v] <==> g.nodes[v] in initiators
    ensures g.nodes[v] in initiators ==> Run(g, InitialActivity(g, initiators), threshold)[v]
  {
    RunKeepsActive(g, InitialActivity(g, initiators), threshold);
  }

  /** An initiator id that names no node changes nothing (lines 38-40 only look up graph nodes). */
  lemma UnknownInitiatorIgnored(g: Graph, initiators: seq<NodeId>, id: NodeId)
    requires id !in g.nodes
    ensures InitialActivity(g, initiators + [id]) == InitialActivity(g, initiators)
  {
    var a, b := InitialActivity(g, initiators + [id]), InitialActivity(g, initiators);
    forall v | 0 <= v < |g.nodes| ensures a[v] == b[v] {
      assert g.nodes[v] != id;
    }
  }

  /** A node without predecessors that starts inactive is never activated, whatever the
      threshold: lines 50-52 skip it in every round. */
  lemma {:induction false} NoPredecessorsStaysInactive(g: Graph, act: seq<bool>, threshold: real, v: nat)
    requires g.Valid() && |act| == |g.nodes| && v < |g.nodes|
    requires |g.pred[v]| == 0 && !act[v]
    ensures !Run(g, act, threshold)[v]
    decreases Count(act, false)
  {
    var next := Round(g, act, threshold);
    if next != act {
      RoundShrinksInactive(g, act, threshold);
      NoPredecessorsStaysInactive(g, next, threshold, v);
    }
  }

  /** The same for a whole simulation: such a node is active at the end only if it was an initiator. */
  lemma NoPredecessorsOnlyIfInitiator(g: Graph, initiators: seq<NodeId>, threshold: real, v: nat)
    requires g.Valid() && v < |g.nodes| && |g.pred[v]| == 0
    ensures Run(g, InitialActivity(g, initiators), threshold)[v] <==> g.nodes[v] in initiators
  {
    if g.nodes[v] !in initiators {
      NoPredecessorsStaysInactive(g, InitialActivity(g, initiators), threshold, v);
    } else {
      InitiatorsStayActive(g, initiators, threshold, v);
    }
  }

  /** The loop stops at a fixpoint: one more round would add nothing. */
  lemma {:induction false} RunIsFixpoint(g: Graph, act: seq<bool>, threshold: real)
    requires g.Valid() && |act| == |g.nodes|
    ensures Round(g, Run(g, act, threshold), threshold) == Run(g, act, threshold)
    decreases Count(act, false)
  {
    var next := Round(g, act, threshold);
    if next != act {
      RoundShrinksInactive(g, act, threshold);
      RunIsFixpoint(g, next, threshold);
    }
  }

  /** On return, every inactive node with a predecessor has an active fraction below the threshold. */
  lemma FinalBelowThreshold(g: Graph, act: seq<bool>, threshold: real, v: nat)
    requires g.Valid() && |act| == |g.nodes| && v < |g.nodes|
    requires !Run(g, act, threshold)[v] && |g.pred[v]| > 0
    ensures (ActiveAmong(g.pred[v], Run(g, act, threshold)) as real) / (|g.pred[v]| as real) < threshold
  {
    var final := Run(g, act, threshold);
    RunIsFixpoint(g, act, threshold);
    assert Round(g, final, threshold)[v] == final[v];
  }

  /** Counting active nodes is monotone in the set of active nodes. */
  lemma {:induction false} ActiveAmongMonotone(ps: seq<nat>, a: seq<bool>, b: seq<bool>)
    requires |a| == |b| && Below(ps, |a|) && Includes(b, a)
    ensures ActiveAmong(ps, a) <= ActiveAmong(ps, b)
  {
    if ps != [] {
      ActiveAmongMonotone(ps[..|ps| - 1], a, b);
    }
  }

  /** The active fraction of a node only reaches the threshold from more active predecessors,
      so a node that joins from `a` has joined or joins from any `b` that includes `a`. */
  lemma JoinsMonotone(g: Graph, a: seq<bool>, b: seq<bool>, v: nat, threshold: real)
    requires g.Valid() && |a| == |g.nodes| && |b| == |g.nodes| && v < |g.nodes|
    requires Includes(b, a) && Joins(g, a, v, threshold)
    ensures b[v] || Joins(g, b, v, threshold)
  {
    var ps := g.pred[v];
    ActiveAmongMonotone(ps, a, b);
    if !b[v] {
      QuotientMonotone(ActiveAmong(ps, a) as real, ActiveAmong(ps, b) as real, |ps| as real);
    }
  }

  /** Dividing by a positive count keeps the order of two active counts. */
  lemma QuotientMonotone(x: real, y: real, p: real)
    requires x <= y && p > 0.0
    ensures x / p <= y / p
  {
    assert y / p - x / p == (y - x) / p;
  }

  /** The final active set is the least set that includes the start and is closed under a
      round: any such set includes it. */
  lemma {:induction false} RunIsLeast(g: Graph, act: seq<bool>, closed: seq<bool>, threshold: real)
    requires g.Valid() && |act| == |g.nodes| && |closed| == |g.nodes|
    requires Includes(closed, act) && Round(g, closed, threshold) == closed
    ensures Includes(closed, Run(g, act, threshold))
    decreases Count(act, false)
  {
    var next := Round(g, act, threshold);
    forall v | 0 <= v < |act| && next[v] ensures closed[v] {
      if !act[v] {
        JoinsMonotone(g, act, closed, v, threshold);
        assert Round(g, closed, threshold)[v] == closed[v];
      }
    }
    if next != act {
      RoundShrinksInactive(g, act, threshold);
      RunIsLeast(g, next, closed, threshold);
    }
  }

  /** Counting active nodes looks only at the listed nodes. */
  lemma {:induction false} ActiveAmongLocal(ps: seq<nat>, a: seq<bool>, b: seq<bool>)
    requires |a| == |b| && Below(ps, |a|)
    requires forall i :: 0 <= i < |ps| ==> a[ps[i]] == b[ps[i]]
    ensures ActiveAmong(ps, a) == ActiveAmong(ps, b)
  {
    if ps != [] {
      ActiveAmongLocal(ps[..|ps| - 1], a, b);
    }
  }

  /** Synchronous update: whether `v` joins depends only on `v` and its predecessors in the
      snapshot the round started from, never on what the same round schedules elsewhere. */
  lemma JoinsIsLocal(g: Graph, a: seq<bool>, b: seq<bool>, v: nat, threshold: real)
    requires g.Valid() && |a| == |g.nodes| && |b| == |g.nodes| && v < |g.nodes|
    requires a[v] == b[v]
    requires forall i :: 0 <= i < |g.pred[v]| ==> a[g.pred[v][i]] == b[g.pred[v][i]]
    ensures Joins(g, a, v, threshold) == Joins(g, b, v, threshold)
  {
    ActiveAmongLocal(g.pred[v], a, b);
  }

  /** A threshold above 1 is never met, so nothing beyond the initiators becomes active. */
  lemma ThresholdAboveOne(g: Graph, act: seq<bool>, threshold: real)
    requires g.Valid() && |act| == |g.nodes| && threshold > 1.0
    ensures Run(g, act, threshold) == act
  {
    var next := Round(g, act, threshold);
    forall v | 0 <= v < |act| ensures next[v] == act[v] {
      var ps := g.pred[v];
      if |ps| > 0 {
        QuotientMonotone(ActiveAmong(ps, act) as real, |ps| as real, |ps| as real);
        assert (|ps| as real) / (|ps| as real) == 1.0;
        assert !Joins(g, act, v, threshold);
      }
    }
    assert next == act;
  }

  /** With a threshold of 0 or less the comparison `>=` holds even for no active predecessor,
      so every node with a predecessor is active after the first round. */
  lemma ThresholdZero(g: Graph, act: seq<bool>, threshold: real, v: nat)
    requires g.Valid() && |act| == |g.nodes| && v < |g.nodes| && threshold <= 0.0
    requires |g.pred[v]| > 0
    ensures Round(g, act, threshold)[v]
  {
    var p, c := |g.pred[v]| as real, ActiveAmong(g.pred[v], act) as real;
    assert c / p >= 0.0;
  }
}
