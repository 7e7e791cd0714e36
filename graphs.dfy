/** The directed graph both engines run on: a networkx DiGraph whose node set and edge set
    stay fixed during a run. */
module Graphs {
  import opened Wrappers

  /** Node identifiers are the graph's labels; the command line passes initiators as strings. */
  type NodeId = string

  predicate Distinct<T(==)>(s: seq<T>) {
    forall i, j :: 0 <= i < j < |s| ==> s[i] != s[j]
  }

  /** Every entry of `s` is the position of a node of a graph with `n` nodes. */
  predicate Below(s: seq<nat>, n: nat) {
    forall i :: 0 <= i < |s| ==> s[i] < n
  }

  /** A node is addressed by its position in `nodes`, the iteration order of `G.nodes`.
      `succ[u]` lists the successors of node `u` and `pred[v]` the predecessors of node `v`,
      each in the graph's own adjacency order, as a DiGraph keeps both adjacency maps. */
  datatype Graph = Graph(nodes: seq<NodeId>, succ: seq<seq<nat>>, pred: seq<seq<nat>>)
  {
    /** The two adjacency maps describe one directed edge set without parallel edges (self-loops allowed) over distinct nodes. */
    predicate Valid() {
      && |succ| == |nodes| && |pred| == |nodes|
      && Distinct(nodes)
      && (forall u :: 0 <= u < |nodes| ==> Distinct(succ[u]) && Below(succ[u], |nodes|))
      && (forall v :: 0 <= v < |nodes| ==> Distinct(pred[v]) && Below(pred[v], |nodes|))
      && (forall u, v :: 0 <= u < |nodes| && 0 <= v < |nodes| ==> (v in succ[u] <==> u in pred[v]))
    }
  }

  /** The lookup `G.nodes[id]`: the position of `id`, or None where networkx raises KeyError. */
  function IndexOf(nodes: seq<NodeId>, id: NodeId): (r: Option<nat>)
    ensures r.None? <==> id !in nodes
    ensures r.Some? ==> r.value < |nodes| && nodes[r.value] == id
  {
    if nodes == [] then None
    else if nodes[0] == id then Some(0)
    else match IndexOf(nodes[1..], id)
      case None => None
      case Some(i) => Some(i + 1)
  }
}
