/** Finite successor graphs, their paths, reachability and dominance. */
module Graphs {

  /** A decode key, known here only by its identity: the flow-graph passes compare and look up
      keys but never take one apart, so a key is represented by a number of its own. */
  type Node = int

  /** Each node with its successors in order. A successor outside the domain leaves the graph. */
  type Graph = map<Node, seq<Node>>

  ghost predicate IsPath(g: Graph, p: seq<Node>) {
    && |p| > 0
    && (forall i :: 0 <= i < |p| ==> p[i] in g)
    && (forall i :: 0 <= i < |p| - 1 ==> p[i + 1] in g[p[i]])
  }

  ghost predicate PathFromTo(g: Graph, a: Node, p: seq<Node>, b: Node) {
    IsPath(g, p) && p[0] == a && p[|p| - 1] == b
  }

  ghost predicate Reachable(g: Graph, a: Node, b: Node) {
    exists p :: PathFromTo(g, a, p, b)
  }

  /** Every path from `entry` to the reachable node `n` runs through `d`. */
  ghost predicate Dominates(g: Graph, entry: Node, d: Node, n: Node) {
    && Reachable(g, entry, n)
    && (forall p :: PathFromTo(g, entry, p, n) ==> d in p)
  }

  ghost predicate StrictlyDominates(g: Graph, entry: Node, d: Node, n: Node) {
    d != n && Dominates(g, entry, d, n)
  }

  /** The strict dominator of `n` that every other strict dominator of `n` dominates. */
  ghost predicate ImmediatelyDominates(g: Graph, entry: Node, d: Node, n: Node) {
    && StrictlyDominates(g, entry, d, n)
    && (forall c :: StrictlyDominates(g, entry, c, n) ==> Dominates(g, entry, c, d))
  }

  lemma PathJoin(g: Graph, a: Node, p: seq<Node>, b: Node, q: seq<Node>, c: Node)
    requires PathFromTo(g, a, p, b) && PathFromTo(g, b, q, c)
    ensures PathFromTo(g, a, p + q[1..], c)
  {
    var r := p + q[1..];
    assert forall i :: |p| - 1 <= i < |r| ==> r[i] == q[i - |p| + 1];
  }

  lemma PathStep(g: Graph, a: Node, p: seq<Node>, b: Node, c: Node)
    requires PathFromTo(g, a, p, b) && c in g && c in g[b]
    ensures PathFromTo(g, a, p + [c], c)
  {
  }

  lemma ReachableStep(g: Graph, a: Node, b: Node, c: Node)
    requires Reachable(g, a, b) && c in g && c in g[b]
    ensures Reachable(g, a, c)
  {
    var p :| PathFromTo(g, a, p, b);
    PathStep(g, a, p, b, c);
  }

  lemma ReachableSelf(g: Graph, a: Node)
    requires a in g
    ensures Reachable(g, a, a)
  {
    assert PathFromTo(g, a, [a], a);
  }

  /** A node other than `n` that dominates `n` dominates every reachable predecessor of `n`. */
  lemma DominatesPredecessor(g: Graph, entry: Node, d: Node, p: Node, n: Node)
    requires StrictlyDominates(g, entry, d, n)
    requires Reachable(g, entry, p) && n in g && n in g[p]
    ensures Dominates(g, entry, d, p)
  {
    forall q | PathFromTo(g, entry, q, p)
      ensures d in q
    {
      PathStep(g, entry, q, p, n);
      assert d in q + [n];
    }
  }
}
