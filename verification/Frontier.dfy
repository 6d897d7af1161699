/** `_compute_dominance_frontier` against the textbook definition of the dominance frontier. */
module Frontier {
  import opened Graphs
  import opened DomTree
  import opened DomInvariants
  import opened Dominators

  /** `x` dominates a predecessor of `y` without strictly dominating `y`. */
  ghost predicate InFrontier(g: Graph, entry: Node, x: Node, y: Node) {
    y in g && !StrictlyDominates(g, entry, x, y) &&
    exists p :: p in g && y in g[p] && Dominates(g, entry, x, p)
  }

  // ----- Dominance is a partial order -----

  lemma PathPrefix(g: Graph, a: Node, p: seq<Node>, b: Node, i: nat)
    requires PathFromTo(g, a, p, b) && i < |p|
    ensures PathFromTo(g, a, p[..i + 1], p[i])
  {
  }

  lemma DominanceTransitive(g: Graph, entry: Node, a: Node, b: Node, n: Node)
    requires Dominates(g, entry, a, b) && Dominates(g, entry, b, n)
    ensures Dominates(g, entry, a, n)
  {
    forall p | PathFromTo(g, entry, p, n)
      ensures a in p
    {
      var i :| 0 <= i < |p| && p[i] == b;
      PathPrefix(g, entry, p, n, i);
      assert a in p[..i + 1];
    }
  }

  lemma {:induction false} NoMutualDominance(g: Graph, entry: Node, a: Node, b: Node, p: seq<Node>)
    requires a != b && Dominates(g, entry, a, b) && Dominates(g, entry, b, a) && PathFromTo(g, entry, p, b)
    ensures false
    decreases |p|
  {
    var i :| 0 <= i < |p| && p[i] == a;
    PathPrefix(g, entry, p, b, i);
    var q := p[..i + 1];
    var j :| 0 <= j < |q| && q[j] == b;
    PathPrefix(g, entry, q, a, j);
    NoMutualDominance(g, entry, a, b, q[..j + 1]);
  }

  lemma DominanceAntisymmetric(g: Graph, entry: Node, a: Node, b: Node)
    requires Dominates(g, entry, a, b) && Dominates(g, entry, b, a)
    ensures a == b
  {
    var p :| PathFromTo(g, entry, p, b);
    if a != b { NoMutualDominance(g, entry, a, b, p); }
  }

  // ----- The immediate-dominator map as a tree -----

  ghost function DominatorsOf(g: Graph, entry: Node, n: Node): set<Node> {
    set d | d in g && Dominates(g, entry, d, n)
  }

  ghost function Depths(g: Graph, entry: Node, idom: map<Node, Node>): Index {
    map n | n in idom :: |DominatorsOf(g, entry, n)|
  }

  lemma StrictSubsetSmaller(a: set<Node>, b: set<Node>)
    requires a < b
    ensures |a| < |b|
  {
    assert b == a + (b - a) && b - a != {};
  }

  lemma DepthDrops(g: Graph, entry: Node, idom: map<Node, Node>, n: Node)
    requires DominatorMap(g, entry, idom) && n in idom && n != entry
    ensures idom[n] in idom && Depths(g, entry, idom)[idom[n]] < Depths(g, entry, idom)[n]
  {
    var j := idom[n];
    assert ImmediatelyDominates(g, entry, j, n);
    var p :| PathFromTo(g, entry, p, n);
    var i :| 0 <= i < |p| && p[i] == j;
    PathPrefix(g, entry, p, n, i);
    assert Reachable(g, entry, j);
    forall d | Dominates(g, entry, d, j)
      ensures Dominates(g, entry, d, n)
    {
      DominanceTransitive(g, entry, d, j, n);
    }
    if Dominates(g, entry, n, j) { DominanceAntisymmetric(g, entry, n, j); assert false; }
    assert n in DominatorsOf(g, entry, n) && n !in DominatorsOf(g, entry, j);
    StrictSubsetSmaller(DominatorsOf(g, entry, j), DominatorsOf(g, entry, n));
  }

  lemma DominatorTree(g: Graph, entry: Node, idom: map<Node, Node>) returns (idx: Index)
    requires DominatorMap(g, entry, idom)
    ensures Tree(idom, idx, entry)
    ensures idom.Keys <= g.Keys
  {
    idx := Depths(g, entry, idom);
    forall n | n in idom
      ensures n in g
    {
      assert Reachable(g, entry, n);
    }
    forall n | n in idom && n != entry
      ensures idom[n] in idom && Depths(g, entry, idom)[idom[n]] < Depths(g, entry, idom)[n]
    {
      DepthDrops(g, entry, idom, n);
    }
  }

  /** The ancestors of a block in the dominator tree are its dominators. */
  lemma {:induction false} AncestorsDominate(g: Graph, entry: Node, idom: map<Node, Node>, idx: Index, a: Node, n: Node)
    requires DominatorMap(g, entry, idom) && Tree(idom, idx, entry) && n in idom
    ensures Anc(idom, idx, a, n) <==> Dominates(g, entry, a, n)
    decreases idx[n]
  {
    if a == n {
      assert forall p :: PathFromTo(g, entry, p, n) ==> p[|p| - 1] == n;
    } else if n == entry {
      assert PathFromTo(g, entry, [entry], entry);
    } else {
      var j := idom[n];
      assert ImmediatelyDominates(g, entry, j, n);
      AncestorsDominate(g, entry, idom, idx, a, j);
      if Dominates(g, entry, a, j) { DominanceTransitive(g, entry, a, j, n); }
    }
  }

  // ----- The computation -----

  /** What the walk from the predecessors of `y` up to its immediate dominator collects. */
  ghost predicate Collected(g: Graph, preds: map<Node, seq<Node>>, entry: Node, x: Node, y: Node) {
    y in preds && |preds[y]| >= 2 && (y == entry ==> x != entry) && InFrontier(g, entry, x, y)
  }

  /** Up the tree from `p`, everything strictly below `stop`. */
  ghost predicate OnWalk(idom: map<Node, Node>, idx: Index, x: Node, p: Node, stop: Node) {
    Anc(idom, idx, x, p) && !Anc(idom, idx, x, stop)
  }

  /** Adds `node` to the frontier of every block on the walk from `p`. */
  method WalkUp(idom: map<Node, Node>, ghost idx: Index, ghost entry: Node, p: Node, node: Node,
                start: map<Node, set<Node>>)
    returns (df: map<Node, set<Node>>)
    requires Tree(idom, idx, entry) && p in idom && node in idom && Anc(idom, idx, idom[node], p)
    requires idom.Keys <= start.Keys
    ensures df.Keys == start.Keys
    ensures forall x, y :: x in df ==>
              (y in df[x] <==> y in start[x] || (y == node && OnWalk(idom, idx, x, p, idom[node])))
  {
    df := start;
    var runner := p;
    while runner != idom[node] && runner in idom
      invariant runner in idom && df.Keys == start.Keys
      invariant Anc(idom, idx, runner, p) && Anc(idom, idx, idom[node], runner)
      invariant forall x, y :: x in df ==>
                  (y in df[x] <==> y in start[x] || (y == node && OnWalk(idom, idx, x, p, runner)))
      decreases idx[runner]
    {
      df := df[runner := df[runner] + {node}];
      var next := idom[runner];
      WalkStep(idom, idx, entry, p, runner, idom[node]);
      if next == runner {
        break;
      }
      runner := next;
    }
  }

  lemma WalkStep(idom: map<Node, Node>, idx: Index, entry: Node, p: Node, runner: Node, stop: Node)
    requires Tree(idom, idx, entry) && p in idom && Anc(idom, idx, runner, p)
    requires runner in idom && stop != runner && stop in idom && Anc(idom, idx, stop, runner)
    ensures runner != entry && idom[runner] != runner && Anc(idom, idx, idom[runner], p)
    ensures Anc(idom, idx, stop, idom[runner])
    ensures forall x :: OnWalk(idom, idx, x, p, idom[runner]) <==> x == runner || OnWalk(idom, idx, x, p, runner)
  {
    AncIndex(idom, idx, entry, stop, runner);
    AncEntry(idom, idx, entry, stop);
    AncIndex(idom, idx, entry, entry, stop);
    AncTransitive(idom, idx, entry, idom[runner], runner, p);
    if Anc(idom, idx, runner, idom[runner]) { AncIndex(idom, idx, entry, runner, idom[runner]); assert false; }
  }

  lemma ReachesNode(g: Graph, entry: Node, idom: map<Node, Node>, p: Node, node: Node)
    requires DominatorMap(g, entry, idom) && p in idom && node in g && p in g && node in g[p]
    ensures node in idom && Dominates(g, entry, idom[node], p)
  {
    ReachableStep(g, entry, p, node);
    if node == entry {
      assert forall q :: PathFromTo(g, entry, q, p) ==> q[0] == entry;
    } else {
      assert ImmediatelyDominates(g, entry, idom[node], node);
      DominatesPredecessor(g, entry, idom[node], p, node);
    }
  }

  /** Membership in the walks towards `node`, in terms of paths. */
  lemma WalkMeaning(g: Graph, entry: Node, idom: map<Node, Node>, idx: Index, p: Node, node: Node, x: Node)
    requires DominatorMap(g, entry, idom) && Tree(idom, idx, entry)
    requires p in idom && node in idom
    ensures OnWalk(idom, idx, x, p, idom[node]) <==>
            Dominates(g, entry, x, p) && !StrictlyDominates(g, entry, x, node) && (node == entry ==> x != entry)
  {
    var j := idom[node];
    AncestorsDominate(g, entry, idom, idx, x, p);
    AncestorsDominate(g, entry, idom, idx, x, j);
    AncestorsDominate(g, entry, idom, idx, x, node);
    if node == entry {
      AncestorsDominate(g, entry, idom, idx, x, entry);
    } else {
      assert ImmediatelyDominates(g, entry, j, node);
      if x == node {
        if Dominates(g, entry, node, j) { DominanceAntisymmetric(g, entry, node, j); }
      }
    }
  }

  /** Every path to a block with the single predecessor `p` comes through `p` and its dominators. */
  lemma ThroughPredecessor(g: Graph, preds: map<Node, seq<Node>>, entry: Node, x: Node, p: Node, y: Node, q: seq<Node>)
    requires Transposes(g, preds) && y in preds && y != entry && |preds[y]| < 2 && p in g && y in g[p]
    requires Dominates(g, entry, x, p) && PathFromTo(g, entry, q, y)
    ensures p in q && x in q
  {
    var k := q[|q| - 2];
    assert q[|q| - 2 + 1] in g[k] && k in preds[y] && p in preds[y];
    assert PathFromTo(g, entry, q[..|q| - 1], p);
    assert p in q[..|q| - 1] && x in q[..|q| - 1];
  }

  /** A reachable block other than the entry whose predecessor list has one element is in no frontier. */
  lemma SinglePredecessor(g: Graph, preds: map<Node, seq<Node>>, entry: Node, x: Node, y: Node)
    requires Transposes(g, preds) && y in preds && y != entry && |preds[y]| < 2
    ensures !InFrontier(g, entry, x, y)
  {
    if InFrontier(g, entry, x, y) {
      var p :| p in g && y in g[p] && Dominates(g, entry, x, p);
      ReachableStep(g, entry, p, y);
      forall q | PathFromTo(g, entry, q, y)
        ensures p in q && x in q
      {
        ThroughPredecessor(g, preds, entry, x, p, y, q);
      }
      assert Dominates(g, entry, x, y) && Dominates(g, entry, p, y);
      NotItsOwn(g, preds, entry, p, y);
    }
  }

  /** Such a block does not dominate its predecessor. */
  lemma NotItsOwn(g: Graph, preds: map<Node, seq<Node>>, entry: Node, p: Node, y: Node)
    requires Transposes(g, preds) && y in preds && y != entry && |preds[y]| < 2 && p in g && y in g[p]
    requires Dominates(g, entry, y, p) && Dominates(g, entry, p, y)
    ensures false
  {
    if p == y {
      var q :| PathFromTo(g, entry, q, y);
      OnlySelfPredecessor(g, preds, entry, y, q);
    } else {
      DominanceAntisymmetric(g, entry, y, p);
    }
  }

  lemma {:induction false} OnlySelfPredecessor(g: Graph, preds: map<Node, seq<Node>>, entry: Node,
                                             y: Node, q: seq<Node>)
    requires Transposes(g, preds) && y in preds && y != entry && |preds[y]| < 2 && y in g[y]
    requires PathFromTo(g, entry, q, y)
    ensures false
    decreases |q|
  {
    var k := q[|q| - 2];
    assert q[|q| - 2 + 1] in g[k] && k in preds[y] && y in preds[y];
    OnlySelfPredecessor(g, preds, entry, y, q[..|q| - 1]);
  }

  /** For every block but the entry, the collected set is the dominance frontier. */
  lemma FrontierExact(g: Graph, preds: map<Node, seq<Node>>, entry: Node, x: Node, y: Node)
    requires Transposes(g, preds) && y != entry
    ensures Collected(g, preds, entry, x, y) <==> InFrontier(g, entry, x, y)
  {
    if y in g && |preds[y]| < 2 {
      SinglePredecessor(g, preds, entry, x, y);
    }
  }

  /** At the entry the two agree for all blocks exactly when no reachable block jumps back to it. */
  lemma FrontierAtEntry(g: Graph, preds: map<Node, seq<Node>>, entry: Node)
    requires Transposes(g, preds) && entry in g
    ensures (forall x :: Collected(g, preds, entry, x, entry) <==> InFrontier(g, entry, x, entry)) <==>
            (forall p :: p in preds[entry] ==> !Reachable(g, entry, p))
  {
    if p :| p in preds[entry] && Reachable(g, entry, p) {
      assert forall q :: PathFromTo(g, entry, q, p) ==> q[0] == entry;
      assert Dominates(g, entry, entry, p);
      assert InFrontier(g, entry, entry, entry) && !Collected(g, preds, entry, entry, entry);
    }
  }

  /** A two-block loop whose header is the entry: the entry lies in its own frontier, uncollected. */
  lemma EntryLoopMissed()
    ensures var g := map[0 := [1], 1 := [0]];
            InFrontier(g, 0, 0, 0) && !Collected(g, map[0 := [1], 1 := [0]], 0, 0, 0)
  {
    var g: Graph := map[0 := [1], 1 := [0]];
    assert PathFromTo(g, 0, [0, 1], 1);
    assert forall q :: PathFromTo(g, 0, q, 1) ==> q[0] == 0;
    assert Dominates(g, 0, 0, 1);
  }

  /** The walks from the first `k` predecessors of `node`. */
  ghost predicate OnSomeWalk(idom: map<Node, Node>, idx: Index, ps: seq<Node>, k: nat, x: Node, node: Node) {
    k <= |ps| && node in idom && exists j :: 0 <= j < k && ps[j] in idom && OnWalk(idom, idx, x, ps[j], idom[node])
  }

  /** From a predecessor in the tree the walk comes to the parent of `node`. */
  ghost predicate Climbs(idom: map<Node, Node>, idx: Index, ps: seq<Node>, node: Node) {
    forall p :: p in ps && p in idom ==> node in idom && Anc(idom, idx, idom[node], p)
  }

  /** All walks towards one block. */
  method WalkFromPreds(idom: map<Node, Node>, ghost idx: Index, ghost entry: Node, ps: seq<Node>, node: Node,
                       start: map<Node, set<Node>>)
    returns (df: map<Node, set<Node>>)
    requires Tree(idom, idx, entry) && idom.Keys <= start.Keys && Climbs(idom, idx, ps, node)
    ensures df.Keys == start.Keys
    ensures forall x, y :: x in df ==>
              (y in df[x] <==> y in start[x] || (y == node && OnSomeWalk(idom, idx, ps, |ps|, x, node)))
  {
    df := start;
    var k := 0;
    while k < |ps|
      invariant 0 <= k <= |ps| && df.Keys == start.Keys
      invariant forall x, y :: x in df ==>
                  (y in df[x] <==> y in start[x] || (y == node && OnSomeWalk(idom, idx, ps, k, x, node)))
    {
      var p := ps[k];
      if p in idom {
        df := WalkUp(idom, idx, entry, p, node, df);
      }
      OneMoreWalk(idom, idx, ps, k, node);
      k := k + 1;
    }
  }

  lemma OneMoreWalk(idom: map<Node, Node>, idx: Index, ps: seq<Node>, k: nat, node: Node)
    requires k < |ps|
    ensures forall x :: OnSomeWalk(idom, idx, ps, k + 1, x, node) <==>
                          OnSomeWalk(idom, idx, ps, k, x, node) ||
                          (ps[k] in idom && node in idom && OnWalk(idom, idx, x, ps[k], idom[node]))
  {
  }

  lemma WalksMeaning(g: Graph, preds: map<Node, seq<Node>>, entry: Node, idom: map<Node, Node>,
                     idx: Index, node: Node, x: Node)
    requires DominatorMap(g, entry, idom) && Tree(idom, idx, entry) && Transposes(g, preds) && node in preds
    ensures OnSomeWalk(idom, idx, preds[node], |preds[node]|, x, node) <==>
            InFrontier(g, entry, x, node) && (node == entry ==> x != entry)
  {
    var ps := preds[node];
    if OnSomeWalk(idom, idx, ps, |ps|, x, node) {
      var j :| 0 <= j < |ps| && ps[j] in idom && OnWalk(idom, idx, x, ps[j], idom[node]);
      var p := ps[j];
      assert p in preds[node];
      WalkMeaning(g, entry, idom, idx, p, node, x);
    }
    if InFrontier(g, entry, x, node) && (node == entry ==> x != entry) {
      var p :| p in g && node in g[p] && Dominates(g, entry, x, p);
      assert p in preds[node];
      ReachesNode(g, entry, idom, p, node);
      WalkMeaning(g, entry, idom, idx, p, node, x);
      var j :| 0 <= j < |ps| && ps[j] == p;
      assert OnWalk(idom, idx, x, ps[j], idom[node]);
    }
  }

  lemma NothingDominates(g: Graph, entry: Node)
    requires entry !in g
    ensures forall d, n :: !Dominates(g, entry, d, n)
  {
  }

  /** `x` lies on a walk towards `y`, which has several predecessors. */
  ghost predicate Walks(idom: map<Node, Node>, idx: Index, preds: map<Node, seq<Node>>, x: Node, y: Node) {
    y in preds && |preds[y]| >= 2 && OnSomeWalk(idom, idx, preds[y], |preds[y]|, x, y)
  }

  lemma WalksIsCollected(g: Graph, preds: map<Node, seq<Node>>, entry: Node, idom: map<Node, Node>, idx: Index,
                         x: Node, y: Node)
    requires DominatorMap(g, entry, idom) && Tree(idom, idx, entry) && Transposes(g, preds)
    ensures Walks(idom, idx, preds, x, y) <==> Collected(g, preds, entry, x, y)
  {
    if y in preds { WalksMeaning(g, preds, entry, idom, idx, y, x); }
  }

  lemma PredsClimb(g: Graph, preds: map<Node, seq<Node>>, entry: Node, idom: map<Node, Node>, idx: Index, node: Node)
    requires DominatorMap(g, entry, idom) && Tree(idom, idx, entry) && Transposes(g, preds) && node in preds
    ensures Climbs(idom, idx, preds[node], node)
  {
    forall p | p in preds[node] && p in idom
      ensures node in idom && Anc(idom, idx, idom[node], p)
    {
      ReachesNode(g, entry, idom, p, node);
      AncestorsDominate(g, entry, idom, idx, idom[node], p);
    }
  }

  /** The frontiers, as far as the blocks `done` are collected. */
  ghost predicate SoFar(idom: map<Node, Node>, idx: Index, preds: map<Node, seq<Node>>, df: map<Node, set<Node>>,
                        done: set<Node>) {
    forall x, y :: x in df ==> (y in df[x] <==> y in done && Walks(idom, idx, preds, x, y))
  }

  /** The walks towards one block, if it has several predecessors. */
  method CollectNode(idom: map<Node, Node>, ghost idx: Index, ghost entry: Node, preds: map<Node, seq<Node>>,
                     node: Node, start: map<Node, set<Node>>, ghost done: set<Node>)
    returns (df: map<Node, set<Node>>)
    requires Tree(idom, idx, entry) && idom.Keys <= start.Keys && node in preds && Climbs(idom, idx, preds[node], node)
    requires SoFar(idom, idx, preds, start, done)
    ensures df.Keys == start.Keys && SoFar(idom, idx, preds, df, done + {node})
  {
    df := start;
    var ps := preds[node];
    if |ps| >= 2 {
      df := WalkFromPreds(idom, idx, entry, ps, node, start);
    }
  }

  method CollectAll(idom: map<Node, Node>, ghost idx: Index, ghost entry: Node, preds: map<Node, seq<Node>>,
                    blocks: seq<Node>, start: map<Node, set<Node>>)
    returns (df: map<Node, set<Node>>)
    requires Tree(idom, idx, entry) && idom.Keys <= start.Keys && SoFar(idom, idx, preds, start, {})
    requires forall n :: n in blocks ==> n in preds && Climbs(idom, idx, preds[n], n)
    ensures df.Keys == start.Keys && SoFar(idom, idx, preds, df, set n | n in blocks)
  {
    df := start;
    var i := 0;
    ghost var done: set<Node> := {};
    while i < |blocks|
      invariant 0 <= i <= |blocks| && df.Keys == start.Keys && SoFar(idom, idx, preds, df, done)
      invariant done == set j | 0 <= j < i :: blocks[j]
    {
      df := CollectNode(idom, idx, entry, preds, blocks[i], df, done);
      done := done + {blocks[i]};
      i := i + 1;
    }
    assert done == set n | n in blocks;
  }

  /** The frontier of every block, collected over all blocks with several predecessors. */
  method ComputeFrontier(g: Graph, preds: map<Node, seq<Node>>, blocks: seq<Node>,
                         ghost entry: Node, idom: map<Node, Node>)
    returns (df: map<Node, set<Node>>)
    requires Transposes(g, preds) && (if entry in g then DominatorMap(g, entry, idom) else idom == map[])
    requires forall n :: n in blocks <==> n in g
    ensures df.Keys == g.Keys
    ensures forall x, y :: x in df ==> (y in df[x] <==> Collected(g, preds, entry, x, y))
  {
    df := map b | b in g :: {};
    if idom == map[] {
      // no predecessor has a dominator, so every walk ends before it starts
      NothingDominates(g, entry);
    } else {
      ghost var idx := DominatorTree(g, entry, idom);
      forall n | n in blocks
        ensures n in preds && Climbs(idom, idx, preds[n], n)
      {
        PredsClimb(g, preds, entry, idom, idx, n);
      }
      df := CollectAll(idom, idx, entry, preds, blocks, df);
      forall x, y | x in df
        ensures y in df[x] <==> Collected(g, preds, entry, x, y)
      {
        WalksIsCollected(g, preds, entry, idom, idx, x, y);
      }
    }
  }
}
