/** `_compute_dominators`: depth-first numbering, the two-finger intersection and the iteration
    to a fixpoint. */
module Dominators {
  import opened Graphs
  import opened DomTree
  import opened DomInvariants

  /** The state the nested `dfs` closure shares: nodes met so far and nodes in postorder. */
  class DepthFirst {
    var visited: set<Node>
    var order: seq<Node>

    constructor ()
      ensures visited == {} && order == []
    {
      visited, order := {}, [];
    }

    ghost predicate Valid(g: Graph)
      reads this
    {
      && visited <= g.Keys
      && (forall i :: 0 <= i < |order| ==> order[i] in visited)
      && (forall i, j :: 0 <= i < j < |order| ==> order[i] != order[j])
      && (forall i, s :: 0 <= i < |order| && s in g[order[i]] && s in g ==> s in visited)
    }

    /** Appends the nodes newly reached from `node`, `node` last and each other one before a
        predecessor of it. */
    method Visit(g: Graph, node: Node)
      requires node in g && Valid(g)
      modifies this
      ensures Valid(g) && old(visited) <= visited && node in visited && old(order) <= order
      ensures node in old(visited) ==> visited == old(visited) && order == old(order)
      ensures node !in old(visited) ==> |old(order)| < |order| && order[|order| - 1] == node
      ensures forall u :: u in visited && u !in old(visited) ==> u in order && Reachable(g, node, u)
      ensures forall i :: |old(order)| <= i < |order| ==> order[i] !in old(visited)
      ensures forall i :: |old(order)| <= i < |order| - 1 ==> HasLaterPred(g, order, i)
      decreases g.Keys - visited
    {
      if node in visited {
        return;
      }
      visited := visited + {node};
      ReachableSelf(g, node);
      var succs := g[node];
      var k := 0;
      while k < |succs|
        invariant 0 <= k <= |succs|
        invariant Valid(g) && old(visited) <= visited && node in visited && old(order) <= order && node !in order
        invariant forall j :: 0 <= j < k && succs[j] in g ==> succs[j] in visited
        invariant forall u :: u in visited && u !in old(visited) ==> (u == node || u in order) && Reachable(g, node, u)
        invariant forall i :: |old(order)| <= i < |order| ==> order[i] !in old(visited)
        invariant forall i :: |old(order)| <= i < |order| ==> order[i] in succs || HasLaterPred(g, order, i)
      {
        var s := succs[k];
        if s in g {
          ghost var before := order;
          Visit(g, s);
          LaterPredKept(g, before, order);
          ReachableThrough(g, node, s);
        }
        k := k + 1;
      }
      LastAppended(g, order, |old(order)|, node);
      order := order + [node];
    }
  }

  ghost predicate HasLaterPred(g: Graph, order: seq<Node>, i: int) {
    0 <= i < |order| &&
    exists j :: i < j < |order| && order[j] in g && order[i] in g[order[j]]
  }

  lemma LaterPredKept(g: Graph, before: seq<Node>, after: seq<Node>)
    requires before <= after
    ensures forall i :: HasLaterPred(g, before, i) ==> HasLaterPred(g, after, i)
  {
    forall i | HasLaterPred(g, before, i)
      ensures HasLaterPred(g, after, i)
    {
      var j :| i < j < |before| && before[j] in g && before[i] in g[before[j]];
      assert after[j] == before[j];
    }
  }

  /** A node appended last is a later predecessor of its successors. */
  lemma LastAppended(g: Graph, order: seq<Node>, start: nat, node: Node)
    requires node in g && forall i :: start <= i < |order| ==> order[i] in g[node] || HasLaterPred(g, order, i)
    ensures forall i :: start <= i < |order| ==> HasLaterPred(g, order + [node], i)
  {
    var after := order + [node];
    LaterPredKept(g, order, after);
    forall i | start <= i < |order|
      ensures HasLaterPred(g, after, i)
    {
      assert after[i] == order[i] && after[|order|] == node;
    }
  }

  lemma ReachableThrough(g: Graph, a: Node, s: Node)
    requires a in g && s in g && s in g[a]
    ensures forall b :: Reachable(g, s, b) ==> Reachable(g, a, b)
  {
    forall b | Reachable(g, s, b)
      ensures Reachable(g, a, b)
    {
      var p :| PathFromTo(g, s, p, b);
      assert PathFromTo(g, a, [a, s], s);
      PathJoin(g, a, [a, s], s, p, b);
    }
  }

  /** The two fingers climb to the nearest common ancestor. */
  method Intersect(idom: map<Node, Node>, idx: Index, ghost rpo: seq<Node>, ghost entry: Node, b1: Node, b2: Node)
    returns (r: Node)
    requires Tree(idom, idx, entry) && b1 in idom && b2 in idom
    requires Positions(rpo, idx)
    ensures r in idom && Anc(idom, idx, r, b1) && Anc(idom, idx, r, b2)
    ensures forall d :: Anc(idom, idx, d, b1) && Anc(idom, idx, d, b2) ==> Anc(idom, idx, d, r)
  {
    var f1, f2 := b1, b2;
    while f1 != f2
      invariant f1 in idom && f2 in idom && Anc(idom, idx, f1, b1) && Anc(idom, idx, f2, b2)
      invariant forall d :: Anc(idom, idx, d, b1) && Anc(idom, idx, d, b2) ==>
                  Anc(idom, idx, d, f1) && Anc(idom, idx, d, f2)
      decreases idx[f1] + idx[f2]
    {
      ghost var start := idx[f1] + idx[f2];
      if idx[f1] == idx[f2] { SamePosition(rpo, idx, f1, f2); }
      while idx[f1] > idx[f2]
        invariant f1 in idom && Anc(idom, idx, f1, b1) && idx[f1] + idx[f2] <= start
        invariant forall d :: Anc(idom, idx, d, b1) && Anc(idom, idx, d, b2) ==> Anc(idom, idx, d, f1)
        decreases idx[f1]
      {
        Climb(idom, idx, entry, f1, f2, b1);
        f1 := idom[f1];
      }
      if idx[f1] == idx[f2] { SamePosition(rpo, idx, f1, f2); }
      while idx[f2] > idx[f1]
        invariant f2 in idom && Anc(idom, idx, f2, b2) && idx[f1] + idx[f2] <= start
        invariant idx[f2] <= idx[f1] && f1 != f2 ==> idx[f1] + idx[f2] < start
        invariant forall d :: Anc(idom, idx, d, b1) && Anc(idom, idx, d, b2) ==> Anc(idom, idx, d, f2)
        decreases idx[f2]
      {
        Climb(idom, idx, entry, f2, f1, b2);
        f2 := idom[f2];
      }
    }
    r := f1;
  }

  /** The later of two fingers is no common ancestor, so it can move to its parent. */
  lemma Climb(idom: map<Node, Node>, idx: Index, entry: Node, late: Node, early: Node, b: Node)
    requires Tree(idom, idx, entry) && late in idom && early in idom && b in idom && Anc(idom, idx, late, b)
    requires idx[early] < idx[late]
    ensures late != entry && Anc(idom, idx, idom[late], b)
    ensures forall d :: Anc(idom, idx, d, late) && Anc(idom, idx, d, early) ==> Anc(idom, idx, d, idom[late])
  {
    AncEntry(idom, idx, entry, early);
    AncIndex(idom, idx, entry, entry, early);
    AncTransitive(idom, idx, entry, idom[late], late, b);
    forall d | Anc(idom, idx, d, late) && Anc(idom, idx, d, early)
      ensures Anc(idom, idx, d, idom[late])
    {
      AncIndex(idom, idx, entry, d, early);
    }
  }

  /** `rpo` enumerates without repetition what `entry` reaches, `entry` first and every other
      node after one of its predecessors. */
  ghost predicate Numbers(g: Graph, entry: Node, rpo: seq<Node>) {
    && entry in g && |rpo| > 0 && rpo[0] == entry
    && (forall i :: 0 <= i < |rpo| ==> rpo[i] in g && Reachable(g, entry, rpo[i]))
    && (forall i, j :: 0 <= i < j < |rpo| ==> rpo[i] != rpo[j])
    && (forall i, s :: 0 <= i < |rpo| && s in g[rpo[i]] && s in g ==> s in rpo)
    && (forall i :: 0 < i < |rpo| ==> HasEarlierPred(g, rpo, i))
  }

  ghost predicate HasEarlierPred(g: Graph, rpo: seq<Node>, i: int) {
    0 <= i < |rpo| &&
    exists j :: 0 <= j < i && rpo[j] in g && rpo[i] in g[rpo[j]]
  }

  /** What a depth-first search from the entry leaves. */
  ghost predicate Postorder(g: Graph, entry: Node, order: seq<Node>) {
    && entry in g && |order| > 0 && order[|order| - 1] == entry
    && (forall i :: 0 <= i < |order| ==> order[i] in g && Reachable(g, entry, order[i]))
    && (forall i, j :: 0 <= i < j < |order| ==> order[i] != order[j])
    && (forall i, s :: 0 <= i < |order| && s in g[order[i]] && s in g ==> s in order)
    && (forall i :: 0 <= i < |order| - 1 ==> HasLaterPred(g, order, i))
  }

  /** Reverse postorder with the position of each node. */
  method ReversePostorder(g: Graph, entry: Node) returns (rpo: seq<Node>, idx: Index)
    requires entry in g
    ensures Numbers(g, entry, rpo) && Positions(rpo, idx)
  {
    var walk := new DepthFirst();
    walk.Visit(g, entry);
    var order, n := walk.order, |walk.order|;
    assert Postorder(g, entry, order);
    rpo, idx := [], map[];
    while |rpo| < n
      invariant |rpo| <= n
      invariant forall i :: 0 <= i < |rpo| ==> rpo[i] == order[n - 1 - i]
      invariant Positions(rpo, idx)
    {
      ghost var front := rpo;
      idx := idx[order[n - 1 - |rpo|] := |rpo|];
      rpo := rpo + [order[n - 1 - |rpo|]];
      assert rpo[..|rpo| - 1] == front;
    }
    ReversedNumbers(g, entry, order, rpo);
  }

  /** The reverse of a postorder numbers the blocks. */
  lemma ReversedNumbers(g: Graph, entry: Node, order: seq<Node>, rpo: seq<Node>)
    requires Postorder(g, entry, order) && |rpo| == |order|
    requires forall i :: 0 <= i < |rpo| ==> rpo[i] == order[|order| - 1 - i]
    ensures Numbers(g, entry, rpo)
  {
    var n := |order|;
    forall i | 0 < i < n
      ensures HasEarlierPred(g, rpo, i)
    {
      assert HasLaterPred(g, order, n - 1 - i);
      var j :| n - 1 - i < j < n && order[j] in g && order[n - 1 - i] in g[order[j]];
      assert rpo[n - 1 - j] == order[j];
    }
    forall i, s | 0 <= i < n && s in g[rpo[i]] && s in g
      ensures s in rpo
    {
      assert order[n - 1 - i] == rpo[i];
      var k :| 0 <= k < n && order[k] == s;
      assert rpo[n - 1 - k] == s;
    }
  }

  lemma EarlierPred(g: Graph, preds: map<Node, seq<Node>>, entry: Node, rpo: seq<Node>, idx: Index, n: Node)
    requires Numbers(g, entry, rpo) && Transposes(g, preds) && Positions(rpo, idx)
    requires n in idx && n != entry
    ensures n in preds && exists p :: p in idx && p in preds[n] && idx[p] < idx[n]
  {
    PositionOf(rpo, idx, n);
    var i := idx[n];
    assert HasEarlierPred(g, rpo, i);
    var j :| 0 <= j < i && rpo[j] in g && rpo[i] in g[rpo[j]];
    PositionAt(rpo, idx, j);
    assert rpo[j] in preds[n];
  }

  lemma FlowOf(g: Graph, preds: map<Node, seq<Node>>, entry: Node, rpo: seq<Node>, idx: Index) returns (c: Flow)
    requires Numbers(g, entry, rpo) && Transposes(g, preds) && Positions(rpo, idx)
    ensures Ordered(c) && c.g == g && c.preds == preds && c.entry == entry && c.rpo == rpo && c.idx == idx
  {
    forall n
      ensures n in idx <==> n in rpo
      ensures n in idx && n != entry ==>
                n in preds && exists p :: p in idx && p in preds[n] && idx[p] < idx[n]
    {
      PositionOf(rpo, idx, n);
      if n in idx && n != entry {
        EarlierPred(g, preds, entry, rpo, idx, n);
      }
    }
    PositionAt(rpo, idx, 0);
    var parent := map n | n in idx && n != entry :: (var p :| p in idx && p in preds[n] && idx[p] < idx[n]; p);
    c := Flow(g, preds, entry, rpo, idx, parent);
  }

  function InTree(ps: seq<Node>, idom: map<Node, Node>): (r: seq<Node>)
    ensures forall p :: p in r <==> p in ps && p in idom
  {
    if ps == [] then []
    else if ps[0] in idom then [ps[0]] + InTree(ps[1..], idom)
    else InTree(ps[1..], idom)
  }

  /** `f` is the nearest common ancestor of the first `k` nodes, as far as ancestors of all are told apart. */
  ghost predicate MeetsFirst(idom: map<Node, Node>, idx: Index, nodes: seq<Node>, k: nat, f: Node)
    requires k <= |nodes|
  {
    && f in idom && (forall j :: 0 <= j < k ==> Anc(idom, idx, f, nodes[j]))
    && (forall d :: CommonAncestor(idom, idx, d, nodes) ==> Anc(idom, idx, d, f))
  }

  lemma AboveFirst(idom: map<Node, Node>, idx: Index, entry: Node, nodes: seq<Node>, k: nat, f: Node, r: Node)
    requires Tree(idom, idx, entry) && k <= |nodes| && (forall p :: p in nodes ==> p in idom)
    requires (forall j :: 0 <= j < k ==> Anc(idom, idx, f, nodes[j])) && Anc(idom, idx, r, f)
    ensures forall j :: 0 <= j < k ==> Anc(idom, idx, r, nodes[j])
  {
    forall j | 0 <= j < k
      ensures Anc(idom, idx, r, nodes[j])
    {
      AncTransitive(idom, idx, entry, r, f, nodes[j]);
    }
  }

  lemma BelowAll(idom: map<Node, Node>, idx: Index, nodes: seq<Node>, last: Node, f: Node, r: Node)
    requires last in nodes && forall d :: CommonAncestor(idom, idx, d, nodes) ==> Anc(idom, idx, d, f)
    requires forall d :: Anc(idom, idx, d, last) && Anc(idom, idx, d, f) ==> Anc(idom, idx, d, r)
    ensures forall d :: CommonAncestor(idom, idx, d, nodes) ==> Anc(idom, idx, d, r)
  {
  }

  lemma OneMore(idom: map<Node, Node>, idx: Index, nodes: seq<Node>, k: nat, r: Node)
    requires k < |nodes| && r in idom && Anc(idom, idx, r, nodes[k])
    requires forall j :: 0 <= j < k ==> Anc(idom, idx, r, nodes[j])
    requires forall d :: CommonAncestor(idom, idx, d, nodes) ==> Anc(idom, idx, d, r)
    ensures MeetsFirst(idom, idx, nodes, k + 1, r)
  {
    forall j | 0 <= j < k + 1
      ensures Anc(idom, idx, r, nodes[j])
    {
      if j == k { assert nodes[j] == nodes[k]; }
    }
  }

  lemma MeetsNext(idom: map<Node, Node>, idx: Index, entry: Node, nodes: seq<Node>, k: nat, f: Node, r: Node)
    requires Tree(idom, idx, entry) && k < |nodes| && (forall p :: p in nodes ==> p in idom)
    requires MeetsFirst(idom, idx, nodes, k, f) && r in idom
    requires Anc(idom, idx, r, nodes[k]) && Anc(idom, idx, r, f)
    requires forall d :: Anc(idom, idx, d, nodes[k]) && Anc(idom, idx, d, f) ==> Anc(idom, idx, d, r)
    ensures MeetsFirst(idom, idx, nodes, k + 1, r)
  {
    AboveFirst(idom, idx, entry, nodes, k, f, r);
    BelowAll(idom, idx, nodes, nodes[k], f, r);
    OneMore(idom, idx, nodes, k, r);
  }

  /** The nearest common ancestor of a non-empty list of nodes. */
  method MeetOf(idom: map<Node, Node>, idx: Index, ghost rpo: seq<Node>, ghost entry: Node, nodes: seq<Node>)
    returns (f: Node)
    requires Tree(idom, idx, entry) && Positions(rpo, idx)
    requires nodes != [] && forall p :: p in nodes ==> p in idom
    ensures f in idom && forall p :: p in nodes ==> Anc(idom, idx, f, p)
    ensures forall d :: CommonAncestor(idom, idx, d, nodes) ==> Anc(idom, idx, d, f)
  {
    f := nodes[0];
    var k := 1;
    while k < |nodes|
      invariant 1 <= k <= |nodes| && MeetsFirst(idom, idx, nodes, k, f)
    {
      var r := Intersect(idom, idx, rpo, entry, nodes[k], f);
      MeetsNext(idom, idx, entry, nodes, k, f, r);
      f, k := r, k + 1;
    }
  }

  ghost predicate CommonAncestor(idom: map<Node, Node>, idx: Index, d: Node, nodes: seq<Node>) {
    forall p :: p in nodes ==> Anc(idom, idx, d, p)
  }

  /** The promise of the `dominators` field: exactly the reachable blocks, each with its
      immediate dominator, the entry with itself. */
  ghost predicate DominatorMap(g: Graph, entry: Node, idom: map<Node, Node>) {
    && (forall n :: n in idom <==> Reachable(g, entry, n))
    && entry in idom && idom[entry] == entry
    && (forall n {:trigger idom[n]} :: n in idom && n != entry ==> ImmediatelyDominates(g, entry, idom[n], n))
  }

  lemma StartsApproximate(c: Flow)
    requires Ordered(c)
    ensures Approximates(c, map[c.entry := c.entry]) && Settled(c, map[c.entry := c.entry], 1)
  {
    forall n | n in c.idx && c.idx[n] < 1
      ensures n == c.entry
    {
      SamePosition(c.rpo, c.idx, n, c.entry);
    }
    forall d | Dominates(c.g, c.entry, d, c.entry)
      ensures d == c.entry
    {
      assert PathFromTo(c.g, c.entry, [c.entry], c.entry);
    }
  }

  /** A tree as it stands before position `i` of a sweep. */
  ghost predicate InSweep(c: Flow, idom: map<Node, Node>, i: nat) {
    Ordered(c) && Approximates(c, idom) && Settled(c, idom, i)
  }

  /** The nodes before position `i` already have the meet of their predecessors as parent. */
  ghost predicate StableBefore(c: Flow, idom: map<Node, Node>, i: nat)
    requires Ordered(c) && Tree(idom, c.idx, c.entry)
  {
    forall n :: n in idom && n != c.entry && c.idx[n] < i ==> Meets(c, idom, n, idom[n])
  }

  ghost function TotalHeight(c: Flow, idom: map<Node, Node>): nat
    requires Tree(idom, c.idx, c.entry)
  {
    Height(c, idom, |c.rpo|)
  }

  /** The meet of the predecessors of `n` that are in the tree, if there are any. */
  method MeetOfPreds(ghost c: Flow, idom: map<Node, Node>, idx: Index, ps: seq<Node>, ghost n: Node)
    returns (found: bool, f: Node)
    requires Tree(idom, idx, c.entry) && Positions(c.rpo, idx) && c.idx == idx
    requires n in c.preds && ps == c.preds[n]
    ensures found <==> exists p :: p in ps && p in idom
    ensures found ==> f in idom && Meets(c, idom, n, f)
  {
    var processed := InTree(ps, idom);
    found, f := processed != [], 0;
    if found {
      f := MeetOf(idom, idx, c.rpo, c.entry, processed);
      forall d | AboveAll(c, idom, d, n)
        ensures Above(c, idom, d, f)
      {
        assert CommonAncestor(idom, idx, d, processed);
      }
      var first := processed[0];
      assert first in processed;
    }
  }

  lemma StableStep(c: Flow, idom: map<Node, Node>, n: Node)
    requires Ordered(c) && Tree(idom, c.idx, c.entry) && n in idom && n != c.entry
    requires Meets(c, idom, n, idom[n])
    ensures StableBefore(c, idom, c.idx[n]) ==> StableBefore(c, idom, c.idx[n] + 1)
  {
    forall k | k in idom && c.idx[k] == c.idx[n]
      ensures k == n
    {
      SamePosition(c.rpo, c.idx, k, n);
    }
  }

  /** What a visit that changes the parent of `n` keeps. */
  lemma VisitKeeps(c: Flow, idom: map<Node, Node>, n: Node, f: Node)
    requires n in c.idx && n in c.preds && n != c.entry && InSweep(c, idom, c.idx[n])
    requires f in idom && Meets(c, idom, n, f)
    ensures InSweep(c, idom[n := f], c.idx[n] + 1)
  {
    var p := c.parent[n];
    assert Above(c, idom, f, p);
    AncIndex(idom, c.idx, c.entry, f, p);
    if n in idom { MeetMovesUp(c, idom, n, f); }
    ApproximatesUpdate(c, idom, n, f);
    SettledStep(c, idom, n, f);
  }

  lemma VisitLowers(c: Flow, idom: map<Node, Node>, n: Node, f: Node)
    requires n in c.idx && n in c.preds && n != c.entry && InSweep(c, idom, c.idx[n])
    requires f in idom && Meets(c, idom, n, f) && (n in idom ==> idom[n] != f)
    requires Tree(idom[n := f], c.idx, c.entry)
    ensures TotalHeight(c, idom[n := f]) < TotalHeight(c, idom)
  {
    if n in idom {
      MeetMovesUp(c, idom, n, f);
      AncIndex(idom, c.idx, c.entry, f, idom[n]);
    }
    PositionOf(c.rpo, c.idx, f);
    PositionOf(c.rpo, c.idx, n);
    HeightDrops(c, idom, n, f, |c.rpo|);
    assert c.rpo[..|c.rpo|] == c.rpo;
  }

  /** The node at position `i` has a predecessor that is in the tree by then. */
  lemma NodeAt(c: Flow, idom: map<Node, Node>, i: nat, n: Node)
    requires Ordered(c) && Present(c, idom, i) && 0 < i < |c.rpo| && n == c.rpo[i]
    ensures n in c.idx && c.idx[n] == i && n != c.entry && n in c.preds
    ensures exists p :: p in c.preds[n] && p in idom
  {
    PositionAt(c.rpo, c.idx, i);
    var p := c.parent[n];
    assert p in c.idx && c.idx[p] < i;
  }

  /** What a visit of position `i` leaves behind. */
  ghost predicate Visited(c: Flow, start: map<Node, Node>, i: nat, idom: map<Node, Node>, changed: bool)
    requires InSweep(c, start, i)
  {
    && InSweep(c, idom, i + 1)
    && (changed ==> TotalHeight(c, idom) < TotalHeight(c, start))
    && (!changed ==> idom == start && (StableBefore(c, start, i) ==> StableBefore(c, start, i + 1)))
  }

  lemma VisitChanges(c: Flow, start: map<Node, Node>, i: nat, n: Node, f: Node)
    requires n in c.idx && n in c.preds && n != c.entry && c.idx[n] == i && InSweep(c, start, i)
    requires f in start && Meets(c, start, n, f) && (n in start ==> start[n] != f)
    ensures Visited(c, start, i, start[n := f], true)
  {
    VisitKeeps(c, start, n, f);
    VisitLowers(c, start, n, f);
  }

  /** Gives the node at position `i` the meet of its predecessors as parent. */
  method Visit(ghost c: Flow, preds: map<Node, seq<Node>>, rpo: seq<Node>, idx: Index, start: map<Node, Node>, i: nat)
    returns (idom: map<Node, Node>, changed: bool)
    requires c.preds == preds && c.idx == idx && c.rpo == rpo && 0 < i < |rpo|
    requires InSweep(c, start, i)
    ensures Visited(c, start, i, idom, changed)
  {
    idom, changed := start, false;
    var n := rpo[i];
    NodeAt(c, start, i, n);
    var found, f := MeetOfPreds(c, start, idx, preds[n], n);
    if found {
      if n !in start || start[n] != f {
        VisitChanges(c, start, i, n, f);
        idom, changed := start[n := f], true;
      } else {
        SettledConfirm(c, start, n);
        StableStep(c, start, n);
      }
    }
  }

  /** One sweep over the reachable nodes in reverse postorder. */
  method Sweep(ghost c: Flow, preds: map<Node, seq<Node>>, rpo: seq<Node>, idx: Index, start: map<Node, Node>)
    returns (idom: map<Node, Node>, changed: bool)
    requires c.preds == preds && c.idx == idx && c.rpo == rpo && |rpo| > 0
    requires InSweep(c, start, 1)
    ensures InSweep(c, idom, |rpo|)
    ensures changed ==> TotalHeight(c, idom) < TotalHeight(c, start)
    ensures !changed ==> idom == start && StableBefore(c, idom, |rpo|)
  {
    idom, changed := start, false;
    var i := 1;
    StableAtStart(c, idom);
    while i < |rpo|
      invariant 1 <= i <= |rpo| && InSweep(c, idom, i)
      invariant changed ==> TotalHeight(c, idom) < TotalHeight(c, start)
      invariant !changed ==> idom == start && StableBefore(c, idom, i)
    {
      var moved;
      idom, moved := Visit(c, preds, rpo, idx, idom, i);
      changed := changed || moved;
      i := i + 1;
    }
  }

  lemma StableAtStart(c: Flow, idom: map<Node, Node>)
    requires InSweep(c, idom, 1)
    ensures StableBefore(c, idom, 1)
  {
    forall n | n in idom && c.idx[n] < 1
      ensures n == c.entry
    {
      SamePosition(c.rpo, c.idx, n, c.entry);
    }
  }

  lemma SweepDone(c: Flow, idom: map<Node, Node>)
    requires InSweep(c, idom, |c.rpo|)
    ensures InSweep(c, idom, 1)
    ensures StableBefore(c, idom, |c.rpo|) ==> DominatorMap(c.g, c.entry, idom)
  {
    forall n | n in c.idx
      ensures c.idx[n] < |c.rpo|
    {
      PositionOf(c.rpo, c.idx, n);
    }
    NewRound(c, idom, |c.rpo|);
    assert forall n :: n in c.idx ==> n in idom;
    if StableBefore(c, idom, |c.rpo|) {
      FixpointIsDominance(c, idom);
    }
  }

  /** `_compute_dominators`: sweep until nothing changes. */
  method ComputeDominators(g: Graph, preds: map<Node, seq<Node>>, entry: Node) returns (idom: map<Node, Node>)
    requires Transposes(g, preds)
    ensures entry !in g ==> idom == map[]
    ensures entry in g ==> DominatorMap(g, entry, idom)
  {
    if entry !in g {
      return map[];
    }
    var rpo, idx := ReversePostorder(g, entry);
    ghost var c := FlowOf(g, preds, entry, rpo, idx);
    idom := map[entry := entry];
    StartsApproximate(c);
    var changed := true;
    while changed
      invariant InSweep(c, idom, 1)
      invariant !changed ==> DominatorMap(g, entry, idom)
      decreases TotalHeight(c, idom), changed
    {
      idom, changed := Sweep(c, preds, rpo, idx, idom);
      SweepDone(c, idom);
    }
  }
}
