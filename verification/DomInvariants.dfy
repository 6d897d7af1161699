/** Why the iterative dominator computation is right and why it stops: what its partial trees
    keep, and how each round moves a node only towards the root. */
module DomInvariants {
  import opened Graphs
  import opened DomTree

  /** The fixed data of one computation: the flow graph and its predecessor lists, the reachable
      nodes in reverse postorder with their positions and, for each of them except the entry,
      one predecessor that comes earlier in that order. */
  datatype Flow = Flow(g: Graph, preds: map<Node, seq<Node>>, entry: Node,
                       rpo: seq<Node>, idx: Index, parent: map<Node, Node>)

  /** The position of each node of a sequence. */
  function IndexOf(rpo: seq<Node>): (idx: Index) {
    if rpo == [] then map[]
    else IndexOf(rpo[..|rpo| - 1])[rpo[|rpo| - 1] := |rpo| - 1]
  }

  ghost predicate Positions(rpo: seq<Node>, idx: Index) {
    idx == IndexOf(rpo) && forall i, j :: 0 <= i < j < |rpo| ==> rpo[i] != rpo[j]
  }

  lemma {:induction false} PositionOf(rpo: seq<Node>, idx: Index, n: Node)
    requires Positions(rpo, idx)
    ensures n in idx ==> idx[n] < |rpo| && rpo[idx[n]] == n
    ensures n in rpo ==> n in idx
    decreases |rpo|
  {
    if rpo != [] {
      var front := rpo[..|rpo| - 1];
      PositionOf(front, IndexOf(front), n);
      assert rpo == front + [rpo[|rpo| - 1]];
    }
  }

  lemma PositionAt(rpo: seq<Node>, idx: Index, i: nat)
    requires Positions(rpo, idx) && i < |rpo|
    ensures rpo[i] in idx && idx[rpo[i]] == i
  {
    PositionOf(rpo, idx, rpo[i]);
  }

  lemma SamePosition(rpo: seq<Node>, idx: Index, a: Node, b: Node)
    requires Positions(rpo, idx) && a in idx && b in idx && idx[a] == idx[b]
    ensures a == b
  {
    PositionOf(rpo, idx, a);
    PositionOf(rpo, idx, b);
  }

  ghost predicate Transposes(g: Graph, preds: map<Node, seq<Node>>) {
    && preds.Keys == g.Keys
    && (forall n, p :: n in preds ==> (p in preds[n] <==> p in g && n in g[p]))
  }

  ghost predicate Ordered(c: Flow) {
    && c.entry in c.g && c.entry in c.idx && c.idx.Keys <= c.g.Keys
    && Transposes(c.g, c.preds)
    && Positions(c.rpo, c.idx) && c.idx[c.entry] == 0
    && (forall n {:trigger Reachable(c.g, c.entry, n)} :: n in c.idx ==> Reachable(c.g, c.entry, n))
    && (forall n, s {:trigger s in c.g[n]} :: n in c.idx && s in c.g[n] && s in c.g ==> s in c.idx)
    && (forall n :: n in c.idx && n != c.entry ==> n in c.parent)
    && (forall n {:trigger c.parent[n]} :: n in c.idx && n != c.entry ==>
          c.parent[n] in c.idx && c.parent[n] in c.preds[n] && c.idx[c.parent[n]] < c.idx[n])
  }

  ghost predicate Above(c: Flow, idom: map<Node, Node>, a: Node, n: Node) {
    Anc(idom, c.idx, a, n)
  }

  /** `f` is the nearest common ancestor of the predecessors of `n` that are in the tree. */
  ghost predicate Meets(c: Flow, idom: map<Node, Node>, n: Node, f: Node)
    requires n in c.preds
  {
    && (forall p :: p in c.preds[n] && p in idom ==> Above(c, idom, f, p))
    && (forall d :: AboveAll(c, idom, d, n) ==> Above(c, idom, d, f))
  }

  ghost predicate AboveAll(c: Flow, idom: map<Node, Node>, d: Node, n: Node)
    requires n in c.preds
  {
    forall p :: p in c.preds[n] && p in idom ==> Above(c, idom, d, p)
  }

  /** Some path leads from `j` to `k` and after `j` stays strictly later than `j` in the order. */
  ghost predicate Descends(c: Flow, j: Node, k: Node) {
    j in c.idx &&
    exists p :: PathFromTo(c.g, j, p, k) && forall i :: 1 <= i < |p| ==> p[i] in c.idx && c.idx[j] < c.idx[p[i]]
  }

  /** Tree edges descend, and no dominator is missing from a chain. */
  ghost predicate Approximates(c: Flow, idom: map<Node, Node>) {
    && Tree(idom, c.idx, c.entry)
    && (forall k {:trigger Descends(c, idom[k], k)} :: k in idom && k != c.entry ==> Descends(c, idom[k], k))
    && (forall n, d {:trigger Dominates(c.g, c.entry, d, n)} ::
          n in idom && Dominates(c.g, c.entry, d, n) ==> Above(c, idom, d, n))
  }

  lemma DescendsVia(c: Flow, j: Node, k: Node, n: Node)
    requires Descends(c, j, k) && Descends(c, k, n) && k in c.idx && c.idx[j] <= c.idx[k]
    ensures Descends(c, j, n)
  {
    var p :| PathFromTo(c.g, j, p, k) && forall i :: 1 <= i < |p| ==> p[i] in c.idx && c.idx[j] < c.idx[p[i]];
    var q :| PathFromTo(c.g, k, q, n) && forall i :: 1 <= i < |q| ==> q[i] in c.idx && c.idx[k] < c.idx[q[i]];
    PathJoin(c.g, j, p, k, q, n);
    assert forall i :: 1 <= i < |p + q[1..]| ==>
      (p + q[1..])[i] == if i < |p| then p[i] else q[i - |p| + 1];
  }

  lemma {:induction false} AncestorDescends(c: Flow, idom: map<Node, Node>, j: Node, n: Node)
    requires Ordered(c) && Approximates(c, idom) && n in idom && Above(c, idom, j, n)
    ensures Descends(c, j, n)
    decreases c.idx[n]
  {
    if j == n {
      assert PathFromTo(c.g, j, [j], j);
    } else {
      AncIndex(idom, c.idx, c.entry, j, n);
      AncestorDescends(c, idom, j, idom[n]);
      assert Descends(c, idom[n], n);
      AncIndex(idom, c.idx, c.entry, j, idom[n]);
      DescendsVia(c, j, idom[n], n);
    }
  }

  /** A dominator of `n` that comes earlier than an ancestor `x` of `n` dominates `x` too. */
  lemma DominatesAncestor(c: Flow, d: Node, x: Node, n: Node)
    requires Ordered(c) && Dominates(c.g, c.entry, d, n) && Descends(c, x, n)
    requires d in c.idx && c.idx[d] < c.idx[x]
    ensures Dominates(c.g, c.entry, d, x)
  {
    var p :| PathFromTo(c.g, x, p, n) && forall i :: 1 <= i < |p| ==> p[i] in c.idx && c.idx[x] < c.idx[p[i]];
    forall q | PathFromTo(c.g, c.entry, q, x)
      ensures d in q
    {
      PathJoin(c.g, c.entry, q, x, p, n);
      assert d in q + p[1..];
      assert d !in p;
    }
  }

  lemma DescendsToChild(c: Flow, idom: map<Node, Node>, f: Node, p: Node, n: Node)
    requires Ordered(c) && Approximates(c, idom) && p in idom && Above(c, idom, f, p)
    requires n in c.idx && n in c.g[p] && f in c.idx && c.idx[f] < c.idx[n]
    ensures Descends(c, f, n)
  {
    AncestorDescends(c, idom, f, p);
    var q :| PathFromTo(c.g, f, q, p) && forall i :: 1 <= i < |q| ==> q[i] in c.idx && c.idx[f] < c.idx[q[i]];
    PathStep(c.g, f, q, p, n);
    assert forall i :: 1 <= i < |q + [n]| ==> (q + [n])[i] == if i < |q| then q[i] else n;
  }

  /** Giving `n` the meet of its predecessors keeps the tree an over-approximation of dominance. */
  lemma ApproximatesUpdate(c: Flow, idom: map<Node, Node>, n: Node, f: Node)
    requires Ordered(c) && Approximates(c, idom)
    requires n in c.idx && n != c.entry && c.parent[n] in idom
    requires f in idom && c.idx[f] < c.idx[n] && Meets(c, idom, n, f)
    ensures Approximates(c, idom[n := f])
  {
    var t := idom[n := f];
    AncUpdate(idom, c.idx, c.entry, n, f, f, f);
    DescendsToChild(c, idom, f, c.parent[n], n);
    forall k, d | k in t && Dominates(c.g, c.entry, d, k)
      ensures Above(c, t, d, k)
    {
      AncUpdate(idom, c.idx, c.entry, n, f, d, k);
      if k == n || Above(c, idom, n, k) {
        if d != n && (k == n || !(d in c.idx && c.idx[n] <= c.idx[d])) {
          if k != n {
            AncIndex(idom, c.idx, c.entry, d, k);
            AncestorDescends(c, idom, n, k);
            DominatesAncestor(c, d, n, k);
          }
          MeetCoversDominator(c, idom, n, f, d);
        }
      }
    }
  }

  lemma MeetCoversDominator(c: Flow, idom: map<Node, Node>, n: Node, f: Node, d: Node)
    requires Ordered(c) && Approximates(c, idom)
    requires n in c.idx && Meets(c, idom, n, f) && StrictlyDominates(c.g, c.entry, d, n)
    ensures Above(c, idom, d, f)
  {
    forall p | p in c.preds[n] && p in idom
      ensures Above(c, idom, d, p)
    {
      DominatesPredecessor(c.g, c.entry, d, p, n);
    }
    assert AboveAll(c, idom, d, n);
  }

  /** A complete tree that every meet leaves alone holds exactly the dominators. */
  lemma FixpointIsDominance(c: Flow, idom: map<Node, Node>)
    requires Ordered(c) && Approximates(c, idom) && idom.Keys == c.idx.Keys
    requires forall n :: n in idom && n != c.entry ==> Meets(c, idom, n, idom[n])
    ensures forall a, n :: n in idom ==> (Above(c, idom, a, n) <==> Dominates(c.g, c.entry, a, n))
    ensures forall n :: n in idom <==> Reachable(c.g, c.entry, n)
    ensures forall n :: n in idom && n != c.entry ==> ImmediatelyDominates(c.g, c.entry, idom[n], n)
  {
    forall p, n | PathFromTo(c.g, c.entry, p, n)
      ensures n in idom && forall a :: Above(c, idom, a, n) ==> a in p
    {
      ChainOnPath(c, idom, p, n);
    }
    forall n | n in idom && n != c.entry
      ensures ImmediatelyDominates(c.g, c.entry, idom[n], n)
    {
      assert Above(c, idom, idom[n], idom[n]);
      assert Above(c, idom, idom[n], n);
    }
  }

  lemma {:induction false} ChainOnPath(c: Flow, idom: map<Node, Node>, p: seq<Node>, n: Node)
    requires Ordered(c) && Approximates(c, idom) && idom.Keys == c.idx.Keys
    requires forall n :: n in idom && n != c.entry ==> Meets(c, idom, n, idom[n])
    requires PathFromTo(c.g, c.entry, p, n)
    ensures n in idom && forall a :: Above(c, idom, a, n) ==> a in p
    decreases |p|
  {
    if n == c.entry {
      assert p[0] == n;
    } else {
      var q, k := p[..|p| - 1], p[|p| - 2];
      assert PathFromTo(c.g, c.entry, q, k);
      ChainOnPath(c, idom, q, k);
      assert p[|p| - 2 + 1] in c.g[k];
      ChainStep(c, idom, k, n);
    }
  }

  lemma ChainStep(c: Flow, idom: map<Node, Node>, k: Node, n: Node)
    requires Ordered(c) && Approximates(c, idom)
    requires k in idom && n in idom && n != c.entry && n in c.g[k] && Meets(c, idom, n, idom[n])
    ensures forall a :: Above(c, idom, a, n) ==> a == n || Above(c, idom, a, k)
  {
    forall a | Above(c, idom, a, n) && a != n
      ensures Above(c, idom, a, k)
    {
      assert Above(c, idom, idom[n], k);
      AncTransitive(idom, c.idx, c.entry, a, idom[n], k);
    }
  }

  // ----- Termination: a node already in the tree only ever moves up its own chain -----

  /** The chain of `q` follows that of `p` as far as it has been revisited: no ancestor of `p`
      at or before `q` is missing from it, and its part from position `i` on is shared. */
  ghost predicate Lags(c: Flow, idom: map<Node, Node>, i: nat, q: Node, p: Node)
    requires q in c.idx
  {
    && (forall a :: a in c.idx && Above(c, idom, a, p) && c.idx[a] <= c.idx[q] ==> Above(c, idom, a, q))
    && (forall w :: w in c.idx && Above(c, idom, w, q) && i <= c.idx[w] ==> Above(c, idom, w, p))
  }

  /** Every node before position `i` is in the tree, and with a node its earlier predecessor. */
  ghost predicate Present(c: Flow, idom: map<Node, Node>, i: nat)
    requires Ordered(c)
  {
    && (forall n :: n in c.idx && c.idx[n] < i ==> n in idom)
    && (forall n {:trigger c.parent[n]} :: n in idom && n in c.idx && n != c.entry ==> c.parent[n] in idom)
  }

  ghost predicate Revisited(c: Flow, idom: map<Node, Node>, i: nat)
    requires Ordered(c) && Tree(idom, c.idx, c.entry)
  {
    forall n {:trigger c.parent[n]} :: n in idom && n != c.entry ==>
      if c.idx[n] < i then Above(c, idom, idom[n], c.parent[n]) else Lags(c, idom, i, idom[n], c.parent[n])
  }

  /** No common ancestor of the predecessors of a node lies below its parent. */
  ghost predicate Bounded(c: Flow, idom: map<Node, Node>)
    requires Ordered(c) && Tree(idom, c.idx, c.entry)
  {
    forall n, a :: n in idom && n != c.entry && a in c.idx && AboveAll(c, idom, a, n) ==>
      c.idx[a] <= c.idx[idom[n]]
  }

  /** Where a round stands once it has revisited the nodes before position `i`. */
  ghost predicate Settled(c: Flow, idom: map<Node, Node>, i: nat)
    requires Ordered(c) && Tree(idom, c.idx, c.entry)
  {
    Present(c, idom, i) && Revisited(c, idom, i) && Bounded(c, idom)
  }

  lemma NewRound(c: Flow, idom: map<Node, Node>, i: nat)
    requires Ordered(c) && Tree(idom, c.idx, c.entry) && Settled(c, idom, i)
    requires forall n :: n in c.idx ==> c.idx[n] < i
    ensures Settled(c, idom, 1)
  {
    forall n | n in idom && n != c.entry
      ensures Lags(c, idom, 1, idom[n], c.parent[n])
    {
      var q, p := idom[n], c.parent[n];
      forall a | a in c.idx && Above(c, idom, a, p) && c.idx[a] <= c.idx[q]
        ensures Above(c, idom, a, q)
      {
        AncLinear(idom, c.idx, c.entry, a, q, p);
      }
      forall w | w in c.idx && Above(c, idom, w, q)
        ensures Above(c, idom, w, p)
      {
        AncTransitive(idom, c.idx, c.entry, w, q, p);
      }
    }
  }

  /** The meet computed for a node already in the tree is an ancestor of its present parent. */
  lemma MeetMovesUp(c: Flow, idom: map<Node, Node>, n: Node, f: Node)
    requires Ordered(c) && Tree(idom, c.idx, c.entry) && n in idom && n != c.entry
    requires Settled(c, idom, c.idx[n]) && f in idom && Meets(c, idom, n, f)
    ensures Above(c, idom, f, idom[n])
  {
    assert AboveAll(c, idom, f, n);
    assert Lags(c, idom, c.idx[n], idom[n], c.parent[n]);
    assert Above(c, idom, f, c.parent[n]);
  }

  /** Moving `v` up its chain, or adding it, only removes ancestors from nodes in the tree. */
  lemma ChainsShrink(c: Flow, idom: map<Node, Node>, v: Node, f: Node, a: Node, n: Node)
    requires Ordered(c) && Tree(idom, c.idx, c.entry) && v in c.idx && v != c.entry
    requires f in idom && c.idx[f] < c.idx[v] && (v in idom ==> Above(c, idom, f, idom[v]))
    requires n in idom && Tree(idom[v := f], c.idx, c.entry) && Above(c, idom[v := f], a, n)
    ensures Above(c, idom, a, n)
  {
    AncUpdate(idom, c.idx, c.entry, v, f, a, n);
    if Above(c, idom, v, n) && Above(c, idom, a, f) {
      AncIndex(idom, c.idx, c.entry, v, n);
      assert Above(c, idom, f, v);
      AncTransitive(idom, c.idx, c.entry, f, v, n);
      AncTransitive(idom, c.idx, c.entry, a, f, n);
    }
  }

  lemma LagsUpdate(c: Flow, idom: map<Node, Node>, v: Node, f: Node, q: Node, p: Node)
    requires Ordered(c) && Tree(idom, c.idx, c.entry) && v in c.idx && v != c.entry
    requires f in idom && c.idx[f] < c.idx[v] && (v in idom ==> Above(c, idom, f, idom[v]))
    requires q in idom && p in idom && Lags(c, idom, c.idx[v], q, p)
    ensures Lags(c, idom[v := f], c.idx[v] + 1, q, p)
  {
    var t := idom[v := f];
    AncUpdate(idom, c.idx, c.entry, v, f, f, f);
    forall a | a in c.idx && Above(c, t, a, p) && c.idx[a] <= c.idx[q]
      ensures Above(c, t, a, q)
    {
      ChainsShrink(c, idom, v, f, a, p);
      AncUpdate(idom, c.idx, c.entry, v, f, a, p);
      AncUpdate(idom, c.idx, c.entry, v, f, a, q);
      if Above(c, idom, v, q) {
        AncIndex(idom, c.idx, c.entry, v, q);
        assert Above(c, idom, v, p);
      }
    }
    forall w | w in c.idx && Above(c, t, w, q) && c.idx[v] + 1 <= c.idx[w]
      ensures Above(c, t, w, p)
    {
      ChainsShrink(c, idom, v, f, w, q);
      AncUpdate(idom, c.idx, c.entry, v, f, w, p);
    }
  }

  lemma EarlierChainKept(c: Flow, idom: map<Node, Node>, v: Node, f: Node, a: Node, p: Node)
    requires Tree(idom, c.idx, c.entry) && v in c.idx && v != c.entry
    requires f in idom && c.idx[f] < c.idx[v] && p in idom && c.idx[p] < c.idx[v]
    requires Above(c, idom, a, p)
    ensures Above(c, idom[v := f], a, p)
  {
    AncUpdate(idom, c.idx, c.entry, v, f, a, p);
    if Above(c, idom, v, p) { AncIndex(idom, c.idx, c.entry, v, p); assert false; }
  }

  lemma ParentStep(c: Flow, idom: map<Node, Node>, v: Node, f: Node, n: Node)
    requires Ordered(c) && Tree(idom, c.idx, c.entry) && v in c.idx && v != c.entry
    requires f in idom && c.idx[f] < c.idx[v] && (v in idom ==> Above(c, idom, f, idom[v]))
    requires c.parent[v] in idom && Settled(c, idom, c.idx[v]) && Meets(c, idom, v, f)
    requires n in idom[v := f] && n != c.entry
    ensures var t := idom[v := f];
            if c.idx[n] < c.idx[v] + 1 then Above(c, t, t[n], c.parent[n])
            else Lags(c, t, c.idx[v] + 1, t[n], c.parent[n])
  {
    var p := c.parent[n];
    if n != v && c.idx[v] <= c.idx[n] {
      if c.idx[n] == c.idx[v] { SamePosition(c.rpo, c.idx, n, v); }
      LagsUpdate(c, idom, v, f, idom[n], p);
    } else {
      assert n == v ==> p in c.preds[v];
      assert Above(c, idom, idom[v := f][n], p);
      EarlierChainKept(c, idom, v, f, idom[v := f][n], p);
    }
  }

  lemma MeetBoundStep(c: Flow, idom: map<Node, Node>, v: Node, f: Node, n: Node, a: Node)
    requires Ordered(c) && Tree(idom, c.idx, c.entry) && v in c.idx && v != c.entry
    requires f in idom && c.idx[f] < c.idx[v] && (v in idom ==> Above(c, idom, f, idom[v]))
    requires c.parent[v] in idom && Settled(c, idom, c.idx[v]) && Meets(c, idom, v, f)
    requires Tree(idom[v := f], c.idx, c.entry)
    requires n in idom[v := f] && n != c.entry && a in c.idx && AboveAll(c, idom[v := f], a, n)
    ensures c.idx[a] <= c.idx[idom[v := f][n]]
  {
    forall p | p in c.preds[n] && p in idom
      ensures Above(c, idom, a, p)
    {
      assert Above(c, idom[v := f], a, p);
      ChainsShrink(c, idom, v, f, a, p);
    }
    assert AboveAll(c, idom, a, n);
    if n == v {
      assert Above(c, idom, a, f);
      AncIndex(idom, c.idx, c.entry, a, f);
    }
  }

  lemma SettledStep(c: Flow, idom: map<Node, Node>, v: Node, f: Node)
    requires Ordered(c) && Tree(idom, c.idx, c.entry) && v in c.idx && v != c.entry
    requires f in idom && c.idx[f] < c.idx[v] && (v in idom ==> Above(c, idom, f, idom[v]))
    requires c.parent[v] in idom && Settled(c, idom, c.idx[v]) && Meets(c, idom, v, f)
    ensures Tree(idom[v := f], c.idx, c.entry) && Settled(c, idom[v := f], c.idx[v] + 1)
  {
    var t := idom[v := f];
    assert Tree(t, c.idx, c.entry) by { AncUpdate(idom, c.idx, c.entry, v, f, f, f); }
    assert Present(c, t, c.idx[v] + 1) by {
      forall n | n in c.idx && c.idx[n] < c.idx[v] + 1
        ensures n in t
      {
        if c.idx[n] == c.idx[v] { SamePosition(c.rpo, c.idx, n, v); }
      }
    }
    assert Revisited(c, t, c.idx[v] + 1) by {
      forall n | n in t && n != c.entry
        ensures if c.idx[n] < c.idx[v] + 1 then Above(c, t, t[n], c.parent[n])
                else Lags(c, t, c.idx[v] + 1, t[n], c.parent[n])
      {
        ParentStep(c, idom, v, f, n);
      }
    }
    assert Bounded(c, t) by {
      forall n, a | n in t && n != c.entry && a in c.idx && AboveAll(c, t, a, n)
        ensures c.idx[a] <= c.idx[t[n]]
      {
        MeetBoundStep(c, idom, v, f, n, a);
      }
    }
  }

  lemma LagsLonger(c: Flow, idom: map<Node, Node>, i: nat, q: Node, p: Node)
    requires q in c.idx && Lags(c, idom, i, q, p)
    ensures Lags(c, idom, i + 1, q, p)
  {
  }

  lemma PresentConfirm(c: Flow, idom: map<Node, Node>, v: Node)
    requires Ordered(c) && v in idom && v in c.idx && Present(c, idom, c.idx[v])
    ensures Present(c, idom, c.idx[v] + 1)
  {
    forall n | n in c.idx && c.idx[n] < c.idx[v] + 1
      ensures n in idom
    {
      if c.idx[n] == c.idx[v] { SamePosition(c.rpo, c.idx, n, v); }
    }
  }

  lemma RevisitedConfirm(c: Flow, idom: map<Node, Node>, v: Node)
    requires Ordered(c) && Tree(idom, c.idx, c.entry) && v in idom && v != c.entry
    requires Revisited(c, idom, c.idx[v]) && Above(c, idom, idom[v], c.parent[v])
    ensures Revisited(c, idom, c.idx[v] + 1)
  {
    var i := c.idx[v];
    forall n | n in idom && n != c.entry
      ensures if c.idx[n] < i + 1 then Above(c, idom, idom[n], c.parent[n])
              else Lags(c, idom, i + 1, idom[n], c.parent[n])
    {
      var p := c.parent[n];
      if c.idx[n] == i {
        SamePosition(c.rpo, c.idx, n, v);
      } else if c.idx[n] > i {
        LagsLonger(c, idom, i, idom[n], p);
      }
    }
  }

  /** A visit that finds the parent of `v` right only moves the sweep on. */
  lemma SettledConfirm(c: Flow, idom: map<Node, Node>, v: Node)
    requires Ordered(c) && Tree(idom, c.idx, c.entry) && v in idom && v != c.entry
    requires Settled(c, idom, c.idx[v]) && Meets(c, idom, v, idom[v])
    ensures Settled(c, idom, c.idx[v] + 1)
  {
    var p := c.parent[v];
    assert p in c.preds[v] && p in idom;
    PresentConfirm(c, idom, v);
    RevisitedConfirm(c, idom, v);
  }

  /** Total distance of the tree from the root, counting a missing node as `|rpo|`. */
  ghost function Height(c: Flow, idom: map<Node, Node>, n: nat): nat
    requires forall v :: v in idom ==> idom[v] in c.idx
    requires n <= |c.rpo|
  {
    if n == 0 then 0
    else
      var v := c.rpo[n - 1];
      Height(c, idom, n - 1) + if v in idom then c.idx[idom[v]] else |c.rpo|
  }

  lemma {:induction false} HeightDrops(c: Flow, idom: map<Node, Node>, v: Node, f: Node, n: nat)
    requires forall v :: v in idom ==> idom[v] in c.idx
    requires n <= |c.rpo| && f in c.idx && c.idx[f] < |c.rpo| && (v in idom ==> c.idx[f] < c.idx[idom[v]])
    ensures Height(c, idom[v := f], n) <= Height(c, idom, n)
    ensures v in c.rpo[..n] ==> Height(c, idom[v := f], n) < Height(c, idom, n)
  {
    if n > 0 {
      HeightDrops(c, idom, v, f, n - 1);
      assert c.rpo[..n] == c.rpo[..n - 1] + [c.rpo[n - 1]];
    }
  }
}
