/** Partial dominator trees as `_compute_dominators` keeps them: a parent map that lowers the
    reverse-postorder index, read through its ancestor relation. */
module DomTree {
  import opened Graphs

  type Index = map<Node, nat>

  ghost predicate Tree(idom: map<Node, Node>, idx: Index, entry: Node) {
    && entry in idom && idom[entry] == entry
    && idom.Keys <= idx.Keys
    && (forall n {:trigger idom[n]} :: n in idom ==> idom[n] in idom)
    && (forall n {:trigger idom[n]} :: n in idom && n != entry ==> idx[idom[n]] < idx[n])
  }

  /** `a` is `n` or lies on the parent chain above `n`. */
  ghost predicate Anc(idom: map<Node, Node>, idx: Index, a: Node, n: Node)
    decreases if n in idx then idx[n] else 0
  {
    a == n ||
    (n in idom && n in idx && idom[n] in idx && idx[idom[n]] < idx[n] && Anc(idom, idx, a, idom[n]))
  }

  lemma {:induction false} AncIndex(idom: map<Node, Node>, idx: Index, entry: Node, a: Node, n: Node)
    requires Tree(idom, idx, entry) && n in idom && Anc(idom, idx, a, n)
    ensures a in idom && idx[a] <= idx[n] && (a != n ==> idx[a] < idx[n])
    decreases idx[n]
  {
    if a != n {
      AncIndex(idom, idx, entry, a, idom[n]);
    }
  }

  lemma {:induction false} AncTransitive(idom: map<Node, Node>, idx: Index, entry: Node, a: Node, b: Node, n: Node)
    requires Tree(idom, idx, entry) && n in idom
    requires Anc(idom, idx, a, b) && Anc(idom, idx, b, n)
    ensures Anc(idom, idx, a, n)
    decreases idx[n]
  {
    if b != n {
      AncTransitive(idom, idx, entry, a, b, idom[n]);
    }
  }

  /** The ancestors of one node form a chain ordered by index. */
  lemma {:induction false} AncLinear(idom: map<Node, Node>, idx: Index, entry: Node, a: Node, b: Node, n: Node)
    requires Tree(idom, idx, entry) && n in idom
    requires Anc(idom, idx, a, n) && Anc(idom, idx, b, n)
    requires a in idx && b in idx && idx[a] <= idx[b]
    ensures Anc(idom, idx, a, b)
    decreases idx[n]
  {
    if b != n {
      AncIndex(idom, idx, entry, b, n);
      AncLinear(idom, idx, entry, a, b, idom[n]);
    }
  }

  lemma {:induction false} AncEntry(idom: map<Node, Node>, idx: Index, entry: Node, n: Node)
    requires Tree(idom, idx, entry) && n in idom
    ensures Anc(idom, idx, entry, n)
    decreases idx[n]
  {
    if n != entry {
      AncEntry(idom, idx, entry, idom[n]);
    }
  }

  /** Moving the parent of `v` to `f` keeps the chain of every node down to `v` and replaces
      what lay above `v` by the chain of `f`. */
  lemma {:induction false} AncUpdate(idom: map<Node, Node>, idx: Index, entry: Node, v: Node, f: Node, c: Node, n: Node)
    requires Tree(idom, idx, entry) && v in idx && v != entry
    requires f in idom && idx[f] < idx[v]
    requires n in idom || n == v
    ensures Tree(idom[v := f], idx, entry)
    ensures Anc(idom[v := f], idx, c, n) <==>
            if n == v || Anc(idom, idx, v, n)
            then (c in idx && idx[v] <= idx[c] && Anc(idom, idx, c, n)) || Anc(idom, idx, c, f)
            else Anc(idom, idx, c, n)
    decreases idx[n]
  {
    TreeUpdate(idom, idx, entry, v, f);
    if n == v {
      AncUpdate(idom, idx, entry, v, f, c, f);
      AncBefore(idom, idx, entry, v, f, c);
    } else if n == entry {
      if Anc(idom, idx, v, n) { AncIndex(idom, idx, entry, v, n); assert false; }
    } else {
      AncUpdate(idom, idx, entry, v, f, c, idom[n]);
      AncAfter(idom, idx, entry, v, f, c, n);
    }
  }

  lemma TreeUpdate(idom: map<Node, Node>, idx: Index, entry: Node, v: Node, f: Node)
    requires Tree(idom, idx, entry) && v in idx && v != entry && f in idom && idx[f] < idx[v]
    ensures Tree(idom[v := f], idx, entry)
  {
  }

  /** `v` is not above an earlier node, and only `v` itself is at or after `v` above it. */
  lemma AncBefore(idom: map<Node, Node>, idx: Index, entry: Node, v: Node, f: Node, c: Node)
    requires Tree(idom, idx, entry) && v in idx && f in idom && idx[f] < idx[v]
    ensures !Anc(idom, idx, v, f)
    ensures c in idx && idx[v] <= idx[c] && Anc(idom, idx, c, v) ==> c == v
  {
    if Anc(idom, idx, v, f) { AncIndex(idom, idx, entry, v, f); }
    if v in idom && c in idx && idx[v] <= idx[c] && Anc(idom, idx, c, v) { AncIndex(idom, idx, entry, c, v); }
  }

  /** Below `v`, an ancestor of `f` is before `v`. */
  lemma AncAfter(idom: map<Node, Node>, idx: Index, entry: Node, v: Node, f: Node, c: Node, n: Node)
    requires Tree(idom, idx, entry) && v in idx && f in idom && idx[f] < idx[v] && n in idom
    ensures !Anc(idom, idx, v, f) && (Anc(idom, idx, c, f) ==> c in idx && idx[c] < idx[v])
    ensures Anc(idom, idx, v, n) ==> idx[v] <= idx[n]
  {
    if Anc(idom, idx, v, f) { AncIndex(idom, idx, entry, v, f); }
    if Anc(idom, idx, c, f) { AncIndex(idom, idx, entry, c, f); }
    if Anc(idom, idx, v, n) { AncIndex(idom, idx, entry, v, n); }
  }
}
