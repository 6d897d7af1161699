/** Merging decode keys that differ only in the saved widths: one key per (address, widths) remains. */
module Dedupe {
  import opened Machine
  import opened Decoder

  function SlotOf(k: Key): Site {
    Site(k.pc, k.width)
  }

  /** The first key of a slot. */
  function First(order: seq<Key>, slot: Site): Option<Key>
    decreases |order|
  {
    if order == [] then None else if SlotOf(order[0]) == slot then Some(order[0]) else First(order[1..], slot)
  }

  lemma {:induction false} FirstIs(order: seq<Key>, k: Key)
    requires k in order
    ensures First(order, SlotOf(k)).Some?
    ensures var c := First(order, SlotOf(k)).value;
            c in order && SlotOf(c) == SlotOf(k) && First(order, SlotOf(c)) == Some(c)
    decreases |order|
  {
    if SlotOf(order[0]) != SlotOf(k) { FirstIs(order[1..], k); }
  }

  lemma {:induction false} FirstAppend(order: seq<Key>, k: Key, slot: Site)
    ensures First(order + [k], slot) ==
      if First(order, slot).Some? then First(order, slot) else if SlotOf(k) == slot then Some(k) else None
    decreases |order|
  {
    if order != [] {
      FirstAppend(order[1..], k, slot);
      assert (order + [k])[1..] == order[1..] + [k];
    }
  }

  /** The first key with the same address and widths, for every key of the graph. */
  ghost predicate Represents(order: seq<Key>, remap: map<Key, Key>) {
    && (forall k :: k in remap <==> k in order)
    && (forall k :: k in remap ==> First(order, SlotOf(k)) == Some(remap[k]))
  }

  function Image(remap: map<Key, Key>, k: Key): Key {
    if k in remap then remap[k] else k
  }

  method PickCanonical(order: seq<Key>) returns (remap: map<Key, Key>)
    ensures Represents(order, remap)
  {
    var canonical: map<Site, Key> := map[];
    remap := map[];
    var i := 0;
    while i < |order|
      invariant 0 <= i <= |order|
      invariant forall slot :: First(order[..i], slot) == if slot in canonical then Some(canonical[slot]) else None
      invariant Represents(order[..i], remap)
    {
      var key := order[i];
      assert order[..i + 1] == order[..i] + [key];
      forall slot
        ensures First(order[..i + 1], slot) ==
          if First(order[..i], slot).Some? then First(order[..i], slot)
          else if SlotOf(key) == slot then Some(key) else None
      {
        FirstAppend(order[..i], key, slot);
      }
      if SlotOf(key) !in canonical {
        canonical := canonical[SlotOf(key) := key];
      }
      remap := remap[key := canonical[SlotOf(key)]];
      i := i + 1;
    }
    assert order[..|order|] == order;
  }

  function Images(remap: map<Key, Key>, ss: seq<Key>): (r: seq<Key>)
    ensures |r| == |ss| && forall i :: 0 <= i < |ss| ==> r[i] == Image(remap, ss[i])
  {
    seq(|ss|, i requires 0 <= i < |ss| => Image(remap, ss[i]))
  }

  /** The edge from `k` to `s` becomes the edge from `ck` to `t`. */
  ghost predicate Sends(insns: Records, remap: map<Key, Key>, k: Key, s: Key, ck: Key, t: Key) {
    k in insns && s in insns[k].successors && Image(remap, k) == ck && Image(remap, s) == t
  }

  /** `succs` holds the images of all edges that leave a key of `done` represented by `ck`, ... */
  ghost predicate Covers(insns: Records, remap: map<Key, Key>, done: set<Key>, ck: Key, succs: seq<Key>) {
    forall k, s, t :: k in done && Sends(insns, remap, k, s, ck, t) ==> t in succs
  }

  /** ... and nothing else. */
  ghost predicate Sourced(insns: Records, remap: map<Key, Key>, ck: Key, succs: seq<Key>) {
    forall t :: t in succs ==> exists k, s :: Sends(insns, remap, k, s, ck, t)
  }

  /** The successors of the representative come first, in place; later ones are new each time. */
  ghost predicate Extends(first: seq<Key>, succs: seq<Key>) {
    first <= succs && forall i, j :: 0 <= i < j < |succs| && |first| <= j ==> succs[i] != succs[j]
  }

  ghost predicate Gathers(insns: Records, remap: map<Key, Key>, done: set<Key>, ck: Key, r: Record<Key>) {
    && ck in insns && r == insns[ck].(successors := r.successors)
    && Extends(Images(remap, insns[ck].successors), r.successors)
    && Covers(insns, remap, done, ck, r.successors) && Sourced(insns, remap, ck, r.successors)
  }

  /** The images of `more` that are missing from `succs` are appended, each once. */
  method AppendNew(succs: seq<Key>, more: seq<Key>, remap: map<Key, Key>) returns (r: seq<Key>)
    ensures succs <= r
    ensures forall t :: t in r <==> t in succs || exists i :: 0 <= i < |more| && Image(remap, more[i]) == t
    ensures forall i, j :: 0 <= i < j < |r| && |succs| <= j ==> r[i] != r[j]
  {
    r := succs;
    var n := 0;
    while n < |more|
      invariant 0 <= n <= |more| && succs <= r
      invariant forall t :: t in r <==> t in succs || exists i :: 0 <= i < n && Image(remap, more[i]) == t
      invariant forall i, j :: 0 <= i < j < |r| && |succs| <= j ==> r[i] != r[j]
    {
      var t := Image(remap, more[n]);
      if t !in r {
        r := r + [t];
      }
      n := n + 1;
    }
  }

  /** The first of the keys to arrive is the representative itself. */
  lemma {:induction false} FirstEarliest(order: seq<Key>, i: nat, c: Key)
    requires i < |order| && First(order, SlotOf(order[i])) == Some(c)
    ensures c in order[..i + 1]
    decreases |order|
  {
    if SlotOf(order[0]) != SlotOf(order[i]) {
      FirstEarliest(order[1..], i - 1, c);
      assert order[..i + 1] == [order[0]] + order[1..][..i];
    }
  }

  /** The graph merged over the keys of `done`. */
  ghost predicate Merging(insns: Records, remap: map<Key, Key>, done: set<Key>, merged: Records) {
    && (forall ck :: ck in merged <==> ck in done && Image(remap, ck) == ck)
    && (forall ck :: ck in merged ==> Gathers(insns, remap, done, ck, merged[ck]))
  }

  lemma MergeFirst(insns: Records, remap: map<Key, Key>, done: set<Key>, merged: Records, key: Key)
    requires Merging(insns, remap, done, merged) && key in insns && key !in done && Image(remap, key) == key
    requires forall k :: k in done && k in insns ==> Image(remap, k) != key
    ensures Merging(insns, remap, done + {key},
                    merged[key := insns[key].(successors := Images(remap, insns[key].successors))])
  {
    var r := insns[key].(successors := Images(remap, insns[key].successors));
    assert Gathers(insns, remap, done + {key}, key, r) by {
      forall t | t in r.successors
        ensures exists s :: Sends(insns, remap, key, s, key, t)
      {
        var i :| 0 <= i < |r.successors| && r.successors[i] == t;
        assert Sends(insns, remap, key, insns[key].successors[i], key, t);
      }
      forall k, s, t | k in done + {key} && Sends(insns, remap, k, s, key, t)
        ensures t in r.successors
      {
        var i :| 0 <= i < |insns[k].successors| && insns[k].successors[i] == s;
        assert k == key && r.successors[i] == t;
      }
    }
  }

  lemma MergeLater(insns: Records, remap: map<Key, Key>, done: set<Key>, merged: Records, key: Key, succs: seq<Key>)
    requires Merging(insns, remap, done, merged) && key in insns
    requires Image(remap, key) in merged
    requires merged[Image(remap, key)].successors <= succs
    requires forall t :: t in succs <==> t in merged[Image(remap, key)].successors
                                         || exists i :: 0 <= i < |insns[key].successors| &&
                                                     Image(remap, insns[key].successors[i]) == t
    requires forall i, j :: 0 <= i < j < |succs| && |merged[Image(remap, key)].successors| <= j ==> succs[i] != succs[j]
    requires Image(remap, key) != key
    ensures Merging(insns, remap, done + {key},
                  merged[Image(remap, key) := merged[Image(remap, key)].(successors := succs)])
  {
    var ck := Image(remap, key);
    var r := merged[ck];
    assert Sourced(insns, remap, ck, succs) by {
      forall t | t in succs
        ensures exists k, s :: Sends(insns, remap, k, s, ck, t)
      {
        if t !in r.successors {
          var i :| 0 <= i < |insns[key].successors| && Image(remap, insns[key].successors[i]) == t;
          assert Sends(insns, remap, key, insns[key].successors[i], ck, t);
        }
      }
    }
    assert Covers(insns, remap, done + {key}, ck, succs) by {
      forall k, s, t | k in done + {key} && Sends(insns, remap, k, s, ck, t)
        ensures t in succs
      {
        if k == key {
          var i :| 0 <= i < |insns[key].successors| && insns[key].successors[i] == s;
          assert Image(remap, insns[key].successors[i]) == t;
        }
      }
    }
  }

  /** Every key of the graph with its representative. */
  function RemapOf(order: seq<Key>): map<Key, Key> {
    map k | k in order :: (match First(order, SlotOf(k)) case Some(c) => c case None => k)
  }

  lemma RemapUnique(order: seq<Key>, remap: map<Key, Key>)
    requires Represents(order, remap)
    ensures remap == RemapOf(order)
  {
  }

  /** `r` is `g` with every key replaced by its representative. */
  ghost predicate MergedFrom(g: Graph, r: Graph) {
    var remap := RemapOf(g.order);
    && r.entry == Image(remap, g.entry) && Lists(r.order, r.insns)
    && Merging(g.insns, remap, g.insns.Keys, r.insns)
  }

  /** If the representative of the next key is not merged yet, it is the next key. */
  lemma NextIsFirst(order: seq<Key>, remap: map<Key, Key>, i: nat, merged: set<Key>)
    requires i < |order| && Represents(order, remap)
    requires forall ck :: ck in merged <==> ck in order[..i] && Image(remap, ck) == ck
    ensures remap[order[i]] in order && Image(remap, remap[order[i]]) == remap[order[i]]
    ensures remap[order[i]] !in merged ==>
              remap[order[i]] == order[i] && forall k :: k in order[..i] ==> Image(remap, k) != order[i]
  {
    FirstIs(order, order[i]);
    FirstEarliest(order, i, remap[order[i]]);
    if remap[order[i]] !in merged {
      forall j | 0 <= j < i
        ensures remap[order[j]] != order[i]
      {
        FirstIs(order, order[j]);
        FirstEarliest(order, j, remap[order[j]]);
        assert order[..i] == order[..j + 1] + order[j + 1..i];
      }
    }
  }

  function Elements(s: seq<Key>): set<Key> {
    set k | k in s
  }

  lemma ElementsNext(s: seq<Key>, i: nat)
    requires i < |s|
    ensures Elements(s[..i + 1]) == Elements(s[..i]) + {s[i]}
  {
    assert s[..i + 1] == s[..i] + [s[i]];
  }

  /** Adds one key of the graph to the merged graph. */
  method MergeKey(insns: Records, remap: map<Key, Key>, ghost done: set<Key>, key: Key, ck: Key,
                  order: seq<Key>, merged: Records)
    returns (order': seq<Key>, merged': Records)
    requires Lists(order, merged) && Merging(insns, remap, done, merged)
    requires key in insns && key !in done && ck == Image(remap, key)
    requires ck !in merged ==> ck == key && forall k :: k in done ==> Image(remap, k) != key
    ensures Lists(order', merged') && Merging(insns, remap, done + {key}, merged')
  {
    if ck !in merged {
      var r := insns[key].(successors := Images(remap, insns[key].successors));
      MergeFirst(insns, remap, done, merged, key);
      ListsGrow(order, merged, ck, r);
      order', merged' := order + [ck], merged[ck := r];
    } else {
      var succs := AppendNew(merged[ck].successors, insns[key].successors, remap);
      MergeLater(insns, remap, done, merged, key, succs);
      order', merged' := order, merged[ck := merged[ck].(successors := succs)];
    }
  }

  /** The first `n` keys of the graph are merged. */
  ghost predicate MergedUpTo(g: Graph, remap: map<Key, Key>, n: nat, order: seq<Key>, merged: Records)
    requires n <= |g.order|
  {
    Lists(order, merged) && Merging(g.insns, remap, Elements(g.order[..n]), merged)
  }

  lemma NothingMerged(g: Graph, remap: map<Key, Key>)
    ensures MergedUpTo(g, remap, 0, [], map[])
  {
    assert g.order[..0] == [];
  }

  method MergeNext(g: Graph, remap: map<Key, Key>, i: nat, order: seq<Key>, merged: Records)
    returns (order': seq<Key>, merged': Records)
    requires Lists(g.order, g.insns) && Represents(g.order, remap) && i < |g.order|
    requires MergedUpTo(g, remap, i, order, merged)
    ensures MergedUpTo(g, remap, i + 1, order', merged')
  {
    var key := g.order[i];
    NextIsFirst(g.order, remap, i, merged.Keys);
    ElementsNext(g.order, i);
    order', merged' := MergeKey(g.insns, remap, Elements(g.order[..i]), key, remap[key], order, merged);
  }

  method Merge(g: Graph) returns (r: Graph)
    requires Lists(g.order, g.insns)
    ensures MergedFrom(g, r)
  {
    var remap := PickCanonical(g.order);
    var merged: Records, order: seq<Key> := map[], [];
    var i := 0;
    NothingMerged(g, remap);
    while i < |g.order|
      invariant 0 <= i <= |g.order| && MergedUpTo(g, remap, i, order, merged)
    {
      order, merged := MergeNext(g, remap, i, order, merged);
      i := i + 1;
    }
    r := Graph(if g.entry in remap then remap[g.entry] else g.entry, order, merged);
    AllMerged(g, remap, r);
  }

  lemma AllMerged(g: Graph, remap: map<Key, Key>, r: Graph)
    requires Lists(g.order, g.insns) && Represents(g.order, remap)
    requires MergedUpTo(g, remap, |g.order|, r.order, r.insns)
    requires r.entry == if g.entry in remap then remap[g.entry] else g.entry
    ensures MergedFrom(g, r)
  {
    RemapUnique(g.order, remap);
    assert g.order[..|g.order|] == g.order;
    assert Elements(g.order) == g.insns.Keys;
  }

  // ----- The merge is a quotient -----

  function Rep(g: Graph, k: Key): Key {
    Image(RemapOf(g.order), k)
  }

  /** A representative has the address and widths of the key it stands for. */
  lemma RepIs(g: Graph, r: Graph, k: Key)
    requires Lists(g.order, g.insns) && MergedFrom(g, r) && k in g.insns
    ensures Rep(g, k) in g.insns && Rep(g, k) in r.insns && SlotOf(Rep(g, k)) == SlotOf(k)
    ensures Rep(g, Rep(g, k)) == Rep(g, k) && First(g.order, SlotOf(k)) == Some(Rep(g, k))
  {
    FirstIs(g.order, k);
  }

  /** Two keys share a representative exactly when they share address and widths. */
  lemma SameRep(g: Graph, r: Graph, a: Key, b: Key)
    requires Lists(g.order, g.insns) && MergedFrom(g, r) && a in g.insns && b in g.insns
    ensures Rep(g, a) == Rep(g, b) <==> a.pc == b.pc && a.width == b.width
  {
    RepIs(g, r, a);
    RepIs(g, r, b);
  }

  /** One key per address and widths remains, and none of them is lost. */
  lemma OnePerSlot(g: Graph, r: Graph)
    requires Lists(g.order, g.insns) && MergedFrom(g, r)
    ensures forall a, b :: a in r.insns && b in r.insns && a.pc == b.pc && a.width == b.width ==> a == b
    ensures forall k :: k in g.insns ==> exists c :: c in r.insns && c.pc == k.pc && c.width == k.width
  {
    forall a, b | a in r.insns && b in r.insns && a.pc == b.pc && a.width == b.width
      ensures a == b
    {
      SameRep(g, r, a, b);
    }
    forall k | k in g.insns
      ensures exists c :: c in r.insns && c.pc == k.pc && c.width == k.width
    {
      RepIs(g, r, k);
      assert SlotOf(Rep(g, k)) == SlotOf(k);
    }
  }

  /** Every edge has an image, and every merged edge is the image of an edge. */
  lemma EdgesExact(g: Graph, r: Graph, ck: Key, t: Key)
    requires Lists(g.order, g.insns) && MergedFrom(g, r)
    ensures ck in r.insns && t in r.insns[ck].successors
       <==> exists k, s :: k in g.insns && s in g.insns[k].successors && Rep(g, k) == ck && Rep(g, s) == t
  {
    var remap := RemapOf(g.order);
    if ck in r.insns && t in r.insns[ck].successors {
      assert Gathers(g.insns, remap, g.insns.Keys, ck, r.insns[ck]);
      var k, s :| Sends(g.insns, remap, k, s, ck, t);
      assert Rep(g, k) == ck && Rep(g, s) == t;
    }
    if k, s :| k in g.insns && s in g.insns[k].successors && Rep(g, k) == ck && Rep(g, s) == t {
      RepIs(g, r, k);
      assert Gathers(g.insns, remap, g.insns.Keys, ck, r.insns[ck]);
      assert Sends(g.insns, remap, k, s, ck, t);
    }
  }

  lemma WalkMaps(g: Graph, r: Graph, p: seq<Key>)
    requires Lists(g.order, g.insns) && MergedFrom(g, r) && IsWalk(g.insns, p)
    ensures IsWalk(r.insns, Images(RemapOf(g.order), p))
  {
    var q := Images(RemapOf(g.order), p);
    forall i | 0 <= i < |q| - 1
      ensures q[i] in r.insns && q[i + 1] in r.insns[q[i]].successors
    {
      assert p[i] in g.insns && p[i + 1] in g.insns[p[i]].successors;
      assert Rep(g, p[i]) == q[i] && Rep(g, p[i + 1]) == q[i + 1];
      EdgesExact(g, r, q[i], q[i + 1]);
    }
  }

  /** The representative keeps its instruction, and its own successors stay where they were: the
      fall-through of a branch at 0 and its target at 1. */
  lemma PositionsKept(g: Graph, r: Graph, ck: Key, i: nat)
    requires Lists(g.order, g.insns) && MergedFrom(g, r) && ck in r.insns
    ensures ck in g.insns && r.insns[ck] == g.insns[ck].(successors := r.insns[ck].successors)
    ensures |g.insns[ck].successors| <= |r.insns[ck].successors|
    ensures i < |g.insns[ck].successors| ==> r.insns[ck].successors[i] == Rep(g, g.insns[ck].successors[i])
  {
    assert Gathers(g.insns, RemapOf(g.order), g.insns.Keys, ck, r.insns[ck]);
  }

  /** What a key with one successor at most merges to names nothing twice. */
  lemma MergedDistinct(g: Graph, r: Graph, ck: Key)
    requires Lists(g.order, g.insns) && MergedFrom(g, r) && ck in r.insns && ck in g.insns
    requires |g.insns[ck].successors| <= 1
    ensures forall i, j :: 0 <= i < j < |r.insns[ck].successors| ==>
              r.insns[ck].successors[i] != r.insns[ck].successors[j]
  {
    assert Gathers(g.insns, RemapOf(g.order), g.insns.Keys, ck, r.insns[ck]);
  }

  ghost predicate LeadsTo(g: Graph, k: Key, t: Key)
    requires k in g.insns
  {
    exists s :: s in g.insns[k].successors && Rep(g, s) == t
  }

  /** No successor is added exactly when the other keys of the slot lead where this one leads. */
  lemma NoneAdded(g: Graph, r: Graph, ck: Key)
    requires Lists(g.order, g.insns) && MergedFrom(g, r) && ck in r.insns
    ensures |r.insns[ck].successors| == |g.insns[ck].successors| <==>
            forall k, s :: k in g.insns && SlotOf(k) == SlotOf(ck) && s in g.insns[k].successors ==>
              LeadsTo(g, ck, Rep(g, s))
  {
    var remap := RemapOf(g.order);
    var own, all := g.insns[ck].successors, r.insns[ck].successors;
    assert Gathers(g.insns, remap, g.insns.Keys, ck, r.insns[ck]);
    if |all| == |own| {
      forall k, s | k in g.insns && SlotOf(k) == SlotOf(ck) && s in g.insns[k].successors
        ensures LeadsTo(g, ck, Rep(g, s))
      {
        SameRep(g, r, k, ck);
        assert Sends(g.insns, remap, k, s, ck, Rep(g, s));
        var i :| 0 <= i < |all| && all[i] == Rep(g, s);
        assert own[i] in own && Rep(g, own[i]) == Rep(g, s);
      }
    } else {
      var t := all[|own|];
      assert t in all;
      var k, s :| Sends(g.insns, remap, k, s, ck, t);
      RepIs(g, r, k);
      assert Rep(g, s) == t && SlotOf(k) == SlotOf(ck);
      forall s' | s' in own
        ensures Rep(g, s') != Rep(g, s)
      {
        var i :| 0 <= i < |own| && own[i] == s';
        assert all[i] == Rep(g, s') && all[i] != all[|own|];
      }
    }
  }

  /** Keys outside the graph are not merged. */
  lemma OutsideStays(g: Graph, s: Key)
    requires s !in g.order
    ensures Rep(g, s) == s
  {
  }
}
