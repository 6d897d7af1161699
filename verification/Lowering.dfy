/** From a decoded, merged and folded function to the code that basic blocks are built from. */
module Lowering {
  import opened Machine
  import opened Decoder
  import opened ConstZFold
  import Graphs
  import Blocks

  /** A number for every key a graph mentions. */
  ghost predicate Numbers(g: Graph, id: map<Key, Graphs.Node>) {
    && (forall k :: k in g.insns ==> k in id)
    && (forall k, s :: k in g.insns && s in g.insns[k].successors ==> s in id)
    && (forall a, b :: a in id && b in id && id[a] == id[b] ==> a == b)
  }

  function Ids(id: map<Key, Graphs.Node>, ks: seq<Key>): (r: seq<Graphs.Node>)
    requires forall k :: k in ks ==> k in id
    ensures |r| == |ks| && forall i :: 0 <= i < |ks| ==> r[i] == id[ks[i]]
  {
    seq(|ks|, i requires 0 <= i < |ks| => id[ks[i]])
  }

  function Lowered(r: Record<Key>, k: Key, id: map<Key, Graphs.Node>): Blocks.Decoded
    requires forall s :: s in r.successors ==> s in id
  {
    Blocks.Decoded(r.insn.mnem, k.pc, r.width, Ids(id, r.successors))
  }

  /** The code of a graph. */
  ghost function CodeOf(g: Graph, id: map<Key, Graphs.Node>): Blocks.Code
    requires Numbers(g, id)
  {
    map k | k in g.insns :: id[k] := Lowered(g.insns[k], k, id)
  }

  lemma CodeIs(g: Graph, id: map<Key, Graphs.Node>, k: Key)
    requires Numbers(g, id) && k in g.insns
    ensures id[k] in CodeOf(g, id) && CodeOf(g, id)[id[k]] == Lowered(g.insns[k], k, id)
    ensures var d := CodeOf(g, id)[id[k]];
            d.mnem == g.insns[k].insn.mnem && d.addr == k.pc && d.width == g.insns[k].width
  {
  }

  lemma CodeFrom(g: Graph, id: map<Key, Graphs.Node>, n: Graphs.Node) returns (k: Key)
    requires Numbers(g, id) && n in CodeOf(g, id)
    ensures k in g.insns && id[k] == n
  {
    k :| k in g.insns && id[k] == n;
  }

  lemma NameIn(id: map<Key, Graphs.Node>, ks: seq<Key>, s: Key)
    requires (forall k :: k in ks ==> k in id) && s in id
    requires forall a, b :: a in id && b in id && id[a] == id[b] ==> a == b
    ensures id[s] in Ids(id, ks) <==> s in ks
  {
    if s in ks {
      var i :| 0 <= i < |ks| && ks[i] == s;
      assert Ids(id, ks)[i] == id[s];
    }
    if id[s] in Ids(id, ks) {
      var i :| 0 <= i < |ks| && Ids(id, ks)[i] == id[s];
      assert ks[i] in ks;
    }
  }

  /** A walk inside the graph is a path of its code. */
  lemma WalkIsPath(g: Graph, id: map<Key, Graphs.Node>, p: seq<Key>)
    requires Numbers(g, id) && IsWalk(g.insns, p) && p[|p| - 1] in g.insns
    ensures forall k :: k in p ==> k in id
    ensures Graphs.PathFromTo(Blocks.InsnGraph(CodeOf(g, id)), id[p[0]], Ids(id, p), id[p[|p| - 1]])
  {
    forall i | 0 <= i < |p|
      ensures p[i] in g.insns
    {
      assert i < |p| - 1 ==> p[i] in g.insns;
    }
    var q, code := Ids(id, p), CodeOf(g, id);
    forall i | 0 <= i < |p|
      ensures q[i] in code
    {
      CodeIs(g, id, p[i]);
    }
    forall i | 0 <= i < |p| - 1
      ensures q[i + 1] in Blocks.InsnGraph(code)[q[i]]
    {
      CodeIs(g, id, p[i]);
      assert p[i] in g.insns && p[i + 1] in g.insns[p[i]].successors;
      NameIn(id, g.insns[p[i]].successors, p[i + 1]);
    }
  }

  /** All code of a folded function is reachable from its entry. */
  lemma FoldedReachable(merged: Graph, folded: Graph, id: map<Key, Graphs.Node>, n: Graphs.Node)
    requires FoldsTo(merged, folded) && folded.entry in folded.insns && Numbers(folded, id) && n in CodeOf(folded, id)
    ensures Graphs.Reachable(Blocks.InsnGraph(CodeOf(folded, id)), id[folded.entry], n)
  {
    var f :| FoldedFrom(merged.insns, f) && PrunedFrom(f, merged.entry, folded.insns);
    var k := CodeFrom(folded, id, n);
    SurvivorsReached(f, merged.entry, folded.insns, k);
    var p :| IsWalk(folded.insns, p) && p[0] == merged.entry && p[|p| - 1] == k && k in folded.insns;
    WalkIsPath(folded, id, p);
  }

  /** The blocks of a decoded, merged and folded function cover its code exactly when every
      instruction that does not end a block but has several successors leads only to leaders. */
  lemma FoldedPartition(merged: Graph, folded: Graph, id: map<Key, Graphs.Node>, order: seq<Graphs.Node>,
                        leaders: set<Graphs.Node>, blocks: map<Graphs.Node, Blocks.Block>)
    requires FoldsTo(merged, folded) && folded.entry in folded.insns && Numbers(folded, id)
    requires Blocks.LeadersOf(CodeOf(folded, id), order, id[folded.entry], leaders)
    requires Blocks.AreBlocks(CodeOf(folded, id), leaders, blocks)
    ensures (forall n :: n in CodeOf(folded, id) ==> exists b, i :: Blocks.InBlock(blocks, b, i, n)) <==>
            Blocks.SplitsLead(CodeOf(folded, id), leaders)
  {
    forall n | n in CodeOf(folded, id)
      ensures Graphs.Reachable(Blocks.InsnGraph(CodeOf(folded, id)), id[folded.entry], n)
    {
      FoldedReachable(merged, folded, id, n);
    }
    Blocks.PartitionExact(CodeOf(folded, id), order, id[folded.entry], leaders, blocks);
  }

  ghost predicate AllDistinct<T(!new)>(s: seq<T>) {
    forall i, j :: 0 <= i < j < |s| ==> s[i] != s[j]
  }

  /** Only `p` names `s`, once, and `p` does not end a block. */
  ghost predicate OnlyFrom(g: Graph, p: Key, s: Key) {
    && p in g.insns && s in g.insns && s != g.entry && AllDistinct(g.insns[p].successors)
    && !EndsBlock(g.insns[p].insn.mnem) && forall q :: q in g.insns && s in g.insns[q].successors ==> q == p
  }

  lemma NamedOnlyFrom(g: Graph, id: map<Key, Graphs.Node>, p: Key, s: Key, n: Graphs.Node)
    requires Numbers(g, id) && OnlyFrom(g, p, s) && n in CodeOf(g, id) && id[s] in CodeOf(g, id)[n].successors
    ensures n == id[p]
  {
    var q := CodeFrom(g, id, n);
    CodeIs(g, id, q);
    NameIn(id, g.insns[q].successors, s);
  }

  /** Such a key does not start a block. */
  lemma NotALeader(g: Graph, id: map<Key, Graphs.Node>, order: seq<Graphs.Node>, leaders: set<Graphs.Node>,
                   p: Key, s: Key)
    requires Numbers(g, id) && g.entry in g.insns && OnlyFrom(g, p, s)
    requires Blocks.LeadersOf(CodeOf(g, id), order, id[g.entry], leaders)
    ensures id[s] !in leaders
  {
    var code := CodeOf(g, id);
    CodeIs(g, id, p);
    CodeIs(g, id, s);
    Blocks.CountDistinct(code[id[p]].successors, id[s]);
    forall n | n in code && id[s] in code[n].successors
      ensures n == id[p]
    {
      NamedOnlyFrom(g, id, p, s, n);
    }
    Blocks.DegreeSole(code, order, |order|, id[p], id[s]);
  }

  /** A split inside a block with such a successor leaves code outside all blocks. */
  lemma SplitLosesCode(merged: Graph, folded: Graph, id: map<Key, Graphs.Node>, order: seq<Graphs.Node>,
                       leaders: set<Graphs.Node>, blocks: map<Graphs.Node, Blocks.Block>, p: Key, s: Key)
    requires FoldsTo(merged, folded) && folded.entry in folded.insns && Numbers(folded, id)
    requires Blocks.LeadersOf(CodeOf(folded, id), order, id[folded.entry], leaders)
    requires Blocks.AreBlocks(CodeOf(folded, id), leaders, blocks)
    requires OnlyFrom(folded, p, s) && s in folded.insns[p].successors && |folded.insns[p].successors| > 1
    ensures exists n :: n in CodeOf(folded, id) && forall b, i :: !Blocks.InBlock(blocks, b, i, n)
  {
    NotALeader(folded, id, order, leaders, p, s);
    SplitUnled(folded, id, leaders, p, s);
    FoldedPartition(merged, folded, id, order, leaders, blocks);
  }

  lemma SplitUnled(g: Graph, id: map<Key, Graphs.Node>, leaders: set<Graphs.Node>, p: Key, s: Key)
    requires Numbers(g, id) && p in g.insns && s in g.insns && !EndsBlock(g.insns[p].insn.mnem)
    requires s in g.insns[p].successors && |g.insns[p].successors| > 1 && id[s] !in leaders
    ensures !Blocks.SplitsLead(CodeOf(g, id), leaders)
  {
    CodeIs(g, id, p);
    CodeIs(g, id, s);
    NameIn(id, g.insns[p].successors, s);
  }
}
