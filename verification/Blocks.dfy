/** Basic blocks of a decoded function: leaders, the forward walk from each leader and the wiring
    of predecessors, against execution one instruction at a time. */
module Blocks {
  import opened Machine
  import opened Graphs
  import opened DomInvariants
  import opened Dominators
  import opened Frontier

  /** One decoded instruction as the flow graph sees it. */
  datatype Decoded = Decoded(mnem: Mnem, addr: nat, width: Width, successors: seq<Node>)

  type Code = map<Node, Decoded>

  datatype Block = Block(nodes: seq<Node>, successors: seq<Node>)

  /** Execution one instruction at a time: the decode edges. */
  function InsnGraph(code: Code): Graph {
    map k | k in code :: code[k].successors
  }

  /** Execution one block at a time. */
  function BlockGraph(blocks: map<Node, Block>): Graph {
    map b | b in blocks :: blocks[b].successors
  }

  // ----- In-degree with multiplicity -----

  function Count(ss: seq<Node>, s: Node): nat {
    if ss == [] then 0 else (if ss[0] == s then 1 else 0) + Count(ss[1..], s)
  }

  /** How often the first `n` instructions of `order` name `s` as a successor. */
  function Degree(code: Code, order: seq<Node>, n: nat, s: Node): nat
    requires n <= |order| && forall k :: k in order ==> k in code
  {
    if n == 0 then 0 else Degree(code, order, n - 1, s) + Count(code[order[n - 1]].successors, s)
  }

  lemma {:induction false} CountPositive(ss: seq<Node>, s: Node)
    ensures Count(ss, s) > 0 <==> s in ss
  {
    if ss != [] { CountPositive(ss[1..], s); }
  }

  lemma {:induction false} CountAppend(ss: seq<Node>, t: Node, s: Node)
    ensures Count(ss + [t], s) == Count(ss, s) + if t == s then 1 else 0
  {
    if ss != [] {
      CountAppend(ss[1..], t, s);
      assert (ss + [t])[1..] == ss[1..] + [t];
    }
  }

  lemma {:induction false} DegreeAtLeast(code: Code, order: seq<Node>, n: nat, s: Node, i: nat)
    requires Lists(order, code) && n <= |order| && i < n && s in code[order[i]].successors
    ensures Degree(code, order, n, s) > 0
    ensures forall j :: i < j < n && s in code[order[j]].successors ==> Degree(code, order, n, s) > 1
  {
    CountPositive(code[order[n - 1]].successors, s);
    if i < n - 1 {
      DegreeAtLeast(code, order, n - 1, s, i);
    }
  }

  /** Two instructions with a common successor make its in-degree exceed one. */
  lemma SharedSuccessor(code: Code, order: seq<Node>, p: Node, q: Node, s: Node)
    requires Lists(order, code) && p in code && q in code && p != q
    requires s in code[p].successors && s in code[q].successors
    ensures Degree(code, order, |order|, s) > 1
  {
    var i :| 0 <= i < |order| && order[i] == p;
    var j :| 0 <= j < |order| && order[j] == q;
    DegreeAtLeast(code, order, |order|, s, if i < j then i else j);
  }

  // ----- Leaders -----

  /** The entry, the successors of block-ending instructions and the join points. */
  ghost predicate IsLeader(code: Code, order: seq<Node>, entry: Node, k: Node)
    requires Lists(order, code)
  {
    k == entry ||
    (k in code && ((exists e :: e in code && EndsBlock(code[e].mnem) && k in code[e].successors)
                   || Degree(code, order, |order|, k) > 1))
  }

  /** The reverse-edge lists, one element per naming of a successor. */
  method ReverseEdges(code: Code, order: seq<Node>) returns (preds: map<Node, seq<Node>>)
    requires Lists(order, code)
    ensures forall s :: (if s in preds then |preds[s]| else 0) == Degree(code, order, |order|, s)
  {
    preds := map[];
    var i := 0;
    while i < |order|
      invariant 0 <= i <= |order|
      invariant forall s :: (if s in preds then |preds[s]| else 0) == Degree(code, order, i, s)
    {
      var succs := code[order[i]].successors;
      var j := 0;
      while j < |succs|
        invariant 0 <= j <= |succs|
        invariant forall s :: (if s in preds then |preds[s]| else 0) == Degree(code, order, i, s) + Count(succs[..j], s)
      {
        var s := succs[j];
        forall t
          ensures Count(succs[..j + 1], t) == Count(succs[..j], t) + if t == s then 1 else 0
        {
          assert succs[..j + 1] == succs[..j] + [s];
          CountAppend(succs[..j], s, t);
        }
        preds := preds[s := (if s in preds then preds[s] else []) + [order[i]]];
        j := j + 1;
      }
      assert succs[..|succs|] == succs;
      i := i + 1;
    }
  }

  ghost predicate EndedInto(code: Code, order: seq<Node>, n: nat, k: Node)
    requires Lists(order, code) && n <= |order|
  {
    exists j :: 0 <= j < n && EndsBlock(code[order[j]].mnem) && k in code[order[j]].successors
  }

  method IdentifyLeaders(code: Code, order: seq<Node>, entry: Node, preds: map<Node, seq<Node>>)
    returns (leaders: set<Node>)
    requires Lists(order, code)
    requires forall s :: (if s in preds then |preds[s]| else 0) == Degree(code, order, |order|, s)
    ensures forall k :: k in leaders <==> IsLeader(code, order, entry, k)
  {
    leaders := {entry};
    var i := 0;
    while i < |order|
      invariant 0 <= i <= |order|
      invariant forall k :: k in leaders <==> k == entry || (k in code && EndedInto(code, order, i, k))
    {
      var d := code[order[i]];
      if EndsBlock(d.mnem) {
        leaders := leaders + set s | s in d.successors && s in code;
      }
      i := i + 1;
    }
    assert forall e :: e in code ==> exists j :: 0 <= j < |order| && order[j] == e;
    leaders := leaders + set k | k in preds && |preds[k]| > 1 && k in code;
  }

  // ----- Blocks -----

  /** What one walk from a leader produces. */
  ghost predicate IsBlock(code: Code, leaders: set<Node>, leader: Node, nodes: seq<Node>) {
    && nodes != [] && nodes[0] == leader
    && (forall i :: 0 <= i < |nodes| ==> nodes[i] in code)
    && (forall i :: 0 < i < |nodes| ==> nodes[i] !in leaders)
    && (forall i :: 0 <= i < |nodes| - 1 ==> Falls(code, nodes[i], nodes[i + 1]))
    && Stops(code, leaders, nodes[|nodes| - 1])
  }

  /** Control passes from `k` to `s` and nowhere else, inside a block. */
  ghost predicate Falls(code: Code, k: Node, s: Node) {
    k in code && !EndsBlock(code[k].mnem) && code[k].successors == [s]
  }

  ghost predicate Stops(code: Code, leaders: set<Node>, k: Node) {
    k in code && forall s :: Falls(code, k, s) && s in code ==> s in leaders
  }

  ghost predicate AreBlocks(code: Code, leaders: set<Node>, blocks: map<Node, Block>) {
    && (forall b :: b in blocks <==> b in leaders && b in code)
    && (forall b :: b in blocks ==>
          var nodes := blocks[b].nodes;
          IsBlock(code, leaders, b, nodes) && blocks[b].successors == code[nodes[|nodes| - 1]].successors)
  }

  /** Leaders as `_identify_leaders` finds them. */
  ghost predicate LeadersOf(code: Code, order: seq<Node>, entry: Node, leaders: set<Node>) {
    Lists(order, code) && forall k :: k in leaders <==> IsLeader(code, order, entry, k)
  }

  /** Only a leader can follow two different instructions. */
  lemma NonLeaderPred(code: Code, order: seq<Node>, entry: Node, leaders: set<Node>, p: Node, q: Node, s: Node)
    requires LeadersOf(code, order, entry, leaders) && s in code && s !in leaders
    requires p in code && q in code && s in code[p].successors && s in code[q].successors
    ensures p == q && !EndsBlock(code[p].mnem)
  {
    if p != q { SharedSuccessor(code, order, p, q, s); }
  }

  /** A walk from a leader so far. */
  ghost predicate Walked(code: Code, leaders: set<Node>, leader: Node, nodes: seq<Node>) {
    && (nodes != [] ==> nodes[0] == leader)
    && (forall i :: 0 <= i < |nodes| ==> nodes[i] in code)
    && (forall i :: 0 < i < |nodes| ==> nodes[i] !in leaders)
    && (forall i :: 0 <= i < |nodes| - 1 ==> Falls(code, nodes[i], nodes[i + 1]))
  }

  lemma WalkedNext(code: Code, leaders: set<Node>, leader: Node, nodes: seq<Node>, k: Node)
    requires Walked(code, leaders, leader, nodes) && k in code
    requires if nodes == [] then k == leader else Falls(code, nodes[|nodes| - 1], k) && k !in leaders
    ensures Walked(code, leaders, leader, nodes + [k])
  {
  }

  /** A walk does not come back to an instruction other than its leader. */
  lemma WalkedOnce(code: Code, order: seq<Node>, entry: Node, leaders: set<Node>, leader: Node, nodes: seq<Node>,
                   j: nat, k: Node)
    requires LeadersOf(code, order, entry, leaders) && Walked(code, leaders, leader, nodes) && 0 < j < |nodes|
    requires nodes[j] == k && Falls(code, nodes[|nodes| - 1], k)
    ensures nodes[j - 1] == nodes[|nodes| - 1]
  {
    assert Falls(code, nodes[j - 1], nodes[j - 1 + 1]);
    NonLeaderPred(code, order, entry, leaders, nodes[j - 1], nodes[|nodes| - 1], k);
  }

  /** The forward walk from one leader. */
  method WalkBlock(code: Code, ghost order: seq<Node>, ghost entry: Node, leaders: set<Node>, leader: Node)
    returns (nodes: seq<Node>)
    requires LeadersOf(code, order, entry, leaders) && leader in leaders && leader in code
    ensures IsBlock(code, leaders, leader, nodes)
  {
    var cur := leader;
    var seen: set<Node> := {};
    nodes := [];
    while cur in code && cur !in seen
      invariant (forall k :: k in seen <==> k in nodes) && seen <= code.Keys
      invariant Walked(code, leaders, leader, nodes)
      invariant forall i, j :: 0 <= i < j < |nodes| ==> nodes[i] != nodes[j]
      invariant if nodes == [] then cur == leader
                else Falls(code, nodes[|nodes| - 1], cur) && (cur == leader || cur !in leaders)
      decreases code.Keys - seen
    {
      var d := code[cur];
      WalkedNext(code, leaders, leader, nodes, cur);
      seen := seen + {cur};
      nodes := nodes + [cur];
      if EndsBlock(d.mnem) || |d.successors| != 1 {
        return;
      }
      var next := d.successors[0];
      if next in leaders && next != leader {
        return;
      }
      cur := next;
    }
    if cur in seen && cur != leader {
      var j :| 0 <= j < |nodes| && nodes[j] == cur;
      WalkedOnce(code, order, entry, leaders, leader, nodes, j, cur);
    }
  }

  lemma NonEmpty(nodes: set<Node>)
    requires nodes != {}
    ensures exists k :: k in nodes
  {
    if forall k :: k !in nodes { assert false; }
  }

  method BuildBlocks(code: Code, ghost order: seq<Node>, ghost entry: Node, leaders: set<Node>)
    returns (blocks: map<Node, Block>, found: seq<Node>)
    requires LeadersOf(code, order, entry, leaders)
    ensures AreBlocks(code, leaders, blocks)
    ensures forall b :: b in found <==> b in blocks
  {
    blocks, found := map[], [];
    var rest := leaders;
    while rest != {}
      invariant rest <= leaders
      invariant forall b :: b in blocks <==> b in leaders && b !in rest && b in code
      invariant forall b :: b in blocks ==>
                  var nodes := blocks[b].nodes;
                  IsBlock(code, leaders, b, nodes) && blocks[b].successors == code[nodes[|nodes| - 1]].successors
      invariant forall b :: b in found <==> b in blocks
      decreases rest
    {
      NonEmpty(rest);
      var leader :| leader in rest;
      rest := rest - {leader};
      if leader in code {
        var nodes := WalkBlock(code, order, entry, leaders, leader);
        blocks := blocks[leader := Block(nodes, code[nodes[|nodes| - 1]].successors)];
        found := found + [leader];
      }
    }
  }

  /** Appends `b` to the predecessor list of each of its successors. */
  method AppendPredecessor(start: map<Node, seq<Node>>, b: Node, succs: seq<Node>) returns (preds: map<Node, seq<Node>>)
    ensures preds.Keys == start.Keys
    ensures forall n, p :: n in preds ==> (p in preds[n] <==> p in start[n] || (p == b && n in succs))
  {
    preds := start;
    var j := 0;
    while j < |succs|
      invariant 0 <= j <= |succs| && preds.Keys == start.Keys
      invariant forall n, p :: n in preds ==> (p in preds[n] <==> p in start[n] || (p == b && n in succs[..j]))
    {
      var s := succs[j];
      if s in preds {
        preds := preds[s := preds[s] + [b]];
      }
      assert succs[..j + 1] == succs[..j] + [s];
      j := j + 1;
    }
    assert succs[..|succs|] == succs;
  }

  /** The predecessor lists of the blocks. */
  method WirePredecessors(blocks: map<Node, Block>, found: seq<Node>) returns (preds: map<Node, seq<Node>>)
    requires forall b :: b in found <==> b in blocks
    ensures Transposes(BlockGraph(blocks), preds)
  {
    preds := map b | b in blocks :: [];
    var i := 0;
    while i < |found|
      invariant 0 <= i <= |found| && preds.Keys == blocks.Keys
      invariant forall n, p :: n in preds ==>
                  (p in preds[n] <==> p in found[..i] && p in blocks && n in blocks[p].successors)
    {
      var b := found[i];
      preds := AppendPredecessor(preds, b, blocks[b].successors);
      assert found[..i + 1] == found[..i] + [b];
      i := i + 1;
    }
    assert found[..|found|] == found;
  }

  datatype Cfg = Cfg(entry: Node, blocks: map<Node, Block>, preds: map<Node, seq<Node>>,
                     dominators: map<Node, Node>, frontier: map<Node, set<Node>>)

  /** `build_cfg`: blocks, dominators and frontiers of one decoded function. */
  method BuildCfg(code: Code, order: seq<Node>, entry: Node) returns (cfg: Cfg)
    requires Lists(order, code)
    ensures cfg.entry == entry
    ensures exists leaders :: LeadersOf(code, order, entry, leaders) && AreBlocks(code, leaders, cfg.blocks)
    ensures var g := BlockGraph(cfg.blocks);
            Transposes(g, cfg.preds) && cfg.frontier.Keys == g.Keys && (entry in g <==> entry in code) &&
            (if entry in g then DominatorMap(g, entry, cfg.dominators) else cfg.dominators == map[]) &&
            forall x, y :: x in cfg.frontier ==> (y in cfg.frontier[x] <==> Collected(g, cfg.preds, entry, x, y))
  {
    var reverse := ReverseEdges(code, order);
    var leaders := IdentifyLeaders(code, order, entry, reverse);
    var blocks, found := BuildBlocks(code, order, entry, leaders);
    var preds := WirePredecessors(blocks, found);
    var g := BlockGraph(blocks);
    var idom := ComputeDominators(g, preds, entry);
    var df := ComputeFrontier(g, preds, found, entry, idom);
    cfg := Cfg(entry, blocks, preds, idom, df);
  }

  // ----- Blocks partition the code and run like it -----

  /** The decode edges leave no instruction of several successors in mid-block unless each of its
      successors starts a block of its own. */
  ghost predicate SplitsLead(code: Code, leaders: set<Node>) {
    forall k, s ::
      (k in code && !EndsBlock(code[k].mnem) && |code[k].successors| > 1 && s in code[k].successors && s in code) ==>
      s in leaders
  }

  ghost predicate InBlock(blocks: map<Node, Block>, b: Node, i: int, k: Node) {
    b in blocks && 0 <= i < |blocks[b].nodes| && blocks[b].nodes[i] == k
  }

  /** What comes before an instruction in its block. */
  lemma BeforeInBlock(code: Code, leaders: set<Node>, blocks: map<Node, Block>, b: Node, i: nat, k: Node)
    requires AreBlocks(code, leaders, blocks) && InBlock(blocks, b, i, k)
    ensures k in code
    ensures if i == 0 then k == b && k in leaders
            else k !in leaders && Falls(code, blocks[b].nodes[i - 1], k)
  {
    var nodes := blocks[b].nodes;
    assert IsBlock(code, leaders, b, nodes);
    if i > 0 { assert Falls(code, nodes[i - 1], nodes[i - 1 + 1]); }
  }

  /** No instruction lies in two places. */
  lemma {:induction false} BlocksDisjoint(code: Code, order: seq<Node>, entry: Node, leaders: set<Node>,
                                          blocks: map<Node, Block>, a: Node, i: nat, b: Node, j: nat, k: Node)
    requires LeadersOf(code, order, entry, leaders) && AreBlocks(code, leaders, blocks)
    requires InBlock(blocks, a, i, k) && InBlock(blocks, b, j, k)
    ensures a == b && i == j
    decreases i
  {
    BeforeInBlock(code, leaders, blocks, a, i, k);
    BeforeInBlock(code, leaders, blocks, b, j, k);
    if i > 0 {
      var p, q := blocks[a].nodes[i - 1], blocks[b].nodes[j - 1];
      NonLeaderPred(code, order, entry, leaders, p, q, k);
      BlocksDisjoint(code, order, entry, leaders, blocks, a, i - 1, b, j - 1, p);
    }
  }

  /** From an instruction in a block, control passes to the next one of the block or leaves the
      block for the start of another. */
  lemma StepInBlock(code: Code, order: seq<Node>, entry: Node, leaders: set<Node>,
                    blocks: map<Node, Block>, b: Node, i: nat, k: Node, s: Node)
    requires LeadersOf(code, order, entry, leaders) && AreBlocks(code, leaders, blocks) && SplitsLead(code, leaders)
    requires InBlock(blocks, b, i, k) && s in code && s in code[k].successors
    ensures if s in leaders then i == |blocks[b].nodes| - 1 && s in blocks[b].successors && InBlock(blocks, s, 0, s)
            else InBlock(blocks, b, i + 1, s)
  {
    var nodes := blocks[b].nodes;
    assert IsBlock(code, leaders, b, nodes);
    if i < |nodes| - 1 {
      assert Falls(code, nodes[i], nodes[i + 1]);
    } else {
      assert Stops(code, leaders, k);
      assert |code[k].successors| == 1 && !EndsBlock(code[k].mnem) ==> Falls(code, k, s);
      if s !in leaders {
        NonLeaderPred(code, order, entry, leaders, k, k, s);
        assert false;
      }
    }
    if s in leaders {
      assert IsBlock(code, leaders, s, blocks[s].nodes);
    }
  }

  lemma PathInit(code: Code, entry: Node, p: seq<Node>, k: Node)
    requires PathFromTo(InsnGraph(code), entry, p, k) && |p| > 1
    ensures PathFromTo(InsnGraph(code), entry, p[..|p| - 1], p[|p| - 2])
    ensures p[|p| - 2] in code && k in code && k in code[p[|p| - 2]].successors && p == p[..|p| - 1] + [k]
  {
    assert p[|p| - 2 + 1] in InsnGraph(code)[p[|p| - 2]];
  }

  lemma EntryInBlock(code: Code, order: seq<Node>, entry: Node, leaders: set<Node>, blocks: map<Node, Block>)
    requires LeadersOf(code, order, entry, leaders) && AreBlocks(code, leaders, blocks) && entry in code
    ensures entry in leaders && InBlock(blocks, entry, 0, entry)
  {
    assert IsLeader(code, order, entry, entry);
    assert IsBlock(code, leaders, entry, blocks[entry].nodes);
  }

  lemma {:induction false} ReachedIsInBlock(code: Code, order: seq<Node>, entry: Node, leaders: set<Node>,
                                            blocks: map<Node, Block>, p: seq<Node>, k: Node)
    returns (b: Node, i: nat)
    requires LeadersOf(code, order, entry, leaders) && AreBlocks(code, leaders, blocks) && SplitsLead(code, leaders)
    requires PathFromTo(InsnGraph(code), entry, p, k)
    ensures InBlock(blocks, b, i, k)
    decreases |p|
  {
    if |p| == 1 {
      b, i := k, 0;
      EntryInBlock(code, order, entry, leaders, blocks);
    } else {
      var j := p[|p| - 2];
      PathInit(code, entry, p, k);
      b, i := ReachedIsInBlock(code, order, entry, leaders, blocks, p[..|p| - 1], j);
      StepInBlock(code, order, entry, leaders, blocks, b, i, j, k);
      if k in leaders { b, i := k, 0; } else { i := i + 1; }
    }
  }

  /** All instructions being reachable, the blocks cover them exactly when every instruction in
      mid-block has a single successor or leads only to leaders. */
  lemma PartitionExact(code: Code, order: seq<Node>, entry: Node, leaders: set<Node>, blocks: map<Node, Block>)
    requires LeadersOf(code, order, entry, leaders) && AreBlocks(code, leaders, blocks)
    requires forall k :: k in code ==> Reachable(InsnGraph(code), entry, k)
    ensures (forall k :: k in code ==> exists b, i :: InBlock(blocks, b, i, k)) <==> SplitsLead(code, leaders)
  {
    if SplitsLead(code, leaders) {
      forall k | k in code
        ensures exists b, i :: InBlock(blocks, b, i, k)
      {
        var p :| PathFromTo(InsnGraph(code), entry, p, k);
        var b, i := ReachedIsInBlock(code, order, entry, leaders, blocks, p, k);
      }
    } else {
      var k, s :| k in code && !EndsBlock(code[k].mnem) && |code[k].successors| > 1 &&
                  s in code[k].successors && s in code && s !in leaders;
      if b, i :| InBlock(blocks, b, i, s) {
        BeforeInBlock(code, leaders, blocks, b, i, s);
        NonLeaderPred(code, order, entry, leaders, blocks[b].nodes[i - 1], k, s);
        assert false;
      }
    }
  }

  /** Returns, stops, branches, jumps and calls. */
  predicate TransfersControl(mnem: Mnem) {
    mnem in {RTS, RTL, RTI, STP, WAI, BRK, BRA, BRL, BPL, BMI, BVC, BVS, BCC, BCS, BNE, BEQ, JMP, JSR, JSL}
  }

  /** These come only at the end of a block; a block that ends with anything else ends before a leader,
      at a split or where the code ends. */
  lemma TransfersComeLast(code: Code, leaders: set<Node>, b: Node, nodes: seq<Node>, i: nat)
    requires IsBlock(code, leaders, b, nodes) && i < |nodes|
    ensures nodes[i] in code && (TransfersControl(code[nodes[i]].mnem) ==> i == |nodes| - 1)
    ensures i == |nodes| - 1 && !TransfersControl(code[nodes[i]].mnem) && |code[nodes[i]].successors| == 1 ==>
              code[nodes[i]].successors[0] in leaders || code[nodes[i]].successors[0] !in code
  {
    var d := code[nodes[i]];
    if i < |nodes| - 1 {
      assert Falls(code, nodes[i], nodes[i + 1]);
    } else if !TransfersControl(d.mnem) && |d.successors| == 1 {
      assert Falls(code, nodes[i], d.successors[0]);
    }
  }

  /** What they lead to starts a block. */
  lemma TransfersLead(code: Code, order: seq<Node>, entry: Node, leaders: set<Node>, k: Node, s: Node)
    requires LeadersOf(code, order, entry, leaders) && k in code && s in code && s in code[k].successors
    requires TransfersControl(code[k].mnem)
    ensures s in leaders
  {
    assert IsLeader(code, order, entry, s);
  }

  lemma {:induction false} CountDistinct(ss: seq<Node>, s: Node)
    requires forall i, j :: 0 <= i < j < |ss| ==> ss[i] != ss[j]
    ensures Count(ss, s) <= 1
    decreases |ss|
  {
    if ss != [] {
      CountDistinct(ss[1..], s);
      CountPositive(ss[1..], s);
    }
  }

  /** What only one instruction names, and only once, is no join. */
  lemma {:induction false} DegreeSole(code: Code, order: seq<Node>, n: nat, p: Node, s: Node)
    requires Lists(order, code) && n <= |order| && p in code && Count(code[p].successors, s) <= 1
    requires forall q :: q in code && s in code[q].successors ==> q == p
    ensures Degree(code, order, n, s) <= if p in order[..n] then 1 else 0
    decreases n
  {
    if n > 0 {
      DegreeSole(code, order, n - 1, p, s);
      assert order[..n] == order[..n - 1] + [order[n - 1]];
      CountPositive(code[order[n - 1]].successors, s);
    }
  }

  /** The instructions executed along a sequence of blocks. */
  ghost function Flatten(blocks: map<Node, Block>, bs: seq<Node>): seq<Node>
    requires forall i :: 0 <= i < |bs| ==> bs[i] in blocks
  {
    if bs == [] then []
    else Flatten(blocks, bs[..|bs| - 1]) + blocks[bs[|bs| - 1]].nodes
  }

  lemma BlockIsPath(code: Code, leaders: set<Node>, b: Node, nodes: seq<Node>)
    requires IsBlock(code, leaders, b, nodes)
    ensures IsPath(InsnGraph(code), nodes)
  {
    forall i | 0 <= i < |nodes| - 1
      ensures nodes[i + 1] in InsnGraph(code)[nodes[i]]
    {
      assert Falls(code, nodes[i], nodes[i + 1]);
    }
  }

  /** Running block by block executes a path of the decoded code. */
  lemma {:induction false} BlockRunIsCodeRun(code: Code, leaders: set<Node>, blocks: map<Node, Block>, bs: seq<Node>)
    requires AreBlocks(code, leaders, blocks) && IsPath(BlockGraph(blocks), bs)
    ensures var p, last := Flatten(blocks, bs), blocks[bs[|bs| - 1]].nodes;
            IsPath(InsnGraph(code), p) && p[0] == bs[0] && last != [] && p[|p| - 1] == last[|last| - 1]
    decreases |bs|
  {
    var b := bs[|bs| - 1];
    var nodes := blocks[b].nodes;
    assert IsBlock(code, leaders, b, nodes);
    BlockIsPath(code, leaders, b, nodes);
    var front := bs[..|bs| - 1];
    if front == [] {
      assert Flatten(blocks, bs) == nodes;
    } else {
      BlockRunIsCodeRun(code, leaders, blocks, front);
      var q, a := Flatten(blocks, front), bs[|bs| - 2];
      assert bs[|bs| - 2 + 1] in BlockGraph(blocks)[a];
      assert nodes[0] in InsnGraph(code)[q[|q| - 1]];
      PathsMeet(InsnGraph(code), q, nodes);
    }
  }

  lemma PathsMeet(g: Graph, p: seq<Node>, q: seq<Node>)
    requires IsPath(g, p) && IsPath(g, q) && q[0] in g[p[|p| - 1]]
    ensures IsPath(g, p + q)
  {
  }

  /** `p` executes the blocks of `bs` up to and including instruction `i` of the last one. */
  ghost predicate RunsTo(blocks: map<Node, Block>, p: seq<Node>, bs: seq<Node>, i: nat) {
    && IsPath(BlockGraph(blocks), bs)
    && i < |blocks[bs[|bs| - 1]].nodes|
    && p == Flatten(blocks, bs[..|bs| - 1]) + blocks[bs[|bs| - 1]].nodes[..i + 1]
  }

  lemma RunStarts(blocks: map<Node, Block>, entry: Node)
    requires InBlock(blocks, entry, 0, entry)
    ensures RunsTo(blocks, [entry], [entry], 0)
  {
    assert blocks[entry].nodes[..1] == [entry];
  }

  lemma RunEntersBlock(blocks: map<Node, Block>, q: seq<Node>, bs: seq<Node>, i: nat, k: Node)
    requires RunsTo(blocks, q, bs, i) && i == |blocks[bs[|bs| - 1]].nodes| - 1
    requires k in blocks[bs[|bs| - 1]].successors && InBlock(blocks, k, 0, k)
    ensures RunsTo(blocks, q + [k], bs + [k], 0)
  {
    var nodes := blocks[bs[|bs| - 1]].nodes;
    assert nodes[..|nodes|] == nodes;
    assert (bs + [k])[..|bs|] == bs;
    assert blocks[k].nodes[..1] == [k];
  }

  lemma RunStays(blocks: map<Node, Block>, q: seq<Node>, bs: seq<Node>, i: nat, k: Node)
    requires RunsTo(blocks, q, bs, i) && InBlock(blocks, bs[|bs| - 1], i + 1, k)
    ensures RunsTo(blocks, q + [k], bs, i + 1)
  {
    var nodes := blocks[bs[|bs| - 1]].nodes;
    assert nodes[..i + 2] == nodes[..i + 1] + [k];
  }

  /** Every run of the decoded code from the entry is a run of whole blocks and the beginning of
      one more. */
  lemma {:induction false} CodeRunIsBlockRun(code: Code, order: seq<Node>, entry: Node, leaders: set<Node>,
                                             blocks: map<Node, Block>, p: seq<Node>, k: Node)
    returns (bs: seq<Node>, i: nat)
    requires LeadersOf(code, order, entry, leaders) && AreBlocks(code, leaders, blocks) && SplitsLead(code, leaders)
    requires PathFromTo(InsnGraph(code), entry, p, k)
    ensures RunsTo(blocks, p, bs, i) && bs[0] == entry && InBlock(blocks, bs[|bs| - 1], i, k)
    decreases |p|
  {
    if |p| == 1 {
      bs, i := [entry], 0;
      EntryInBlock(code, order, entry, leaders, blocks);
      RunStarts(blocks, entry);
      assert p == [entry];
    } else {
      PathInit(code, entry, p, k);
      var bs0, i0 := CodeRunIsBlockRun(code, order, entry, leaders, blocks, p[..|p| - 1], p[|p| - 2]);
      bs, i := RunGoesOn(code, order, entry, leaders, blocks, p[..|p| - 1], bs0, i0, p[|p| - 2], k);
    }
  }

  /** A run of blocks up to `j` goes on to `k`. */
  lemma RunGoesOn(code: Code, order: seq<Node>, entry: Node, leaders: set<Node>, blocks: map<Node, Block>,
                  q: seq<Node>, bs: seq<Node>, i: nat, j: Node, k: Node)
    returns (bs': seq<Node>, i': nat)
    requires LeadersOf(code, order, entry, leaders) && AreBlocks(code, leaders, blocks) && SplitsLead(code, leaders)
    requires RunsTo(blocks, q, bs, i) && InBlock(blocks, bs[|bs| - 1], i, j) && j in code
    requires k in code && k in code[j].successors
    ensures RunsTo(blocks, q + [k], bs', i') && bs'[0] == bs[0] && InBlock(blocks, bs'[|bs'| - 1], i', k)
  {
    StepInBlock(code, order, entry, leaders, blocks, bs[|bs| - 1], i, j, k);
    if k in leaders {
      RunEntersBlock(blocks, q, bs, i, k);
      bs', i' := bs + [k], 0;
    } else {
      RunStays(blocks, q, bs, i, k);
      bs', i' := bs, i + 1;
    }
  }
}
