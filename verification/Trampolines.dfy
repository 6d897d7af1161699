/** `_classify_trampoline_returns`: returns that some path reaches with bytes left over from a
    PEA, PEI or PER. */
module Trampolines {
  import opened Machine
  import opened Graphs
  import opened Blocks

  /** Net bytes pushed since entry, clamped, and whether an address push was met. */
  datatype State = State(delta: int, pushed: bool)

  function StackWidth(eightBit: bool): int {
    if eightBit then 1 else 2
  }

  /** Stack movement of one instruction; `None` for those that overwrite S. */
  function StackDelta(d: Decoded): Option<int> {
    match d.mnem
    case PEA => Some(2)
    case PEI => Some(2)
    case PER => Some(2)
    case PHD => Some(2)
    case PHP => Some(1)
    case PHB => Some(1)
    case PHK => Some(1)
    case PHA => Some(StackWidth(d.width.m))
    case PHX => Some(StackWidth(d.width.x))
    case PHY => Some(StackWidth(d.width.x))
    case PLD => Some(-2)
    case PLP => Some(-1)
    case PLB => Some(-1)
    case PLA => Some(-StackWidth(d.width.m))
    case PLX => Some(-StackWidth(d.width.x))
    case PLY => Some(-StackWidth(d.width.x))
    case TCS => None
    case TXS => None
    case _ => Some(0)
  }

  function Clamp(v: int): int {
    if v < -64 then -64 else if v > 64 then 64 else v
  }

  /** The nearest delta that is within 64 bytes. */
  lemma ClampIs(v: int, u: int)
    requires -64 <= u <= 64
    ensures -64 <= Clamp(v) <= 64
    ensures if v <= u then v <= Clamp(v) <= u || Clamp(v) == -64 else u <= Clamp(v) <= v || Clamp(v) == 64
    ensures -64 <= v <= 64 ==> Clamp(v) == v
  {
  }

  predicate PushesAddress(mnem: Mnem) {
    mnem in {PEA, PEI, PER}
  }

  function Step(d: Decoded, s: State): State {
    var pushed := s.pushed || PushesAddress(d.mnem);
    match StackDelta(d)
    case None => State(0, pushed)
    case Some(v) => State(Clamp(s.delta + v), pushed)
  }

  predicate Bounded(s: State) {
    -64 <= s.delta <= 64
  }

  // ----- Meaning: one path at a time -----

  /** The state one path of instructions leads to. */
  ghost function Run(code: Code, p: seq<Node>, s: State): State
    requires forall i :: 0 <= i < |p| ==> p[i] in code
  {
    if p == [] then s else Step(code[p[|p| - 1]], Run(code, p[..|p| - 1], s))
  }

  lemma {:induction false} RunJoin(code: Code, p: seq<Node>, q: seq<Node>, s: State)
    requires (forall i :: 0 <= i < |p| ==> p[i] in code) && (forall i :: 0 <= i < |q| ==> q[i] in code)
    ensures Run(code, p + q, s) == Run(code, q, Run(code, p, s))
  {
    if q == [] {
      assert p + q == p;
    } else {
      assert (p + q)[..|p + q| - 1] == p + q[..|q| - 1];
      RunJoin(code, p, q[..|q| - 1], s);
    }
  }

  /** The same path with an unbounded counter. */
  ghost function TrueDelta(code: Code, p: seq<Node>): int
    requires forall i :: 0 <= i < |p| ==> p[i] in code
  {
    if p == [] then 0
    else match StackDelta(code[p[|p| - 1]])
      case None => 0
      case Some(v) => TrueDelta(code, p[..|p| - 1]) + v
  }

  /** On a path that never strays more than 64 bytes from its entry level the clamp is invisible. */
  lemma {:induction false} ClampInvisible(code: Code, p: seq<Node>)
    requires forall i :: 0 <= i < |p| ==> p[i] in code
    requires forall i :: 0 <= i <= |p| ==> -64 <= TrueDelta(code, p[..i]) <= 64
    ensures Run(code, p, State(0, false)).delta == TrueDelta(code, p)
  {
    if p != [] {
      var q := p[..|p| - 1];
      assert forall i :: 0 <= i <= |q| ==> q[..i] == p[..i];
      ClampInvisible(code, q);
      assert p[..|p|] == p;
    }
  }

  ghost predicate ReturnFree(code: Code, p: seq<Node>) {
    forall i :: 0 <= i < |p| ==> p[i] in code && code[p[i]].mnem !in {RTS, RTL, RTI}
  }

  ghost predicate WellFormed(code: Code, blocks: map<Node, Block>) {
    forall b, i :: b in blocks && 0 <= i < |blocks[b].nodes| ==> blocks[b].nodes[i] in code
  }

  /** `s` is the state in which some path from the entry, meeting no return, comes to block `b`. */
  ghost predicate Enters(code: Code, blocks: map<Node, Block>, entry: Node, b: Node, s: State) {
    exists bs :: EntersBy(code, blocks, entry, bs, b, s)
  }

  ghost predicate EntersBy(code: Code, blocks: map<Node, Block>, entry: Node, bs: seq<Node>, b: Node, s: State) {
    && PathFromTo(BlockGraph(blocks), entry, bs, b)
    && ReturnFree(code, Flatten(blocks, bs[..|bs| - 1]))
    && s == Run(code, Flatten(blocks, bs[..|bs| - 1]), State(0, false))
  }

  /** Instruction `i` of a block entered in state `s` is its first return, and is met with bytes
      of an address push left over. */
  ghost predicate Trampoline(code: Code, nodes: seq<Node>, i: nat, s: State) {
    i < |nodes| && nodes[i] in code && code[nodes[i]].mnem in {RTS, RTL, RTI} && ReturnFree(code, nodes[..i]) &&
    var at := Run(code, nodes[..i], s);
    at.delta != 0 && at.pushed
  }

  function ReturnAddr(code: Code, k: Node): nat
    requires k in code
  {
    code[k].addr % 0x1000000
  }

  /** Some path from the entry makes the return at `addr` a trampoline. */
  ghost predicate Flagged(code: Code, blocks: map<Node, Block>, entry: Node, addr: nat) {
    exists b, i: nat, s ::
      b in blocks && Enters(code, blocks, entry, b, s) && Trampoline(code, blocks[b].nodes, i, s) &&
      code[blocks[b].nodes[i]].addr % 0x1000000 == addr
  }

  // ----- The worklist -----

  ghost predicate Leaves(code: Code, nodes: seq<Node>, states: set<State>, t: State)
    requires forall i :: 0 <= i < |nodes| ==> nodes[i] in code
  {
    exists s :: s in states && t == Run(code, nodes, s)
  }

  ghost predicate Hits(code: Code, nodes: seq<Node>, states: set<State>, addr: nat) {
    exists i: nat, s :: s in states && Trampoline(code, nodes, i, s) && ReturnAddr(code, nodes[i]) == addr
  }

  /** Carries a set of states through one block, up to its first return. */
  method ScanBlock(code: Code, nodes: seq<Node>, states: set<State>)
    returns (returned: bool, hit: Option<nat>, out: set<State>)
    requires forall i :: 0 <= i < |nodes| ==> nodes[i] in code
    requires forall s :: s in states ==> Bounded(s)
    ensures returned <==> !ReturnFree(code, nodes)
    ensures !returned ==> forall t :: t in out <==> Leaves(code, nodes, states, t)
    ensures forall t :: t in out ==> Bounded(t)
    ensures forall i: nat, s :: s in states && Trampoline(code, nodes, i, s) ==> hit == Some(ReturnAddr(code, nodes[i]))
    ensures hit.Some? ==> Hits(code, nodes, states, hit.value)
  {
    returned, hit, out := false, None, states;
    var i := 0;
    assert nodes[..0] == [];
    while i < |nodes|
      invariant 0 <= i <= |nodes| && ReturnFree(code, nodes[..i])
      invariant forall t :: t in out <==> Leaves(code, nodes[..i], states, t)
      invariant forall t :: t in out ==> Bounded(t)
    {
      var d := code[nodes[i]];
      if IsReturn(d.mnem) {
        returned := true;
        if exists t :: t in out && t.delta != 0 && t.pushed {
          hit := Some(ReturnAddr(code, nodes[i]));
          ghost var t :| t in out && t.delta != 0 && t.pushed;
          ghost var s :| s in states && t == Run(code, nodes[..i], s);
          assert Trampoline(code, nodes, i, s);
        }
        forall j: nat, s | Trampoline(code, nodes, j, s)
          ensures j == i
        {
          FirstReturnUnique(code, nodes, i, j);
        }
        assert !ReturnFree(code, nodes);
        return;
      }
      ghost var before := out;
      out := set t | t in out :: Step(d, t);
      StepLeaves(code, nodes, i, states, before, out);
      i := i + 1;
    }
    assert nodes[..|nodes|] == nodes;
  }

  lemma StepLeaves(code: Code, nodes: seq<Node>, i: nat, states: set<State>, before: set<State>, after: set<State>)
    requires i < |nodes| && forall i :: 0 <= i < |nodes| ==> nodes[i] in code
    requires forall t :: t in before <==> Leaves(code, nodes[..i], states, t)
    requires after == set t | t in before :: Step(code[nodes[i]], t)
    ensures forall t :: t in after <==> Leaves(code, nodes[..i + 1], states, t)
  {
    assert nodes[..i + 1][..i] == nodes[..i];
    forall t
      ensures t in after <==> Leaves(code, nodes[..i + 1], states, t)
    {
      if t in after {
        var u :| u in before && t == Step(code[nodes[i]], u);
        var s :| s in states && u == Run(code, nodes[..i], s);
        assert t == Run(code, nodes[..i + 1], s);
      }
      if Leaves(code, nodes[..i + 1], states, t) {
        var s :| s in states && t == Run(code, nodes[..i + 1], s);
        assert Leaves(code, nodes[..i], states, Run(code, nodes[..i], s));
      }
    }
  }

  lemma FirstReturnUnique(code: Code, nodes: seq<Node>, i: nat, j: nat)
    requires i < |nodes| && j < |nodes| && nodes[i] in code && nodes[j] in code
    requires IsReturn(code[nodes[i]].mnem) && ReturnFree(code, nodes[..i])
    requires IsReturn(code[nodes[j]].mnem) && ReturnFree(code, nodes[..j])
    ensures i == j
  {
  }

  type States = map<Node, set<State>>

  /** Everything the states of block `b` imply has been recorded. */
  ghost predicate Propagated(code: Code, blocks: map<Node, Block>, ins: States, flagged: set<nat>,
                             b: Node, states: set<State>)
    requires b in blocks
  {
    var nodes := blocks[b].nodes;
    && (forall s, c :: s in states && ReturnFree(code, nodes) && c in blocks[b].successors && c in blocks ==>
          c in ins && Run(code, nodes, s) in ins[c])
    && (forall s, i: nat :: s in states && Trampoline(code, nodes, i, s) ==> ReturnAddr(code, nodes[i]) in flagged)
  }

  /** All facts recorded are about real paths. */
  ghost predicate Sound(code: Code, blocks: map<Node, Block>, entry: Node, ins: States, flagged: set<nat>) {
    && ins.Keys <= blocks.Keys
    && (forall b, s :: b in ins && s in ins[b] ==> Bounded(s) && Enters(code, blocks, entry, b, s))
    && (forall a :: a in flagged ==> Flagged(code, blocks, entry, a))
  }

  /** Blocks not waiting in the worklist are fully propagated. */
  ghost predicate Closed(code: Code, blocks: map<Node, Block>, ins: States, flagged: set<nat>, worklist: seq<Node>) {
    forall b :: b in ins && b in blocks && b !in worklist ==> Propagated(code, blocks, ins, flagged, b, ins[b])
  }

  /** The bounded states not recorded yet; the clamp makes this a finite set. */
  ghost predicate Unrecorded(blocks: map<Node, Block>, ins: States, left: set<(Node, State)>) {
    forall b, s :: (b, s) in left <==> b in blocks && Bounded(s) && !(b in ins && s in ins[b])
  }

  lemma InitiallyUnrecorded(blocks: map<Node, Block>, entry: Node) returns (left: set<(Node, State)>)
    ensures Unrecorded(blocks, map[entry := {State(0, false)}], left)
  {
    var all := set b, d, p | b in blocks && -64 <= d <= 64 && p in {false, true} :: (b, State(d, p));
    forall b, s
      ensures (b, s) in all <==> b in blocks && Bounded(s)
    {
      assert s == State(s.delta, s.pushed);
    }
    left := all - {(entry, State(0, false))};
  }

  /** A path that leaves block `b` without returning enters its successor `c`. */
  lemma EntersNext(code: Code, blocks: map<Node, Block>, entry: Node, b: Node, s: State, c: Node)
    requires WellFormed(code, blocks) && b in blocks && Enters(code, blocks, entry, b, s)
    requires ReturnFree(code, blocks[b].nodes) && c in blocks && c in blocks[b].successors
    ensures Enters(code, blocks, entry, c, Run(code, blocks[b].nodes, s))
  {
    var bs :| EntersBy(code, blocks, entry, bs, b, s);
    var front := bs[..|bs| - 1];
    PathStep(BlockGraph(blocks), entry, bs, b, c);
    assert (bs + [c])[..|bs|] == bs;
    RunJoin(code, Flatten(blocks, front), blocks[b].nodes, State(0, false));
    assert Flatten(blocks, bs) == Flatten(blocks, front) + blocks[b].nodes;
    assert EntersBy(code, blocks, entry, bs + [c], c, Run(code, blocks[b].nodes, s));
  }

  /** Joins the states leaving a block into its successors, waking those that gain one. */
  method Propagate(blocks: map<Node, Block>, succs: seq<Node>, out: set<State>, ins0: States, work0: seq<Node>,
                   ghost left0: set<(Node, State)>)
    returns (ins: States, worklist: seq<Node>, ghost left: set<(Node, State)>)
    requires ins0.Keys <= blocks.Keys && Unrecorded(blocks, ins0, left0) && forall t :: t in out ==> Bounded(t)
    ensures ins.Keys <= blocks.Keys && Unrecorded(blocks, ins, left)
    ensures forall c :: c in succs && c in blocks && out != {} ==> c in ins && out <= ins[c]
    ensures forall b, s :: b in ins && s in ins[b] ==> (b in ins0 && s in ins0[b]) || (s in out && b in succs)
    ensures forall b :: b in ins0 ==> b in ins && ins0[b] <= ins[b]
    ensures forall b :: b in work0 ==> b in worklist
    ensures forall b :: b in worklist ==> b in work0 || b in blocks
    ensures forall b :: b in ins && b !in worklist ==> b in ins0 && ins[b] == ins0[b]
    ensures left < left0 || (left == left0 && worklist == work0)
  {
    ins, worklist, left := ins0, work0, left0;
    var j := 0;
    while j < |succs|
      invariant 0 <= j <= |succs| && ins.Keys <= blocks.Keys && Unrecorded(blocks, ins, left)
      invariant forall i :: 0 <= i < j && succs[i] in blocks && out != {} ==> succs[i] in ins && out <= ins[succs[i]]
      invariant forall b, s :: b in ins && s in ins[b] ==> (b in ins0 && s in ins0[b]) || (s in out && b in succs)
      invariant forall b :: b in ins0 ==> b in ins && ins0[b] <= ins[b]
      invariant forall b :: b in work0 ==> b in worklist
      invariant forall b :: b in worklist ==> b in work0 || b in blocks
      invariant forall b :: b in ins && b !in worklist ==> b in ins0 && ins[b] == ins0[b]
      invariant left < left0 || (left == left0 && worklist == work0)
    {
      var c := succs[j];
      if c in blocks {
        var before := if c in ins then ins[c] else {};
        var after := before + out;
        if after != before {
          ghost var t :| t in after && t !in before;
          assert (c, t) in left;
          ins := ins[c := after];
          left := set f | f in left && !(f.0 == c && f.1 in out);
          assert (c, t) !in left;
          worklist := worklist + [c];
        }
      }
      j := j + 1;
    }
  }

  lemma EntryEntered(code: Code, blocks: map<Node, Block>, entry: Node)
    requires entry in blocks
    ensures Enters(code, blocks, entry, entry, State(0, false))
  {
    assert EntersBy(code, blocks, entry, [entry], entry, State(0, false));
  }

  /** Scanning and propagating one block keeps every recorded fact real. */
  lemma StaysSound(code: Code, blocks: map<Node, Block>, entry: Node, ins: States, flagged: set<nat>, b: Node,
                   out: set<State>, ins': States, flagged': set<nat>)
    requires WellFormed(code, blocks) && Sound(code, blocks, entry, ins, flagged) && b in ins
    requires ins'.Keys <= blocks.Keys
    requires forall t :: t in out ==> Bounded(t) && Leaves(code, blocks[b].nodes, ins[b], t)
    requires out != {} ==> ReturnFree(code, blocks[b].nodes)
    requires forall c, s :: c in ins' && s in ins'[c] ==>
               (c in ins && s in ins[c]) || (s in out && c in blocks[b].successors)
    requires forall a :: a in flagged' ==> a in flagged || Hits(code, blocks[b].nodes, ins[b], a)
    ensures Sound(code, blocks, entry, ins', flagged')
  {
    forall c, t | c in ins' && t in ins'[c]
      ensures Bounded(t) && Enters(code, blocks, entry, c, t)
    {
      if t in out && c in blocks[b].successors {
        var s :| s in ins[b] && t == Run(code, blocks[b].nodes, s);
        EntersNext(code, blocks, entry, b, s, c);
      }
    }
    forall a | a in flagged'
      ensures Flagged(code, blocks, entry, a)
    {
      if a !in flagged {
        var i: nat, s :| s in ins[b] && Trampoline(code, blocks[b].nodes, i, s) &&
                         ReturnAddr(code, blocks[b].nodes[i]) == a;
        assert Enters(code, blocks, entry, b, s);
      }
    }
  }

  lemma ReturnFreeParts(code: Code, p: seq<Node>, q: seq<Node>)
    requires ReturnFree(code, p + q)
    ensures ReturnFree(code, p) && ReturnFree(code, q)
  {
    forall i | 0 <= i < |p|
      ensures p[i] in code && !IsReturn(code[p[i]].mnem)
    {
      assert (p + q)[i] == p[i];
    }
    forall i | 0 <= i < |q|
      ensures q[i] in code && !IsReturn(code[q[i]].mnem)
    {
      assert (p + q)[|p| + i] == q[i];
    }
  }

  /** A path to a block goes through one before it. */
  lemma EntersThrough(code: Code, blocks: map<Node, Block>, entry: Node, bs: seq<Node>, b: Node, s: State)
    returns (front: seq<Node>, a: Node, t: State)
    requires EntersBy(code, blocks, entry, bs, b, s) && |bs| > 1
    ensures front == bs[..|bs| - 1] && a in blocks && EntersBy(code, blocks, entry, front, a, t)
    ensures b in blocks && b in blocks[a].successors && ReturnFree(code, blocks[a].nodes)
    ensures s == Run(code, blocks[a].nodes, t)
  {
    front, a := bs[..|bs| - 1], bs[|bs| - 2];
    var p, nodes := Flatten(blocks, front[..|front| - 1]), blocks[a].nodes;
    assert bs[|bs| - 2 + 1] in BlockGraph(blocks)[a];
    assert Flatten(blocks, front) == p + nodes;
    ReturnFreeParts(code, p, nodes);
    RunJoin(code, p, nodes, State(0, false));
    t := Run(code, p, State(0, false));
  }

  /** With an empty worklist every state some path enters a block with has been recorded. */
  lemma {:induction false} AllEntered(code: Code, blocks: map<Node, Block>, entry: Node, ins: States, flagged: set<nat>,
                                      bs: seq<Node>, b: Node, s: State)
    requires WellFormed(code, blocks) && Closed(code, blocks, ins, flagged, [])
    requires entry in ins && State(0, false) in ins[entry]
    requires EntersBy(code, blocks, entry, bs, b, s)
    ensures b in ins && s in ins[b]
    decreases |bs|
  {
    if |bs| > 1 {
      var front, a, t := EntersThrough(code, blocks, entry, bs, b, s);
      AllEntered(code, blocks, entry, ins, flagged, front, a, t);
      assert Propagated(code, blocks, ins, flagged, a, ins[a]);
    }
  }

  lemma AllFlagged(code: Code, blocks: map<Node, Block>, entry: Node, ins: States, flagged: set<nat>, addr: nat)
    requires WellFormed(code, blocks) && Closed(code, blocks, ins, flagged, [])
    requires entry in ins && State(0, false) in ins[entry] && Flagged(code, blocks, entry, addr)
    ensures addr in flagged
  {
    var b, i: nat, s :| b in blocks && Enters(code, blocks, entry, b, s) &&
                        Trampoline(code, blocks[b].nodes, i, s) && ReturnAddr(code, blocks[b].nodes[i]) == addr;
    var bs :| EntersBy(code, blocks, entry, bs, b, s);
    AllEntered(code, blocks, entry, ins, flagged, bs, b, s);
    assert Propagated(code, blocks, ins, flagged, b, ins[b]);
  }

  /** Removing a block whose states were propagated from the worklist keeps the rest closed. */
  lemma StaysClosed(code: Code, blocks: map<Node, Block>, ins: States, flagged: set<nat>, rest: seq<Node>, b: Node,
                    ins': States, flagged': set<nat>, worklist: seq<Node>)
    requires Closed(code, blocks, ins, flagged, rest + [b]) && b in ins && b in blocks && flagged <= flagged'
    requires forall c :: c in rest ==> c in worklist
    requires forall c :: c in ins ==> c in ins' && ins[c] <= ins'[c]
    requires forall c :: c in ins' && c !in worklist ==> c in ins && ins'[c] == ins[c]
    requires Propagated(code, blocks, ins', flagged', b, ins[b])
    ensures Closed(code, blocks, ins', flagged', worklist)
  {
    forall c | c in ins' && c in blocks && c !in worklist
      ensures Propagated(code, blocks, ins', flagged', c, ins'[c])
    {
      if c != b {
        assert c !in rest + [b];
        assert Propagated(code, blocks, ins, flagged, c, ins[c]);
      }
    }
  }

  /** One turn of the worklist for a block with states. */
  method ProcessBlock(code: Code, blocks: map<Node, Block>, ghost entry: Node, b: Node, rest: seq<Node>,
                      ins0: States, flagged0: set<nat>, ghost left0: set<(Node, State)>)
    returns (ins: States, flagged: set<nat>, worklist: seq<Node>, ghost left: set<(Node, State)>)
    requires WellFormed(code, blocks) && b in ins0 && Unrecorded(blocks, ins0, left0)
    requires Sound(code, blocks, entry, ins0, flagged0) && Closed(code, blocks, ins0, flagged0, rest + [b])
    ensures Sound(code, blocks, entry, ins, flagged) && Closed(code, blocks, ins, flagged, worklist)
    ensures Unrecorded(blocks, ins, left) && forall c :: c in ins0 ==> c in ins && ins0[c] <= ins[c]
    ensures left < left0 || (left == left0 && worklist == rest)
  {
    ins, flagged, worklist, left := ins0, flagged0, rest, left0;
    var nodes := blocks[b].nodes;
    var returned, hit, out := ScanBlock(code, nodes, ins0[b]);
    if hit.Some? {
      flagged := flagged + {hit.value};
    }
    if returned {
      StaysSound(code, blocks, entry, ins0, flagged0, b, {}, ins, flagged);
    } else {
      ins, worklist, left := Propagate(blocks, blocks[b].successors, out, ins0, rest, left0);
      StaysSound(code, blocks, entry, ins0, flagged0, b, out, ins, flagged);
      forall s | s in ins0[b]
        ensures Run(code, nodes, s) in out
      {
        assert Leaves(code, nodes, ins0[b], Run(code, nodes, s));
      }
    }
    StaysClosed(code, blocks, ins0, flagged0, rest, b, ins, flagged, worklist);
  }

  /** Flags exactly the returns that some path from the entry reaches with a non-zero clamped
      delta after an address push. */
  method ClassifyReturns(code: Code, blocks: map<Node, Block>, entry: Node) returns (flagged: set<nat>)
    requires WellFormed(code, blocks)
    ensures forall a :: a in flagged <==> entry in blocks && Flagged(code, blocks, entry, a)
  {
    flagged := {};
    if entry !in blocks {
      return;
    }
    var ins: States := map[entry := {State(0, false)}];
    var worklist := [entry];
    EntryEntered(code, blocks, entry);
    ghost var left := InitiallyUnrecorded(blocks, entry);
    while worklist != []
      invariant Sound(code, blocks, entry, ins, flagged) && Closed(code, blocks, ins, flagged, worklist)
      invariant entry in ins && State(0, false) in ins[entry] && Unrecorded(blocks, ins, left)
      decreases left, |worklist|
    {
      var b, rest := worklist[|worklist| - 1], worklist[..|worklist| - 1];
      assert worklist == rest + [b];
      if b in ins {
        ins, flagged, worklist, left := ProcessBlock(code, blocks, entry, b, rest, ins, flagged, left);
      } else {
        worklist := rest;
      }
    }
    forall a | Flagged(code, blocks, entry, a)
      ensures a in flagged
    {
      AllFlagged(code, blocks, entry, ins, flagged, a);
    }
  }
}
