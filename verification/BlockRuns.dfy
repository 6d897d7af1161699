/** The processor's runs, executed block by block: from machine code through decoding, merging, folding
    and block building. */
module BlockRuns {
  import opened Machine
  import opened Decoder
  import opened Dedupe
  import opened ConstZFold
  import opened ExitAnalysis
  import opened ModeMachine
  import opened ExitSoundness
  import opened Lowering
  import Graphs
  import Blocks

  /** The keys that a run passes in its own function. */
  ghost function Visited(world: World, exits: Exits, seeds: Exits, e: Entry, w0: Width,
                         prev: Option<Key>, k: Key, t: Trace, out: Width): (p: seq<Key>)
    requires Runs(world, exits, seeds, e, w0, prev, k, t, out)
    ensures p != [] && p[0] == k
    decreases t
  {
    var env := EnvFor(world, exits, e, w0);
    var insn := InsnAt(env, k).value;
    match t
    case Return => [k]
    case Reload(before, pulled) => [k]
    case Step(way, u, rest) =>
      [k] + Visited(world, exits, seeds, e, w0, Some(k), Moves(env.bank, insn, k, u)[way].to, rest, out)
    case Dispatched(next, rest) =>
      [k] + Visited(world, exits, seeds, e, w0, Some(k), next, rest, out)
    case Call(callee, body, back, rest) =>
      [k] + Visited(world, exits, seeds, e, w0, Some(k), Resume(env, insn, k, back).to, rest, out)
    case HandOver(entry, handler, body) => [k]
  }

  /** Their representatives. */
  function Reps(raw: Graph, p: seq<Key>): (q: seq<Key>)
    ensures |q| == |p| && forall i :: 0 <= i < |p| ==> q[i] == Rep(raw, p[i])
  {
    seq(|p|, i requires 0 <= i < |p| => Rep(raw, p[i]))
  }

  /** A walk of the folded graph that ends inside it. */
  ghost predicate WalksFrom(raw: Graph, folded: Graph, k: Key, p: seq<Key>) {
    p != [] && p[0] == k && IsWalk(folded.insns, Reps(raw, p)) && Rep(raw, p[|p| - 1]) in folded.insns
  }

  lemma WalkStops(raw: Graph, folded: Graph, k: Key)
    requires Rep(raw, k) in folded.insns
    ensures WalksFrom(raw, folded, k, [k])
  {
  }

  lemma WalkGrows(raw: Graph, folded: Graph, k: Key, next: Key, p: seq<Key>)
    requires WalksFrom(raw, folded, next, p) && StepKept(raw, folded, k, next)
    ensures WalksFrom(raw, folded, k, [k] + p)
  {
    var q := Reps(raw, [k] + p);
    forall i | 0 <= i < |q| - 1
      ensures q[i] in folded.insns && q[i + 1] in folded.insns[q[i]].successors
    {
      if i > 0 {
        var r := Reps(raw, p);
        assert r[i - 1] in folded.insns && r[i - 1 + 1] in folded.insns[r[i - 1]].successors;
      }
    }
  }

  /** The keys that a run passes map to a walk of the folded graph. */
  lemma {:induction false} RunWalks(world: World, exits: Exits, seeds: Exits, e: Entry, w0: Width,
                                    raw: Graph, merged: Graph, folded: Graph,
                                    prev: Option<Key>, k: Key, t: Trace, out: Width)
    requires Premises(world, exits, seeds) && !EntryFolded(merged.insns, merged.entry)
    requires Stages(EnvFor(world, exits, e, w0), raw, merged, folded) && Inside(raw, folded, prev, k)
    requires Runs(world, exits, seeds, e, w0, prev, k, t, out) && CallsPullOwn(t)
    ensures WalksFrom(raw, folded, k, Visited(world, exits, seeds, e, w0, prev, k, t, out))
    decreases t
  {
    var env := EnvFor(world, exits, e, w0);
    var insn := InsnAt(env, k).value;
    if t.Step? {
      PlainAdvance(env, raw, merged, folded, prev, k, insn, t.way, t.unseen);
      var next := Moves(env.bank, insn, k, t.unseen)[t.way].to;
      RunWalks(world, exits, seeds, e, w0, raw, merged, folded, Some(k), next, t.rest, out);
      WalkGrows(raw, folded, k, next, Visited(world, exits, seeds, e, w0, Some(k), next, t.rest, out));
    } else if t.Dispatched? {
      DispatchAdvance(env, raw, merged, folded, prev, k, insn, t.next);
      RunWalks(world, exits, seeds, e, w0, raw, merged, folded, Some(k), t.next, t.rest, out);
      WalkGrows(raw, folded, k, t.next, Visited(world, exits, seeds, e, w0, Some(k), t.next, t.rest, out));
    } else if t.Call? {
      AliasRecorded(exits, CallTarget(env.bank, insn).value, k.width);
      ExitsSound(world, exits, seeds, t.callee, k.width, t.body, t.back);
      CallAdvance(env, raw, merged, folded, prev, k, insn, t.callee, t.back);
      var next := Resume(env, insn, k, t.back).to;
      RunWalks(world, exits, seeds, e, w0, raw, merged, folded, Some(k), next, t.rest, out);
      WalkGrows(raw, folded, k, next, Visited(world, exits, seeds, e, w0, Some(k), next, t.rest, out));
    } else {
      WalkStops(raw, folded, k);
    }
  }

  /** Every run of a decoded function, from its entry to its return, is a run of whole blocks and the
      beginning of one more, provided that splits inside a block lead only to leaders. */
  lemma RunIsBlockRun(world: World, exits: Exits, seeds: Exits, e: Entry, w: Width, t: Trace, out: Width,
                      raw: Graph, merged: Graph, folded: Graph, id: map<Key, Graphs.Node>, order: seq<Graphs.Node>,
                      leaders: set<Graphs.Node>, blocks: map<Graphs.Node, Blocks.Block>)
    returns (p: seq<Key>, bs: seq<Graphs.Node>, i: nat)
    requires Premises(world, exits, seeds) && e in world.entries
    requires Runs(world, exits, seeds, e, w, None, Begin(e, w), t, out) && CallsPullOwn(t)
    requires Stages(EnvFor(world, exits, e, w), raw, merged, folded) && raw.entry in raw.insns && Numbers(folded, id)
    requires folded.entry in folded.insns && Blocks.LeadersOf(CodeOf(folded, id), order, id[folded.entry], leaders)
    requires Blocks.AreBlocks(CodeOf(folded, id), leaders, blocks) && Blocks.SplitsLead(CodeOf(folded, id), leaders)
    ensures p == Reps(raw, Visited(world, exits, seeds, e, w, None, Begin(e, w), t, out))
    ensures forall k :: k in p ==> k in id
    ensures Blocks.RunsTo(blocks, Ids(id, p), bs, i) && bs[0] == id[folded.entry]
  {
    Arrive(EnvFor(world, exits, e, w), raw, merged, folded);
    RunWalks(world, exits, seeds, e, w, raw, merged, folded, None, Begin(e, w), t, out);
    p := Reps(raw, Visited(world, exits, seeds, e, w, None, Begin(e, w), t, out));
    bs, i := WalkIsBlockRun(raw, merged, folded, id, order, leaders, blocks, p);
  }

  lemma WalkIsBlockRun(raw: Graph, merged: Graph, folded: Graph, id: map<Key, Graphs.Node>, order: seq<Graphs.Node>,
                       leaders: set<Graphs.Node>, blocks: map<Graphs.Node, Blocks.Block>, p: seq<Key>)
    returns (bs: seq<Graphs.Node>, i: nat)
    requires Lists(raw.order, raw.insns) && MergedFrom(raw, merged) && FoldsTo(merged, folded) && Numbers(folded, id)
    requires folded.entry in folded.insns && Blocks.LeadersOf(CodeOf(folded, id), order, id[folded.entry], leaders)
    requires Blocks.AreBlocks(CodeOf(folded, id), leaders, blocks) && Blocks.SplitsLead(CodeOf(folded, id), leaders)
    requires raw.entry in raw.insns && IsWalk(folded.insns, p)
    requires p[0] == Rep(raw, raw.entry) && p[|p| - 1] in folded.insns
    ensures forall k :: k in p ==> k in id
    ensures Blocks.RunsTo(blocks, Ids(id, p), bs, i) && bs[0] == id[folded.entry]
  {
    RepIs(raw, merged, raw.entry);
    WalkIsPath(folded, id, p);
    bs, i := Blocks.CodeRunIsBlockRun(CodeOf(folded, id), order, id[folded.entry], leaders, blocks, Ids(id, p),
                                      id[p[|p| - 1]]);
  }
}
