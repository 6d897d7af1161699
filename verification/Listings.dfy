/** Small functions written out instruction by instruction, for statements about particular code. */
module Listings {
  import opened Machine
  import opened Decoder

  /** Code without recovered dispatches or inline arguments, in a ROM that fills its bank. */
  ghost predicate IsPlain(env: Env) {
    && env.bank < 0x100 && env.romSize == 0x400000 && env.siblings == None && env.exitModes == map[]
    && env.skips == map[] && env.maxInsns == 12000
    && forall start, site, insn :: env.dispatch(start, site, insn) == None
  }

  /** The instruction that `k` decodes to. */
  predicate Holds(env: Env, k: Key, insn: Insn) {
    env.fetch(env.bank, Pc16(k), k.width) == Some(insn)
  }

  function KeyAt(env: Env, pc: nat, w: Width, pstack: seq<Width>): Key {
    Key(Addr24(env.bank, pc), w, pstack)
  }

  lemma AtIsHeld(env: Env, k: Key, insn: Insn)
    requires Holds(env, k, insn)
    ensures InsnAt(env, k) == Some(insn)
  {
  }

  /** Where an instruction falls through to. */
  function Next(k: Key, insn: Insn): nat {
    (Pc16(k) + insn.length) % 0x10000
  }

  lemma BranchEdges(env: Env, k: Key, insn: Insn)
    requires IsPlain(env) && Holds(env, k, insn) && IsCondBranch(insn.mnem)
    ensures EdgesAt(env, k) == [Edge(KeyAt(env, Next(k, insn), k.width, k.pstack), Fall),
                                Edge(KeyAt(env, insn.operand, k.width, k.pstack), Jump)]
  {
    assert PostState(insn, k.width, k.pstack) == (k.width, k.pstack);
    assert EdgesAt(env, k) == LabeledSuccessors(env, insn, k);
  }

  lemma BraEdges(env: Env, k: Key, insn: Insn)
    requires IsPlain(env) && Holds(env, k, insn) && insn.mnem == BRA
    ensures EdgesAt(env, k) == [Edge(KeyAt(env, insn.operand, k.width, k.pstack), Jump)]
  {
  }

  lemma ReturnEdges(env: Env, k: Key, insn: Insn)
    requires IsPlain(env) && Holds(env, k, insn) && IsReturn(insn.mnem)
    ensures EdgesAt(env, k) == []
  {
  }

  /** An instruction that only falls through. */
  lemma FallEdges(env: Env, k: Key, insn: Insn, w: Width, pstack: seq<Width>)
    requires IsPlain(env) && Holds(env, k, insn) && insn.mnem in {PHP, PLP, SEP, REP, PHA}
    requires PostState(insn, k.width, k.pstack) == (w, pstack)
    ensures EdgesAt(env, k) == [Edge(KeyAt(env, Next(k, insn), w, pstack), Fall)]
  {
    assert EdgesAt(env, k) == LabeledSuccessors(env, insn, k);
  }

  /** An edge to code in ROM passes the gates unless it falls past the end. */
  predicate Passes(env: Env, from: nat, e: Edge) {
    0x8000 <= Pc16(e.to) && !(env.end.Some? && e.kind == Fall && Pc16(e.to) >= env.end.value > from)
  }

  lemma PassesIsAdmitted(env: Env, k: Key, e: Edge)
    requires IsPlain(env)
    ensures Admits(env, Along(k, e)) <==> Passes(env, Pc16(k), e)
  {
  }

  /** An instruction with one edge, which passes. */
  ghost predicate GoesOnly(env: Env, k: Key, insn: Insn, e: Edge) {
    IsPlain(env) && Holds(env, k, insn) && EdgesAt(env, k) == [e] && Passes(env, Pc16(k), e)
  }

  lemma SeedAdmitted(env: Env)
    requires IsPlain(env) && 0x8000 <= env.start < 0x10000
    ensures Admits(env, Seed(env)) && Seed(env).key == KeyAt(env, env.start, env.width, [])
  {
  }

  /** A plain instruction's successors are its edges. */
  lemma PlainSuccessors(env: Env, k: Key, insn: Insn)
    requires IsPlain(env) && Holds(env, k, insn)
    ensures Successors(env, insn, k) == Targets(EdgesAt(env, k)) && RecordOf(env, insn, k).table == None
  {
  }

  /** An edge that passes the gates reaches its target. */
  lemma Reaches(env: Env, k: Key, e: Edge)
    requires IsPlain(env) && Reached(env, k) && e in EdgesAt(env, k) && Passes(env, Pc16(k), e)
    ensures Reached(env, e.to)
  {
    PassesIsAdmitted(env, k, e);
    assert Accepted(env, k, e.to);
    ReachedStep(env, k, e.to);
  }

  /** The record of a decoded key. */
  lemma DecodedAs(env: Env, order: seq<Key>, insns: Records, k: Key, insn: Insn)
    requires IsPlain(env) && DecodesTo(env, Decoded(order, insns)) && k in insns && Holds(env, k, insn)
    ensures insns[k] == Record(insn, k.width, Targets(EdgesAt(env, k)), None)
  {
    assert Exact(env, k, insns[k]);
    PlainSuccessors(env, k, insn);
  }

  lemma TargetIn(edges: seq<Edge>, e: Edge)
    requires e in edges
    ensures e.to in Targets(edges)
  {
    var i :| 0 <= i < |edges| && edges[i] == e;
    assert Targets(edges)[i] == e.to;
  }

  /** The next address, when the bank is 0. */
  lemma NextIs(env: Env, k: Key, insn: Insn, pc: nat, w: Width, pstack: seq<Width>)
    requires env.bank == 0 && k.pc < 0x10000 && k.pc + insn.length == pc < 0x10000
    ensures KeyAt(env, Next(k, insn), w, pstack) == Key(pc, w, pstack) &&
            Pc16(k) == k.pc && Pc16(Key(pc, w, pstack)) == pc
  {
  }

  lemma NothingSkipped(env: Env, target: Option<nat>)
    requires env.skips == map[]
    ensures Skip(env, target) == 0
  {
  }

  /** Without an end, an edge into the ROM of bank 0 passes the gates. */
  lemma PassesOpen(env: Env, from: nat, e: Edge)
    requires env.end == None && 0x8000 <= e.to.pc < 0x10000
    ensures Passes(env, from, e)
  {
  }
}
