/** How listed functions without BEQ and BNE come out of decoding, merging and folding. */
module ListedStages {
  import opened Machine
  import opened Decoder
  import opened Dedupe
  import opened DecodedMerge
  import opened ConstZFold
  import opened ExitAnalysis
  import opened ExitSoundness
  import opened Listings

  /** No instruction of the function can be folded. */
  ghost predicate NoZBranch(raw: Graph) {
    forall k :: k in raw.insns ==> raw.insns[k].insn.mnem !in {BEQ, BNE}
  }

  lemma NothingDecided(raw: Graph, merged: Graph, p: Key, k: Key)
    requires Lists(raw.order, raw.insns) && MergedFrom(raw, merged) && NoZBranch(raw)
    ensures !Decides(merged.insns, p, k)
  {
    if k in merged.insns { PositionsKept(raw, merged, k, 0); }
  }

  lemma EntryKept(raw: Graph, merged: Graph)
    requires Lists(raw.order, raw.insns) && MergedFrom(raw, merged) && NoZBranch(raw)
    ensures !EntryFolded(merged.insns, merged.entry)
  {
    forall p
      ensures !Decides(merged.insns, p, merged.entry)
    {
      NothingDecided(raw, merged, p, merged.entry);
    }
  }

  /** Folding leaves the surviving records as they were merged. */
  lemma RecordKept(raw: Graph, merged: Graph, folded: Graph, k: Key)
    requires Lists(raw.order, raw.insns) && MergedFrom(raw, merged) && FoldsTo(merged, folded) && NoZBranch(raw)
    requires k in folded.insns
    ensures k in merged.insns && folded.insns[k] == merged.insns[k]
  {
    var f :| FoldedFrom(merged.insns, f) && PrunedFrom(f, merged.entry, folded.insns);
    forall p
      ensures !Decides(merged.insns, p, k)
    {
      NothingDecided(raw, merged, p, k);
    }
    assert FoldOf(merged.insns, k, f[k]);
  }

  /** One step along an edge that passes the gates stays inside all three forms. */
  lemma StepInside(env: Env, raw: Graph, merged: Graph, folded: Graph, prev: Option<Key>, k: Key, insn: Insn, e: Edge)
    requires IsPlain(env) && Stages(env, raw, merged, folded) && NoZBranch(raw)
    requires Inside(raw, folded, prev, k) && Holds(env, k, insn) && e in EdgesAt(env, k) && Passes(env, Pc16(k), e)
    ensures Inside(raw, folded, Some(k), e.to)
  {
    EntryKept(raw, merged);
    PassesIsAdmitted(env, k, e);
    assert Accepted(env, k, e.to);
    DecodedAs(env, raw.order, raw.insns, k, insn);
    TargetIn(EdgesAt(env, k), e);
    FreeStep(env, raw, merged, prev, k, e.to);
    Advance(env, raw, merged, folded, prev, k, e.to);
  }

  lemma StartInside(env: Env, raw: Graph, merged: Graph, folded: Graph)
    requires IsPlain(env) && Stages(env, raw, merged, folded) && 0x8000 <= env.start < 0x10000
    ensures Inside(raw, folded, None, KeyAt(env, env.start, env.width, []))
  {
    SeedAdmitted(env);
    ReachedSeed(env);
    Arrive(env, raw, merged, folded);
  }

  /** A key that is alone in its slot stands for itself. */
  lemma AloneStands(raw: Graph, merged: Graph, k: Key)
    requires Lists(raw.order, raw.insns) && MergedFrom(raw, merged) && k in raw.insns && AloneInSlot(raw, k)
    ensures Rep(raw, k) == k
  {
    RepIs(raw, merged, k);
  }

  /** The edges of two keys of one slot leave their representative together. */
  lemma BothEdges(raw: Graph, merged: Graph, folded: Graph, a: Key, b: Key, outA: Key, outB: Key)
    requires Lists(raw.order, raw.insns) && MergedFrom(raw, merged) && FoldsTo(merged, folded) && NoZBranch(raw)
    requires a in raw.insns && b in raw.insns && SlotOf(a) == SlotOf(b) && Rep(raw, a) in folded.insns
    requires outA in raw.insns && outA in raw.insns[a].successors && AloneInSlot(raw, outA)
    requires outB in raw.insns && outB in raw.insns[b].successors && AloneInSlot(raw, outB)
    ensures outA in folded.insns[Rep(raw, a)].successors && outB in folded.insns[Rep(raw, a)].successors
  {
    SameRep(raw, merged, a, b);
    RecordKept(raw, merged, folded, Rep(raw, a));
    AloneStands(raw, merged, outA);
    AloneStands(raw, merged, outB);
    EdgeMerged(raw, merged, a, outA);
    EdgeMerged(raw, merged, b, outB);
  }

  /** What a merged key leads to, some key that it stands for leads to. */
  lemma EdgeComesFrom(raw: Graph, merged: Graph, folded: Graph, q: Key, out: Key) returns (k: Key)
    requires Lists(raw.order, raw.insns) && MergedFrom(raw, merged) && FoldsTo(merged, folded) && NoZBranch(raw)
    requires out in raw.insns && AloneInSlot(raw, out) && q in folded.insns && out in folded.insns[q].successors
    ensures k in raw.insns && Rep(raw, k) == q && out in raw.insns[k].successors
  {
    RecordKept(raw, merged, folded, q);
    EdgesExact(raw, merged, q, out);
    var s;
    k, s :| k in raw.insns && s in raw.insns[k].successors && Rep(raw, k) == q && Rep(raw, s) == out;
    if s in raw.insns { RepIs(raw, merged, s); } else { OutsideStays(raw, s); }
  }

  /** A surviving record is a decoded one with more successors at most. */
  lemma SurvivorIs(raw: Graph, merged: Graph, folded: Graph, k: Key)
    requires Lists(raw.order, raw.insns) && MergedFrom(raw, merged) && FoldsTo(merged, folded) && NoZBranch(raw)
    requires k in folded.insns
    ensures k in raw.insns && folded.insns[k] == raw.insns[k].(successors := folded.insns[k].successors)
    ensures |raw.insns[k].successors| <= |folded.insns[k].successors|
  {
    RecordKept(raw, merged, folded, k);
    PositionsKept(raw, merged, k, 0);
  }
}
