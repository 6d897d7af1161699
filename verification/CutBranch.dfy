/** A function whose branch merges to more than two successors. */
module CutBranch {
  import opened Machine
  import opened Decoder
  import opened Dedupe
  import opened DecodedMerge
  import opened Listings

  const BCC_OVER := Insn(BCC, OtherMode, 0x8003, 2)
  const PHP_HERE := Insn(PHP, OtherMode, 0, 1)
  const BEQ_AWAY := Insn(BEQ, OtherMode, 0x7FF0, 2)

  /** 8000 BCC $8003; 8002 PHP; 8003 BEQ $7FF0 */
  function Listing(pc: nat): Option<Insn> {
    if pc == 0x8000 then Some(BCC_OVER)
    else if pc == 0x8002 then Some(PHP_HERE)
    else if pc == 0x8003 then Some(BEQ_AWAY)
    else None
  }

  /** The function ends at $8005. */
  function Function(): Env {
    Env(0, 0x8000, WIDE, Some(0x8005), None, 0x400000, (bank: nat, pc: nat, w: Width) => Listing(pc),
        map[], map[], map[],
        (start: nat, site: Site, insn: Insn) => None, 12000)
  }

  ghost predicate IsCut(env: Env) {
    && IsPlain(env) && env.bank == 0 && env.start == 0x8000 && env.width == WIDE && env.end == Some(0x8005)
    && (forall k :: Pc16(k) == 0x8000 ==> Holds(env, k, BCC_OVER))
    && (forall k :: Pc16(k) == 0x8002 ==> Holds(env, k, PHP_HERE))
    && (forall k :: Pc16(k) == 0x8003 ==> Holds(env, k, BEQ_AWAY))
  }

  const START := Key(0x8000, WIDE, [])
  const SAVE := Key(0x8002, WIDE, [])
  const PLAIN := Key(0x8003, WIDE, [])
  const SAVED := Key(0x8003, WIDE, [WIDE])
  const ALL := [START, SAVE, PLAIN, SAVED]

  lemma StartEdges(env: Env)
    requires IsCut(env)
    ensures EdgesAt(env, START) == [Edge(SAVE, Fall), Edge(PLAIN, Jump)]
  {
    BranchEdges(env, START, BCC_OVER);
  }

  lemma SaveEdges(env: Env)
    requires IsCut(env)
    ensures EdgesAt(env, SAVE) == [Edge(SAVED, Fall)]
  {
    assert [] + [WIDE] == [WIDE];
    FallEdges(env, SAVE, PHP_HERE, WIDE, [WIDE]);
  }

  /** The end gate cuts the fall-through of the BEQ, the ROM gate its target. */
  lemma CutEdges(env: Env, k: Key)
    requires IsCut(env) && (k == PLAIN || k == SAVED)
    ensures EdgesAt(env, k) == [Edge(Key(0x8005, WIDE, k.pstack), Fall), Edge(Key(0x7FF0, WIDE, k.pstack), Jump)]
    ensures forall e :: e in EdgesAt(env, k) ==> !Passes(env, Pc16(k), e)
  {
    BranchEdges(env, k, BEQ_AWAY);
  }

  lemma Confined(env: Env)
    requires IsCut(env)
    ensures Confines(env, ALL)
  {
    SeedAdmitted(env);
    forall k, e | k in ALL && e in EdgesAt(env, k) && Admits(env, Along(k, e))
      ensures e.to in ALL
    {
      PassesIsAdmitted(env, k, e);
      if k == START { StartEdges(env); } else if k == SAVE { SaveEdges(env); } else { CutEdges(env, k); }
    }
  }

  /** The BEQ is reached with and without a saved P. */
  lemma BothReached(env: Env)
    requires IsCut(env)
    ensures Reached(env, PLAIN) && Reached(env, SAVED)
  {
    SeedAdmitted(env);
    ReachedSeed(env);
    StartEdges(env);
    Reaches(env, START, Edge(SAVE, Fall));
    Reaches(env, START, Edge(PLAIN, Jump));
    SaveEdges(env);
    Reaches(env, SAVE, Edge(SAVED, Fall));
  }

  lemma DecodedKeys(env: Env, raw: Graph)
    requires IsCut(env) && DecodesTo(env, Decoded(raw.order, raw.insns))
    ensures PLAIN in raw.insns && SAVED in raw.insns && Key(0x7FF0, WIDE, []) !in raw.insns
  {
    BothReached(env);
    Confined(env);
    TargetOutside();
    if Key(0x7FF0, WIDE, []) in raw.insns {
      ReachedConfined(env, ALL, Key(0x7FF0, WIDE, []));
    }
  }

  lemma TargetOutside()
    ensures Key(0x7FF0, WIDE, []) !in ALL
  {
  }

  lemma TargetNamed(env: Env, raw: Graph)
    requires IsCut(env) && DecodesTo(env, Decoded(raw.order, raw.insns)) && PLAIN in raw.insns
    ensures raw.insns[PLAIN].insn == BEQ_AWAY && Key(0x7FF0, WIDE, []) in raw.insns[PLAIN].successors
  {
    CutEdges(env, PLAIN);
    DecodedAs(env, raw.order, raw.insns, PLAIN, BEQ_AWAY);
    TargetIn(EdgesAt(env, PLAIN), Edge(Key(0x7FF0, WIDE, []), Jump));
  }

  /** Whatever the worklist and the merge make of this function, its BEQ ends with more than two
      successors and is no longer recognised as a branch. */
  lemma BranchGrows(env: Env, raw: Graph, merged: Graph)
    requires IsCut(env) && DecodesTo(env, Decoded(raw.order, raw.insns)) && MergedFrom(raw, merged)
    ensures Rep(raw, PLAIN) in merged.insns && |merged.insns[Rep(raw, PLAIN)].successors| > 2
  {
    DecodedKeys(env, raw);
    TargetNamed(env, raw);
    assert SlotOf(SAVED) == SlotOf(PLAIN);
    BranchKept(env, raw, merged, PLAIN);
    TwoAtLeast(env, raw, merged, PLAIN);
  }

  lemma FunctionIsCut()
    ensures IsCut(Function())
  {
  }

  /** Decoding and merging it shows this. */
  method OutsideTargetsMultiply() returns (raw: Graph, merged: Graph)
    ensures DecodesTo(Function(), Decoded(raw.order, raw.insns)) && MergedFrom(raw, merged)
    ensures Rep(raw, PLAIN) in merged.insns && |merged.insns[Rep(raw, PLAIN)].successors| > 2
  {
    var env := Function();
    FunctionIsCut();
    var out := DecodeFunction(env);
    Confined(env);
    MustDecode(env, ALL, out);
    raw := Graph(START, out.order, out.insns);
    merged := Merge(raw);
    BranchGrows(env, raw, merged);
  }
}
