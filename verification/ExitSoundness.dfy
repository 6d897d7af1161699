/** Inferred exit widths are the widths in which every run returns. */
module ExitSoundness {
  import opened Machine
  import opened Decoder
  import opened Dedupe
  import opened DecodedMerge
  import opened ConstZFold
  import opened ExitAnalysis
  import opened ModeMachine

  /** The three forms of one decoded variant: as found, merged, folded. */
  ghost predicate Stages(env: Env, raw: Graph, merged: Graph, folded: Graph) {
    && raw.entry == Seed(env).key && DecodesTo(env, Decoded(raw.order, raw.insns))
    && MergedFrom(raw, merged) && FoldsTo(merged, folded)
  }

  lemma SameNothing(env: Env, insn: Insn, a: Key, b: Key)
    requires SlotOf(a) == SlotOf(b) && insn.mnem in {JSL, JMP} && env.exitModes == map[]
    ensures Successors(env, insn, a) == [] ==> Successors(env, insn, b) == []
  {
    assert |LabeledSuccessors(env, insn, a)| == 0 <==> |LabeledSuccessors(env, insn, b)| == 0;
  }

  // ----- A run stays inside every form of the graph -----

  /** A run at `k`, come from `prev`, is inside the decoded graph and its image in the folded one. */
  ghost predicate Inside(raw: Graph, folded: Graph, prev: Option<Key>, k: Key) {
    && k in raw.insns && Rep(raw, k) in folded.insns
    && match prev
       case None => k == raw.entry
       case Some(p) => p in raw.insns && k in raw.insns[p].successors && StepKept(raw, folded, p, k)
  }

  /** The image of a step is an edge of the folded graph. */
  ghost predicate StepKept(raw: Graph, folded: Graph, p: Key, k: Key) {
    Rep(raw, p) in folded.insns && Rep(raw, k) in folded.insns[Rep(raw, p)].successors
  }

  function RepBefore(raw: Graph, prev: Option<Key>): Option<Key> {
    match prev
    case None => None
    case Some(p) => Some(Rep(raw, p))
  }

  lemma EdgeMerged(raw: Graph, merged: Graph, a: Key, b: Key)
    requires Lists(raw.order, raw.insns) && MergedFrom(raw, merged)
    requires a in raw.insns && b in raw.insns[a].successors
    ensures Rep(raw, a) in merged.insns && Rep(raw, b) in merged.insns[Rep(raw, a)].successors
  {
    EdgesExact(raw, merged, Rep(raw, a), Rep(raw, b));
  }

  lemma EdgeFolded(merged: Graph, folded: Graph, prev: Option<Key>, a: Key, b: Key)
    requires FoldsTo(merged, folded) && !EntryFolded(merged.insns, merged.entry)
    requires a in folded.insns && a in merged.insns && b in merged.insns
    requires prev.None? ==> a == merged.entry
    requires prev.Some? ==> prev.value in merged.insns && a in merged.insns[prev.value].successors
    requires Follows(merged.insns, prev, a, b)
    ensures b in folded.insns && b in folded.insns[a].successors
  {
    var f :| FoldedFrom(merged.insns, f) && PrunedFrom(f, merged.entry, folded.insns);
    StepAgrees(merged.insns, f, prev, a, b);
    ReachedNext(f, merged.entry, a, b);
  }

  lemma Advance(env: Env, raw: Graph, merged: Graph, folded: Graph, prev: Option<Key>, k: Key, next: Key)
    requires Stages(env, raw, merged, folded) && !EntryFolded(merged.insns, merged.entry)
    requires Inside(raw, folded, prev, k) && next in raw.insns[k].successors && Accepted(env, k, next)
    requires Rep(raw, k) in merged.insns && Follows(merged.insns, RepBefore(raw, prev), Rep(raw, k), Rep(raw, next))
    ensures Inside(raw, folded, Some(k), next)
  {
    NextDecoded(env, raw, k, next);
    RepIs(raw, merged, next);
    if prev.Some? {
      EdgeMerged(raw, merged, prev.value, k);
    }
    EdgeFolded(merged, folded, RepBefore(raw, prev), Rep(raw, k), Rep(raw, next));
  }

  lemma Arrive(env: Env, raw: Graph, merged: Graph, folded: Graph)
    requires Stages(env, raw, merged, folded) && raw.entry in raw.insns
    ensures Inside(raw, folded, None, raw.entry)
  {
    RepIs(raw, merged, raw.entry);
    EntrySurvives(merged, folded);
  }

  lemma EntrySurvives(merged: Graph, folded: Graph)
    requires FoldsTo(merged, folded) && merged.entry in merged.insns
    ensures merged.entry in folded.insns
  {
    var f :| FoldedFrom(merged.insns, f) && PrunedFrom(f, merged.entry, folded.insns);
    var p := [merged.entry];
    assert IsWalk(f, p) && p[0] == merged.entry && p[|p| - 1] == merged.entry;
    assert ReachedIn(f, merged.entry, merged.entry);
  }

  // ----- What each kind of step does in the merged graph -----

  /** The representative carries the instruction of every key of its slot. */
  lemma RepInsn(env: Env, raw: Graph, merged: Graph, k: Key)
    requires DecodesTo(env, Decoded(raw.order, raw.insns)) && MergedFrom(raw, merged) && k in raw.insns
    ensures Rep(raw, k) in raw.insns && Rep(raw, k) in merged.insns && SlotOf(Rep(raw, k)) == SlotOf(k)
    ensures merged.insns[Rep(raw, k)].insn == raw.insns[k].insn
    ensures merged.insns[Rep(raw, k)].width == k.width && merged.insns[Rep(raw, k)].table == raw.insns[k].table
  {
    RepIs(raw, merged, k);
    SameInsn(env, raw, k, Rep(raw, k));
    PositionsKept(raw, merged, Rep(raw, k), 0);
  }

  lemma FreeStep(env: Env, raw: Graph, merged: Graph, prev: Option<Key>, k: Key, next: Key)
    requires DecodesTo(env, Decoded(raw.order, raw.insns)) && MergedFrom(raw, merged)
    requires k in raw.insns && next in raw.insns[k].successors && raw.insns[k].insn.mnem !in {BEQ, BNE}
    ensures Rep(raw, k) in merged.insns && Follows(merged.insns, RepBefore(raw, prev), Rep(raw, k), Rep(raw, next))
  {
    RepInsn(env, raw, merged, k);
    EdgeMerged(raw, merged, k, next);
  }

  /** One edge of a branch stands at the same position in the merged graph. */
  lemma BranchPosition(env: Env, raw: Graph, merged: Graph, k: Key, insn: Insn, way: nat)
    requires DecodesTo(env, Decoded(raw.order, raw.insns)) && MergedFrom(raw, merged) && k in raw.insns
    requires insn == raw.insns[k].insn && IsCondBranch(insn.mnem) && way < 2
    requires |Edges(env, insn, k)| == 2 && Admits(env, Along(k, Edges(env, insn, k)[way]))
    ensures Rep(raw, k) in merged.insns && |merged.insns[Rep(raw, k)].successors| >= 2
    ensures merged.insns[Rep(raw, k)].successors[way] == Rep(raw, Edges(env, insn, k)[way].to)
  {
    RepInsn(env, raw, merged, k);
    var a := Rep(raw, k);
    SameInsn(env, raw, k, a);
    SameInsn(env, raw, a, k);
    SameBranch(env, insn, k, a, way);
    var e, f := Edges(env, insn, k)[way], Edges(env, insn, a)[way];
    SameGate(env, k, a, e, f);
    AdmittedIsAccepted(env, k, insn, way);
    AdmittedIsAccepted(env, a, insn, way);
    NextDecoded(env, raw, k, e.to);
    NextDecoded(env, raw, a, f.to);
    SameRep(raw, merged, e.to, f.to);
    PositionsKept(raw, merged, a, way);
  }

  /** A branch right after a load goes the way the fold expects. */
  lemma BranchGoes(prev: Option<Record<Key>>, r: Record<Key>, way: nat)
    requires way < 2 <= |r.successors|
    requires prev.Some? ==> ZAllows(Some(prev.value.insn), prev.value.width, r.insn, way)
    ensures Goes(prev, r, r.successors[way])
  {
  }

  /** The instruction before a branch is the same seen from the merged graph. */
  lemma SameLoad(env: Env, raw: Graph, merged: Graph, prev: Option<Key>, insn: Insn, way: nat)
    requires DecodesTo(env, Decoded(raw.order, raw.insns)) && MergedFrom(raw, merged)
    requires prev.Some? ==> prev.value in raw.insns
    requires ZAllows(LoadBefore(env, prev), WidthBefore(prev), insn, way)
    ensures var r := At(merged.insns, RepBefore(raw, prev));
            r.Some? ==> ZAllows(Some(r.value.insn), r.value.width, insn, way)
  {
    if prev.Some? {
      RepInsn(env, raw, merged, prev.value);
      SameInsn(env, raw, prev.value, prev.value);
    }
  }

  lemma BranchStep(env: Env, raw: Graph, merged: Graph, prev: Option<Key>, k: Key, insn: Insn, way: nat)
    requires DecodesTo(env, Decoded(raw.order, raw.insns)) && MergedFrom(raw, merged) && k in raw.insns
    requires insn == raw.insns[k].insn && insn.mnem in {BEQ, BNE} && way < 2
    requires |Edges(env, insn, k)| == 2 && Admits(env, Along(k, Edges(env, insn, k)[way]))
    requires prev.Some? ==> prev.value in raw.insns
    requires ZAllows(LoadBefore(env, prev), WidthBefore(prev), insn, way)
    ensures Rep(raw, k) in merged.insns
    ensures Follows(merged.insns, RepBefore(raw, prev), Rep(raw, k), Rep(raw, Edges(env, insn, k)[way].to))
  {
    BranchPosition(env, raw, merged, k, insn, way);
    RepInsn(env, raw, merged, k);
    SameLoad(env, raw, merged, prev, insn, way);
    BranchGoes(At(merged.insns, RepBefore(raw, prev)), merged.insns[Rep(raw, k)], way);
  }

  // ----- Plain steps and calls follow decode edges -----

  /** The static tracking is exact, whatever an instruction meets, on exactly the trackable ones. */
  lemma TrackingExact(insn: Insn, w: Width, stack: seq<Width>)
    ensures (forall u :: Effect(insn, w, stack, u) == PostState(insn, w, stack)) <==> Trackable(insn, w, stack)
  {
    assert insn.mnem == XCE ==> Effect(insn, w, stack, Unseen(true, w)) == (NARROW, stack);
    assert insn.mnem == PHP ==> Effect(insn, w, stack, Unseen(true, w)) == (w, stack + [w]);
    var other := Width(!w.m, w.x);
    assert insn.mnem == PLP && stack == [] ==> Effect(insn, w, stack, Unseen(true, other)) == (other, []);
    MaskBits(insn.operand);
  }

  /** M is bit 5 of a mask, X is bit 4. */
  lemma MaskBits(operand: nat)
    ensures Bit(operand, 0x20) <==> operand % 0x40 >= 0x20
    ensures Bit(operand, 0x10) <==> operand % 0x20 >= 0x10
  {
    BitIs(operand, 0x20);
    BitIs(operand, 0x10);
  }

  lemma BitIs(operand: nat, weight: nat)
    requires weight == 0x10 || weight == 0x20
    ensures Bit(operand, weight) <==> operand % (2 * weight) >= weight
  {
    var h, r := operand / (2 * weight), operand % (2 * weight);
    if r >= weight {
      DivIs(operand, weight, 2 * h + 1, r - weight);
    } else {
      DivIs(operand, weight, 2 * h, r);
    }
  }

  /** XCE with the carry set in 16-bit code, a PLP that pulls the caller's P and a ninth PHP are not
      tracked: the PLP after that PHP gives the processor the widths saved last and the decoder those
      saved before. */
  lemma TrackingLost(xce: Insn, php: Insn, plp: Insn, stack: seq<Width>, u: Unseen)
    requires xce.mnem == XCE && php.mnem == PHP && plp.mnem == PLP && |stack| == MAX_PHP_DEPTH && Last(stack) == WIDE
    ensures Effect(xce, WIDE, [], u.(carry := true)).0 == NARROW && PostState(xce, WIDE, []).0 == WIDE
    ensures Effect(plp, WIDE, [], u.(below := NARROW)).0 == NARROW && PostState(plp, WIDE, []).0 == WIDE
    ensures Effect(plp, WIDE, Effect(php, NARROW, stack, u).1, u).0 == NARROW
    ensures PostState(plp, WIDE, PostState(php, NARROW, stack).1).0 == WIDE
  {
    assert Last(stack + [NARROW]) == NARROW;
  }

  lemma MovesAreEdges(env: Env, k: Key, insn: Insn, u: Unseen)
    requires Recovered(env, insn, k).None? && insn.mnem !in {JSR, JSL} && Trackable(insn, k.width, k.pstack)
    ensures Moves(env.bank, insn, k, u) == Edges(env, insn, k)
    ensures Successors(env, insn, k) == Targets(Edges(env, insn, k))
    ensures IsCondBranch(insn.mnem) ==> |Edges(env, insn, k)| == 2
  {
    TrackingExact(insn, k.width, k.pstack);
    assert Effect(insn, k.width, k.pstack, u) == PostState(insn, k.width, k.pstack);
  }

  /** A call whose target is recorded resumes in the recorded widths. */
  lemma CallResumes(env: Env, insn: Insn, next: nat, w: Width, pstack: seq<Width>, site: Site)
    requires env.exitModes == map[] && CallTarget(env.bank, insn).Some?
    requires Alias(env.exits, CallTarget(env.bank, insn).value, w) == Some(site)
    ensures site in env.exits
    ensures CallEdges(env, insn, next, w, pstack) ==
      [Edge(Key(Addr24(env.bank, (next + Skip(env, CallTarget(env.bank, insn))) % 0x10000),
                env.exits[site], pstack), Fall)]
  {
    assert ResumeModes(env, CallTarget(env.bank, insn).value, w,
                       (next + Skip(env, CallTarget(env.bank, insn))) % 0x10000) == {};
  }

  lemma ResumeIsEdge(env: Env, k: Key, insn: Insn, callee: Entry, back: Width)
    requires env.exitModes == map[] && CanCall(env, k, insn, callee, back)
    requires SiteOf(callee, k.width) in env.exits && back == env.exits[SiteOf(callee, k.width)]
    ensures Edges(env, insn, k) == [Resume(env, insn, k, back)]
    ensures Successors(env, insn, k) == [Resume(env, insn, k, back).to]
  {
    CallIsLabeled(env, k, insn);
    CallResumes(env, insn, (Pc16(k) + insn.length) % 0x10000, k.width, k.pstack, SiteOf(callee, k.width));
  }

  // ----- Leaving -----

  lemma FoldedKeeps(merged: Graph, folded: Graph, a: Key)
    requires FoldsTo(merged, folded) && a in folded.insns
    ensures a in merged.insns && folded.insns[a] == merged.insns[a].(successors := folded.insns[a].successors)
    ensures merged.insns[a].successors == [] ==> folded.insns[a].successors == []
  {
    var f :| FoldedFrom(merged.insns, f) && PrunedFrom(f, merged.entry, folded.insns);
    FoldKeeps(merged.insns, f, a);
  }

  lemma ReturnLeaves(env: Env, raw: Graph, merged: Graph, folded: Graph, k: Key)
    requires Stages(env, raw, merged, folded) && k in raw.insns && Rep(raw, k) in folded.insns
    requires IsReturn(raw.insns[k].insn.mnem)
    ensures CanLeave(folded, env.exits, k.width)
  {
    RepInsn(env, raw, merged, k);
    FoldedKeeps(merged, folded, Rep(raw, k));
    assert Leaves(env.exits, Rep(raw, k), folded.insns[Rep(raw, k)], k.width);
  }

  /** A dispatch without successors stays one in the merged graph. */
  lemma DispatchEndMerged(env: Env, raw: Graph, merged: Graph, k: Key)
    requires DecodesTo(env, Decoded(raw.order, raw.insns)) && MergedFrom(raw, merged) && k in raw.insns
    requires IsDispatchEnd(raw.insns[k]) && env.exitModes == map[]
    ensures Rep(raw, k) in merged.insns && merged.insns[Rep(raw, k)].successors == []
  {
    RepInsn(env, raw, merged, k);
    var a := Rep(raw, k);
    if merged.insns[a].successors != [] {
      var t := merged.insns[a].successors[0];
      EdgesExact(raw, merged, a, t);
      var j, s :| j in raw.insns && s in raw.insns[j].successors && Rep(raw, j) == a && Rep(raw, s) == t;
      RepIs(raw, merged, j);
      SameInsn(env, raw, k, j);
      SameInsn(env, raw, j, k);
      SameNothing(env, raw.insns[k].insn, k, j);
      assert false;
    }
  }

  lemma HandOverLeaves(env: Env, raw: Graph, merged: Graph, folded: Graph, k: Key, entry: nat, site: Site)
    requires Stages(env, raw, merged, folded) && k in raw.insns && Rep(raw, k) in folded.insns
    requires env.exitModes == map[] && HandsTo(k, raw.insns[k], entry, site) && site in env.exits
    ensures CanLeave(folded, env.exits, env.exits[site])
  {
    RepInsn(env, raw, merged, k);
    SameInsn(env, raw, k, k);
    DispatchEndMerged(env, raw, merged, k);
    var a := Rep(raw, k);
    FoldedKeeps(merged, folded, a);
    assert HandedTo(env.exits, a, folded.insns[a], entry, site, env.exits[site]);
    assert Leaves(env.exits, a, folded.insns[a], env.exits[site]);
  }

  /** A function that can be left has its entry decoded. */
  lemma EntryDecoded(env: Env, raw: Graph, merged: Graph, folded: Graph, exits: Exits, b: bool)
    requires Stages(env, raw, merged, folded) && CommonM(folded, exits, b)
    ensures raw.entry in raw.insns
  {
    var w :| CanLeave(folded, exits, w);
    var k :| k in folded.insns && Leaves(exits, k, folded.insns[k], w);
    var f :| FoldedFrom(merged.insns, f) && PrunedFrom(f, merged.entry, folded.insns);
    WalkStart(f, merged.entry, k);
    MergedEntry(raw, merged);
  }

  lemma WalkStart(f: Records, entry: Key, k: Key)
    requires ReachedIn(f, entry, k)
    ensures entry in f
  {
    var p :| IsWalk(f, p) && p[0] == entry && p[|p| - 1] == k && k in f;
    assert |p| > 1 ==> p[0] in f;
  }

  lemma MergedEntry(raw: Graph, merged: Graph)
    requires Lists(raw.order, raw.insns) && MergedFrom(raw, merged) && merged.entry in merged.insns
    ensures raw.entry in raw.insns
  {
  }

  // ----- The main theorem -----

  /** Decoding the entry in widths `w` under `exits` and meeting its exits gives `pair`. */
  ghost predicate Derives(world: World, exits: Exits, e: Entry, w: Width, pair: Width) {
    exists raw, merged, folded ::
      Stages(EnvFor(world, exits, e, w), raw, merged, folded) &&
        CommonM(folded, exits, pair.m) && CommonX(folded, exits, pair.x)
  }

  /** Every record that is not a seed is what decoding derives. */
  ghost predicate Consistent(world: World, exits: Exits, seeds: Exits) {
    forall e, w :: e in world.entries && e.named && SiteOf(e, w) !in seeds && SiteOf(e, w) in exits ==>
      Derives(world, exits, e, w, exits[SiteOf(e, w)])
  }

  /** The seeds hold: they are in the table, and runs of seeded functions leave as seeded. */
  ghost predicate SeedsHold(world: World, exits: Exits, seeds: Exits) {
    && (forall s :: s in seeds ==> s in exits && exits[s] == seeds[s])
    && (forall e, w, t, out ::
          SiteOf(e, w) in seeds && CallsPullOwn(t) && Runs(world, exits, seeds, e, w, None, Begin(e, w), t, out) ==>
          Left(t, out) == seeds[SiteOf(e, w)])
  }

  /** No function starts with a branch that the fold would decide. */
  ghost predicate NoFoldedEntries(world: World, exits: Exits) {
    forall e, w, raw, merged, folded ::
      e in world.entries && Stages(EnvFor(world, exits, e, w), raw, merged, folded) ==>
        !EntryFolded(merged.insns, merged.entry)
  }

  ghost predicate Premises(world: World, exits: Exits, seeds: Exits) {
    Consistent(world, exits, seeds) && SeedsHold(world, exits, seeds) && NoFoldedEntries(world, exits)
  }

  lemma PlainAdvance(env: Env, raw: Graph, merged: Graph, folded: Graph, prev: Option<Key>, k: Key, insn: Insn,
                     way: nat, u: Unseen)
    requires Stages(env, raw, merged, folded) && !EntryFolded(merged.insns, merged.entry)
    requires Inside(raw, folded, prev, k) && InsnAt(env, k) == Some(insn)
    requires CanStep(env, prev, k, insn, way, u)
    ensures Inside(raw, folded, Some(k), Moves(env.bank, insn, k, u)[way].to)
  {
    MovesAreEdges(env, k, insn, u);
    SameInsn(env, raw, k, k);
    AdmittedIsAccepted(env, k, insn, way);
    var next := Edges(env, insn, k)[way].to;
    if insn.mnem in {BEQ, BNE} {
      BranchStep(env, raw, merged, prev, k, insn, way);
    } else {
      FreeStep(env, raw, merged, prev, k, next);
    }
    Advance(env, raw, merged, folded, prev, k, next);
  }

  lemma DispatchAdvance(env: Env, raw: Graph, merged: Graph, folded: Graph, prev: Option<Key>, k: Key,
                        insn: Insn, next: Key)
    requires Stages(env, raw, merged, folded) && !EntryFolded(merged.insns, merged.entry)
    requires Inside(raw, folded, prev, k) && InsnAt(env, k) == Some(insn) && Recovered(env, insn, k).Some?
    requires next in Successors(env, insn, k) && Accepted(env, k, next)
    ensures Inside(raw, folded, Some(k), next)
  {
    SameInsn(env, raw, k, k);
    FreeStep(env, raw, merged, prev, k, next);
    Advance(env, raw, merged, folded, prev, k, next);
  }

  lemma CallAdvance(env: Env, raw: Graph, merged: Graph, folded: Graph, prev: Option<Key>, k: Key, insn: Insn,
                    callee: Entry, back: Width)
    requires Stages(env, raw, merged, folded) && !EntryFolded(merged.insns, merged.entry) && env.exitModes == map[]
    requires Inside(raw, folded, prev, k) && InsnAt(env, k) == Some(insn) && CanCall(env, k, insn, callee, back)
    requires SiteOf(callee, k.width) in env.exits && back == env.exits[SiteOf(callee, k.width)]
    ensures Inside(raw, folded, Some(k), Resume(env, insn, k, back).to)
  {
    ResumeIsEdge(env, k, insn, callee, back);
    SameInsn(env, raw, k, k);
    AdmittedIsAccepted(env, k, insn, 0);
    FreeStep(env, raw, merged, prev, k, Resume(env, insn, k, back).to);
    Advance(env, raw, merged, folded, prev, k, Resume(env, insn, k, back).to);
  }

  lemma AliasRecorded(exits: Exits, pc: nat, w: Width)
    ensures Alias(exits, pc, w).Some? ==> Alias(exits, pc, w).value in exits
  {
  }

  /** A run ends in the widths in which it leaves exactly when the RTI that may end it pulls its own. */
  lemma {:induction false} LeftIs(world: World, exits: Exits, seeds: Exits, e: Entry, w0: Width,
                                  prev: Option<Key>, k: Key, t: Trace, out: Width)
    requires Runs(world, exits, seeds, e, w0, prev, k, t, out)
    ensures out == Left(t, out) <==> PullsOwn(t)
    decreases t
  {
    var env := EnvFor(world, exits, e, w0);
    var insn := InsnAt(env, k).value;
    match t
    case Return =>
    case Reload(before, pulled) =>
    case Step(way, u, rest) =>
      LeftIs(world, exits, seeds, e, w0, Some(k), Moves(env.bank, insn, k, u)[way].to, rest, out);
    case Dispatched(next, rest) =>
      LeftIs(world, exits, seeds, e, w0, Some(k), next, rest, out);
    case Call(callee, body, back, rest) =>
      LeftIs(world, exits, seeds, e, w0, Some(k), Resume(env, insn, k, back).to, rest, out);
    case HandOver(entry, handler, body) =>
      LeftIs(world, exits, seeds, handler, k.width, None, Begin(handler, k.width), body, out);
  }

  /** From any point inside the graph, a run leaves in widths with which the graph can be left. */
  lemma {:induction false} RunLeaves(world: World, exits: Exits, seeds: Exits, e: Entry, w0: Width,
                                     raw: Graph, merged: Graph, folded: Graph,
                                     prev: Option<Key>, k: Key, t: Trace, out: Width)
    requires Premises(world, exits, seeds) && !EntryFolded(merged.insns, merged.entry)
    requires Stages(EnvFor(world, exits, e, w0), raw, merged, folded) && Inside(raw, folded, prev, k)
    requires Runs(world, exits, seeds, e, w0, prev, k, t, out) && CallsPullOwn(t)
    ensures CanLeave(folded, exits, Left(t, out))
    decreases t, 0
  {
    var env := EnvFor(world, exits, e, w0);
    var insn := InsnAt(env, k).value;
    SameInsn(env, raw, k, k);
    match t
    case Return =>
      ReturnLeaves(env, raw, merged, folded, k);
    case Reload(before, pulled) =>
      ReturnLeaves(env, raw, merged, folded, k);
    case Step(way, u, rest) =>
      PlainAdvance(env, raw, merged, folded, prev, k, insn, way, u);
      var next := Moves(env.bank, insn, k, u)[way].to;
      RunLeaves(world, exits, seeds, e, w0, raw, merged, folded, Some(k), next, rest, out);
    case Dispatched(next, rest) =>
      DispatchAdvance(env, raw, merged, folded, prev, k, insn, next);
      RunLeaves(world, exits, seeds, e, w0, raw, merged, folded, Some(k), next, rest, out);
    case Call(callee, body, back, rest) =>
      AliasRecorded(exits, CallTarget(env.bank, insn).value, k.width);
      ExitsSound(world, exits, seeds, callee, k.width, body, back);
      CallAdvance(env, raw, merged, folded, prev, k, insn, callee, back);
      RunLeaves(world, exits, seeds, e, w0, raw, merged, folded, Some(k), Resume(env, insn, k, back).to, rest, out);
    case HandOver(entry, handler, body) =>
      ExitsSound(world, exits, seeds, handler, k.width, body, out);
      HandOverLeaves(env, raw, merged, folded, k, entry, SiteOf(handler, k.width));
  }

  /** Every run of a recorded function, through calls nested to any depth, leaves in exactly the
      recorded widths; it also returns in them exactly when the RTI that may end it pulls its own. */
  lemma {:induction false} ExitsSound(world: World, exits: Exits, seeds: Exits, e: Entry, w: Width,
                                    t: Trace, out: Width)
    requires Premises(world, exits, seeds) && SiteOf(e, w) in exits && Known(world, seeds, e, w)
    requires Runs(world, exits, seeds, e, w, None, Begin(e, w), t, out) && CallsPullOwn(t)
    ensures Left(t, out) == exits[SiteOf(e, w)]
    ensures out == exits[SiteOf(e, w)] <==> PullsOwn(t)
    decreases t, 1
  {
    LeftIs(world, exits, seeds, e, w, None, Begin(e, w), t, out);
    if SiteOf(e, w) !in seeds {
      var pair := exits[SiteOf(e, w)];
      assert Derives(world, exits, e, w, pair);
      var raw, merged, folded :| Stages(EnvFor(world, exits, e, w), raw, merged, folded)
        && CommonM(folded, exits, pair.m) && CommonX(folded, exits, pair.x);
      EntryDecoded(EnvFor(world, exits, e, w), raw, merged, folded, exits, pair.m);
      Arrive(EnvFor(world, exits, e, w), raw, merged, folded);
      RunLeaves(world, exits, seeds, e, w, raw, merged, folded, None, Begin(e, w), t, out);
    }
  }
}
