/** Straight-line functions, with side paths that lead nowhere: decoding, merging and folding leave
    them as they are, and they leave in the widths of their last instruction. */
module Lines {
  import opened Machine
  import opened Decoder
  import opened Dedupe
  import opened DecodedMerge
  import opened ConstZFold
  import opened ExitAnalysis
  import opened ModeMachine
  import opened ExitSoundness
  import opened ExitModes
  import opened ListedStages
  import opened Listings

  /** The instructions from the entry to the return, and those beside them. */
  datatype Line = Line(keys: seq<Key>, side: seq<Key>)

  function End(p: Line): Width
    requires p.keys != []
  {
    p.keys[|p.keys| - 1].width
  }

  /** `k` leads to `next` and, past the gates, otherwise only aside. */
  ghost predicate LeadsOn(env: Env, k: Key, next: Key, side: seq<Key>) {
    && InsnAt(env, k).Some? && Accepted(env, k, next) && next in Successors(env, InsnAt(env, k).value, k)
    && forall e :: e in EdgesAt(env, k) && Admits(env, Along(k, e)) ==> e.to == next || e.to in side
  }

  ghost predicate StaysAside(env: Env, k: Key, side: seq<Key>) {
    forall e :: e in EdgesAt(env, k) && Admits(env, Along(k, e)) ==> e.to in side
  }

  /** An instruction that neither returns, hands control over nor can be folded. */
  ghost predicate PassesOn(env: Env, k: Key) {
    && InsnAt(env, k).Some?
    && var insn := InsnAt(env, k).value;
    && insn.mnem !in {BEQ, BNE} && !IsReturn(insn.mnem) && !IsDispatchEnd(RecordOf(env, insn, k))
  }

  ghost predicate Returns(env: Env, k: Key) {
    InsnAt(env, k).Some? && IsReturn(InsnAt(env, k).value.mnem) && EdgesAt(env, k) == []
  }

  ghost predicate Links(env: Env, k: Key, next: Key, side: seq<Key>) {
    PassesOn(env, k) && LeadsOn(env, k, next, side)
  }

  /** Each key but the last passes on to the next. */
  ghost predicate Linked(env: Env, p: seq<Key>, side: seq<Key>) {
    forall i :: 0 <= i < |p| - 1 ==> Links(env, p[i], p[i + 1], side)
  }

  ghost predicate IsLine(env: Env, p: Line) {
    && p.keys != [] && |p.keys| + |p.side| < env.maxInsns && p.keys[0] == Seed(env).key && Admits(env, Seed(env))
    && Linked(env, p.keys, p.side) && Returns(env, p.keys[|p.keys| - 1])
    && forall k :: k in p.side ==> PassesOn(env, k) && StaysAside(env, k, p.side)
  }

  lemma LineConfines(env: Env, p: Line)
    requires IsLine(env, p)
    ensures Confines(env, p.keys + p.side)
  {
    forall k | k in p.keys + p.side
      ensures InsnAt(env, k).Some?
      ensures forall e :: e in EdgesAt(env, k) && Admits(env, Along(k, e)) ==> e.to in p.keys + p.side
    {
      if k in p.keys {
        var i :| 0 <= i < |p.keys| && p.keys[i] == k;
        if i < |p.keys| - 1 { LineLink(env, p, i); }
      }
    }
  }

  lemma LineLink(env: Env, p: Line, i: nat)
    requires IsLine(env, p) && i < |p.keys| - 1
    ensures Links(env, p.keys[i], p.keys[i + 1], p.side)
  {
  }

  /** What stands on a line. */
  lemma OnLine(env: Env, p: Line, k: Key)
    requires IsLine(env, p) && k in p.keys + p.side
    ensures InsnAt(env, k).Some?
    ensures PassesOn(env, k) || (k == p.keys[|p.keys| - 1] && IsReturn(InsnAt(env, k).value.mnem))
  {
    if k in p.keys {
      var i :| 0 <= i < |p.keys| && p.keys[i] == k;
      if i < |p.keys| - 1 { LineLink(env, p, i); }
    }
  }

  /** What a decoded key of a line is. */
  lemma LineRecord(env: Env, p: Line, raw: Graph, k: Key)
    requires IsLine(env, p) && DecodesTo(env, Decoded(raw.order, raw.insns)) && k in raw.insns
    ensures raw.insns[k].insn.mnem !in {BEQ, BNE} && raw.insns[k].width == k.width
    ensures IsReturn(raw.insns[k].insn.mnem) ==> k == p.keys[|p.keys| - 1]
    ensures k != p.keys[|p.keys| - 1] ==> !IsDispatchEnd(raw.insns[k])
    ensures k == p.keys[|p.keys| - 1] ==> IsReturn(raw.insns[k].insn.mnem)
  {
    LineConfines(env, p);
    ReachedConfined(env, p.keys + p.side, k);
    OnLine(env, p, k);
    SameInsn(env, raw, k, k);
  }

  lemma LineUnfoldable(env: Env, p: Line, raw: Graph)
    requires IsLine(env, p) && DecodesTo(env, Decoded(raw.order, raw.insns))
    ensures NoZBranch(raw)
  {
    forall k | k in raw.insns
      ensures raw.insns[k].insn.mnem !in {BEQ, BNE}
    {
      LineRecord(env, p, raw, k);
    }
  }

  lemma {:induction false} LineInside(env: Env, p: Line, raw: Graph, merged: Graph, folded: Graph, n: nat)
    requires IsLine(env, p) && Stages(env, raw, merged, folded) && n < |p.keys|
    ensures Inside(raw, folded, if n == 0 then None else Some(p.keys[n - 1]), p.keys[n])
    decreases n
  {
    if n == 0 {
      LineStarts(env, p, raw, merged, folded);
    } else {
      LineInside(env, p, raw, merged, folded, n - 1);
      LineLink(env, p, n - 1);
      LineStep(env, p, raw, merged, folded, if n == 1 then None else Some(p.keys[n - 2]), p.keys[n - 1], p.keys[n]);
    }
  }

  lemma LineStarts(env: Env, p: Line, raw: Graph, merged: Graph, folded: Graph)
    requires IsLine(env, p) && Stages(env, raw, merged, folded)
    ensures Inside(raw, folded, None, p.keys[0])
  {
    ReachedSeed(env);
    Arrive(env, raw, merged, folded);
  }

  lemma LineStep(env: Env, p: Line, raw: Graph, merged: Graph, folded: Graph, prev: Option<Key>, k: Key, next: Key)
    requires IsLine(env, p) && Stages(env, raw, merged, folded) && Inside(raw, folded, prev, k)
    requires LeadsOn(env, k, next, p.side)
    ensures Inside(raw, folded, Some(k), next)
  {
    LineUnfoldable(env, p, raw);
    EntryKept(raw, merged);
    assert Exact(env, k, raw.insns[k]);
    FreeStep(env, raw, merged, prev, k, next);
    Advance(env, raw, merged, folded, prev, k, next);
  }

  /** A line can be left in the widths of its last instruction. */
  lemma LineLeaves(env: Env, p: Line, raw: Graph, merged: Graph, folded: Graph)
    requires IsLine(env, p) && Stages(env, raw, merged, folded)
    ensures CanLeave(folded, env.exits, End(p))
  {
    var last := p.keys[|p.keys| - 1];
    LineInside(env, p, raw, merged, folded, |p.keys| - 1);
    LineRecord(env, p, raw, last);
    ReturnLeaves(env, raw, merged, folded, last);
  }

  /** And only in these. */
  lemma LeavesOnlySo(env: Env, p: Line, raw: Graph, merged: Graph, folded: Graph, w: Width)
    requires IsLine(env, p) && Stages(env, raw, merged, folded) && CanLeave(folded, env.exits, w)
    ensures w == End(p)
  {
    var k :| k in folded.insns && Leaves(env.exits, k, folded.insns[k], w);
    SurvivorRecord(env, p, raw, merged, folded, k);
  }

  lemma SurvivorRecord(env: Env, p: Line, raw: Graph, merged: Graph, folded: Graph, k: Key)
    requires IsLine(env, p) && Stages(env, raw, merged, folded) && k in folded.insns
    ensures IsReturn(folded.insns[k].insn.mnem) ==> folded.insns[k].width == End(p)
    ensures !IsDispatchEnd(folded.insns[k])
  {
    LineUnfoldable(env, p, raw);
    SurvivorIs(raw, merged, folded, k);
    LineRecord(env, p, raw, k);
    SameEnd(raw.insns[k], folded.insns[k]);
  }

  lemma SameEnd(r: Record<Key>, s: Record<Key>)
    requires s == r.(successors := s.successors) && |r.successors| <= |s.successors|
    ensures IsDispatchEnd(s) ==> IsDispatchEnd(r)
    ensures IsReturn(r.insn.mnem) ==> !IsDispatchEnd(s)
  {
  }

  lemma LineCommon(env: Env, p: Line, raw: Graph, merged: Graph, folded: Graph)
    requires IsLine(env, p) && Stages(env, raw, merged, folded)
    ensures CommonM(folded, env.exits, End(p).m) && CommonX(folded, env.exits, End(p).x)
    ensures !EntryFolded(merged.insns, merged.entry)
  {
    LineEntryKept(env, p, raw, merged, folded);
    LineLeaves(env, p, raw, merged, folded);
    forall w | CanLeave(folded, env.exits, w)
      ensures w == End(p)
    {
      LeavesOnlySo(env, p, raw, merged, folded, w);
    }
    forall k | k in folded.insns
      ensures Resolved(env.exits, k, folded.insns[k])
    {
      SurvivorRecord(env, p, raw, merged, folded, k);
    }
  }

  lemma LineEntryKept(env: Env, p: Line, raw: Graph, merged: Graph, folded: Graph)
    requires IsLine(env, p) && Stages(env, raw, merged, folded)
    ensures !EntryFolded(merged.insns, merged.entry)
  {
    LineUnfoldable(env, p, raw);
    EntryKept(raw, merged);
  }

  /** What inference derives for a line is the widths of its last instruction. */
  lemma LineDerives(world: World, exits: Exits, e: Entry, w: Width, p: Line)
    requires IsLine(EnvFor(world, exits, e, w), p)
    ensures !Underivable(world, exits, e, w)
    ensures forall pair :: Derives(world, exits, e, w, pair) ==> pair == End(p)
  {
    var env, last := EnvFor(world, exits, e, w), End(p);
    LineConfines(env, p);
    forall out | DecodesTo(env, out)
      ensures out.Decoded?
    {
      MustDecode(env, p.keys + p.side, out);
    }
    forall raw, merged, folded | Stages(env, raw, merged, folded)
      ensures CommonM(folded, exits, last.m) && CommonX(folded, exits, last.x)
    {
      LineCommon(env, p, raw, merged, folded);
    }
  }

  /** Inference on a line. */
  method InferLine(world: World, exits: Exits, e: Entry, w: Width, ghost p: Line)
    requires IsLine(EnvFor(world, exits, e, w), p)
    ensures Derives(world, exits, e, w, End(p))
  {
    var pair := DecodeVariantExit(world, exits, e, w);
    LineDerives(world, exits, e, w, p);
  }

  // ----- Lines of listed instructions -----

  /** A plain instruction with one edge. */
  lemma OneWayOn(env: Env, k: Key, insn: Insn, e: Edge)
    requires GoesOnly(env, k, insn, e) && insn.mnem !in {BEQ, BNE} && !IsReturn(insn.mnem)
    ensures Links(env, k, e.to, [])
  {
    PassesIsAdmitted(env, k, e);
    PlainSuccessors(env, k, insn);
    TargetIn(EdgesAt(env, k), e);
    assert e in EdgesAt(env, k);
  }

  /** A conditional branch, one way of which leads on and the other aside or past the gates. */
  lemma BranchesOn(env: Env, k: Key, insn: Insn, on: Edge, other: Edge, side: seq<Key>)
    requires IsPlain(env) && Holds(env, k, insn) && IsCondBranch(insn.mnem) && insn.mnem !in {BEQ, BNE}
    requires EdgesAt(env, k) == [on, other] || EdgesAt(env, k) == [other, on]
    requires Passes(env, Pc16(k), on) && (Passes(env, Pc16(k), other) ==> other.to in side)
    ensures Links(env, k, on.to, side)
  {
    PassesIsAdmitted(env, k, on);
    PassesIsAdmitted(env, k, other);
    PlainSuccessors(env, k, insn);
    TargetIn(EdgesAt(env, k), on);
    assert on in EdgesAt(env, k);
  }

  /** An instruction whose only edge the gates reject. */
  lemma CutOff(env: Env, k: Key, insn: Insn, e: Edge, side: seq<Key>)
    requires IsPlain(env) && Holds(env, k, insn) && EdgesAt(env, k) == [e] && !Passes(env, Pc16(k), e)
    requires insn.mnem !in {BEQ, BNE} && !IsReturn(insn.mnem)
    ensures PassesOn(env, k) && StaysAside(env, k, side)
  {
    PassesIsAdmitted(env, k, e);
    PlainSuccessors(env, k, insn);
  }

  /** A JSR resumes in the widths that the table gives for its target. */
  lemma CallEdge(env: Env, k: Key, insn: Insn, back: Width)
    requires IsPlain(env) && Holds(env, k, insn) && insn.mnem == JSR && insn.length == 3
    requires back == ResumeWidth(env.exits, Addr24(env.bank, insn.operand), k.width)
    ensures EdgesAt(env, k) == [Edge(KeyAt(env, Next(k, insn), back, k.pstack), Fall)]
  {
    AtIsHeld(env, k, insn);
    DirectTarget(env.bank, insn);
    CallIsLabeled(env, k, insn);
    CallResumesIn(env, insn, Next(k, insn), k.width, k.pstack, Addr24(env.bank, insn.operand));
    NextStays(k, insn);
    EdgesAtIs(env, k, insn);
  }

  lemma CallResumesIn(env: Env, insn: Insn, next: nat, w: Width, pstack: seq<Width>, pc: nat)
    requires IsPlain(env) && CallTarget(env.bank, insn) == Some(pc)
    ensures CallEdges(env, insn, next, w, pstack) ==
            [Edge(Key(Addr24(env.bank, (next + 0) % 0x10000), ResumeWidth(env.exits, pc, w), pstack), Fall)]
  {
    NothingSkipped(env, Some(pc));
    assert ResumeModes(env, pc, w, (next + 0) % 0x10000) == {};
  }

  lemma NextStays(k: Key, insn: Insn)
    ensures (Next(k, insn) + 0) % 0x10000 == Next(k, insn)
  {
  }

  lemma EdgesAtIs(env: Env, k: Key, insn: Insn)
    requires InsnAt(env, k) == Some(insn)
    ensures EdgesAt(env, k) == Edges(env, insn, k)
  {
  }

  lemma DirectTarget(bank: nat, insn: Insn)
    requires insn.mnem == JSR && insn.length == 3
    ensures CallTarget(bank, insn) == Some(Addr24(bank, insn.operand))
  {
  }

  lemma EndsLine(env: Env, k: Key, insn: Insn)
    requires IsPlain(env) && Holds(env, k, insn) && IsReturn(insn.mnem)
    ensures Returns(env, k)
  {
    ReturnEdges(env, k, insn);
  }

  lemma TwoLinked(env: Env, a: Key, b: Key, side: seq<Key>)
    requires Links(env, a, b, side)
    ensures Linked(env, [a, b], side)
  {
  }

  lemma ThreeLinked(env: Env, a: Key, b: Key, c: Key)
    requires Links(env, a, b, []) && Links(env, b, c, [])
    ensures Linked(env, [a, b, c], [])
  {
    var p := [a, b, c];
    forall i | 0 <= i < 2
      ensures Links(env, p[i], p[i + 1], [])
    {
      assert i == 0 || i == 1;
    }
  }

  lemma FourLinked(env: Env, a: Key, b: Key, c: Key, d: Key)
    requires Linked(env, [a, b, c], []) && Links(env, c, d, [])
    ensures Linked(env, [a, b, c, d], [])
  {
    var p, q := [a, b, c], [a, b, c, d];
    forall i | 0 <= i < 3
      ensures Links(env, q[i], q[i + 1], [])
    {
      if i < 2 { assert Links(env, p[i], p[i + 1], []); }
    }
  }

  lemma FormLine(env: Env, p: Line)
    requires IsPlain(env) && 0x8000 <= env.start < 0x10000 && 0 < |p.keys| <= 4 && |p.side| <= 1
    requires p.keys[0] == KeyAt(env, env.start, env.width, [])
    requires Linked(env, p.keys, p.side) && Returns(env, p.keys[|p.keys| - 1])
    requires forall k :: k in p.side ==> PassesOn(env, k) && StaysAside(env, k, p.side)
    ensures IsLine(env, p)
  {
    SeedAdmitted(env);
  }

  /** What the steps of the runs below meet. */
  const MET := Unseen(false, WIDE)

  /** A run that starts with a plain instruction with one edge. */
  lemma RunsOn(world: World, exits: Exits, seeds: Exits, e: Entry, w0: Width, prev: Option<Key>, k: Key, insn: Insn,
               edge: Edge, rest: Trace, out: Width)
    requires GoesOnly(EnvFor(world, exits, e, w0), k, insn, edge)
    requires insn.mnem !in {JSR, JSL, BEQ, BNE} && Trackable(insn, k.width, k.pstack)
    requires Runs(world, exits, seeds, e, w0, Some(k), edge.to, rest, out)
    ensures Runs(world, exits, seeds, e, w0, prev, k, Step(0, MET, rest), out)
  {
    var env := EnvFor(world, exits, e, w0);
    AtIsHeld(env, k, insn);
    EdgesAtIs(env, k, insn);
    MovesAreEdges(env, k, insn, MET);
    PassesIsAdmitted(env, k, edge);
  }

  /** A run that starts with a call. */
  lemma RunsCall(world: World, exits: Exits, seeds: Exits, e: Entry, w0: Width, prev: Option<Key>, k: Key, insn: Insn,
                 callee: Entry, body: Trace, back: Width, next: Key, rest: Trace, out: Width)
    requires var env := EnvFor(world, exits, e, w0);
             InsnAt(env, k) == Some(insn) && CanCall(env, k, insn, callee, back) &&
             Resume(env, insn, k, back).to == next
    requires Known(world, seeds, callee, k.width)
    requires Runs(world, exits, seeds, callee, k.width, None, Begin(callee, k.width), body, back)
    requires Runs(world, exits, seeds, e, w0, Some(k), next, rest, out)
    ensures Runs(world, exits, seeds, e, w0, prev, k, Call(callee, body, back, rest), out)
  {
  }

  lemma RunsOut(world: World, exits: Exits, seeds: Exits, e: Entry, w0: Width, prev: Option<Key>, k: Key, insn: Insn)
    requires Holds(EnvFor(world, exits, e, w0), k, insn) && insn.mnem in {RTS, RTL}
    ensures Runs(world, exits, seeds, e, w0, prev, k, Return, k.width)
  {
    AtIsHeld(EnvFor(world, exits, e, w0), k, insn);
  }

  lemma RunsReload(world: World, exits: Exits, seeds: Exits, e: Entry, w0: Width, prev: Option<Key>, k: Key, insn: Insn,
                   pulled: Width)
    requires Holds(EnvFor(world, exits, e, w0), k, insn) && insn.mnem == RTI
    ensures Runs(world, exits, seeds, e, w0, prev, k, Reload(k.width, pulled), pulled)
  {
    AtIsHeld(EnvFor(world, exits, e, w0), k, insn);
  }

  // ----- Tables of lines -----

  /** What is derived for a variant is what the table records. */
  ghost predicate AsRecorded(world: World, exits: Exits, e: Entry, w: Width) {
    SiteOf(e, w) in exits && Derives(world, exits, e, w, exits[SiteOf(e, w)])
  }

  /** The entry is a line in every width, and leaves as the table records. */
  ghost predicate LinesRecorded(world: World, exits: Exits, e: Entry, line: Width -> Line) {
    forall w :: LineRecorded(world, exits, e, line(w), w)
  }

  ghost predicate LineRecorded(world: World, exits: Exits, e: Entry, p: Line, w: Width) {
    && IsLine(EnvFor(world, exits, e, w), p)
    && SiteOf(e, w) in exits && exits[SiteOf(e, w)] == End(p)
  }

  method InferVariant(world: World, exits: Exits, e: Entry, w: Width, ghost p: Line)
    requires LineRecorded(world, exits, e, p, w)
    ensures AsRecorded(world, exits, e, w)
  {
    InferLine(world, exits, e, w, p);
  }

  lemma ForAllWidths(p: Width -> bool)
    requires p(ALL_WIDTHS[0]) && p(ALL_WIDTHS[1]) && p(ALL_WIDTHS[2]) && p(ALL_WIDTHS[3])
    ensures forall w :: p(w)
  {
    forall w: Width
      ensures p(w)
    {
      assert w == ALL_WIDTHS[WidthIndex(w)];
    }
  }

  /** Inference on an entry in all four widths. */
  method InferEntry(world: World, exits: Exits, e: Entry, ghost line: Width -> Line)
    requires LinesRecorded(world, exits, e, line)
    ensures forall w :: AsRecorded(world, exits, e, w)
  {
    InferVariant(world, exits, e, ALL_WIDTHS[0], line(ALL_WIDTHS[0]));
    InferVariant(world, exits, e, ALL_WIDTHS[1], line(ALL_WIDTHS[1]));
    InferVariant(world, exits, e, ALL_WIDTHS[2], line(ALL_WIDTHS[2]));
    InferVariant(world, exits, e, ALL_WIDTHS[3], line(ALL_WIDTHS[3]));
    ghost var recorded := (w: Width) => AsRecorded(world, exits, e, w);
    ForAllWidths(recorded);
    assert forall w :: recorded(w) ==> AsRecorded(world, exits, e, w);
  }

  /** Entries that are all lines. */
  ghost predicate AllLines(world: World, exits: Exits) {
    forall e, w :: e in world.entries ==> AsRecorded(world, exits, e, w) && SomeLine(world, exits, e, w)
  }

  ghost predicate SomeLine(world: World, exits: Exits, e: Entry, w: Width) {
    exists p: Line :: IsLine(EnvFor(world, exits, e, w), p)
  }

  lemma TwoEntries(world: World, exits: Exits, a: Entry, lineA: Width -> Line, b: Entry, lineB: Width -> Line)
    requires world.entries == [a, b] && LinesRecorded(world, exits, a, lineA) && LinesRecorded(world, exits, b, lineB)
    requires (forall w :: AsRecorded(world, exits, a, w)) && (forall w :: AsRecorded(world, exits, b, w))
    ensures AllLines(world, exits)
  {
    forall e, w | e in world.entries
      ensures AsRecorded(world, exits, e, w) && SomeLine(world, exits, e, w)
    {
      var p := if e == a then lineA(w) else lineB(w);
      assert LineRecorded(world, exits, e, p, w);
    }
  }

  lemma LinesUnfolded(world: World, exits: Exits)
    requires AllLines(world, exits)
    ensures NoFoldedEntries(world, exits)
  {
    forall e, w, raw, merged, folded | e in world.entries && Stages(EnvFor(world, exits, e, w), raw, merged, folded)
      ensures !EntryFolded(merged.insns, merged.entry)
    {
      assert SomeLine(world, exits, e, w);
      var p :| IsLine(EnvFor(world, exits, e, w), p);
      LineEntryKept(EnvFor(world, exits, e, w), p, raw, merged, folded);
    }
  }

  lemma LinesSettled(world: World, exits: Exits)
    requires AllLines(world, exits)
    ensures Consistent(world, exits, map[]) && Clean(world, exits, map[])
  {
    forall i, w | 0 <= i < |world.entries|
      ensures Settled(world, exits, map[], world.entries[i], w)
    {
      assert AsRecorded(world, exits, world.entries[i], w);
    }
    forall e, w | e in world.entries
      ensures SiteOf(e, w) in exits && Derives(world, exits, e, w, exits[SiteOf(e, w)])
    {
      assert AsRecorded(world, exits, e, w);
    }
  }

  /** Two entries, both lines: the premises of soundness hold, and a pass would change nothing. */
  lemma TwoLines(world: World, exits: Exits, a: Entry, lineA: Width -> Line, b: Entry, lineB: Width -> Line)
    requires world.entries == [a, b] && LinesRecorded(world, exits, a, lineA) && LinesRecorded(world, exits, b, lineB)
    requires (forall w :: AsRecorded(world, exits, a, w)) && (forall w :: AsRecorded(world, exits, b, w))
    ensures Premises(world, exits, map[]) && Clean(world, exits, map[])
  {
    TwoEntries(world, exits, a, lineA, b, lineB);
    LinesUnfolded(world, exits);
    LinesSettled(world, exits);
  }
}
