/** Folding BEQ/BNE right after an immediate load, and dropping what no longer can be reached. */
module ConstZFold {
  import opened Machine
  import opened Decoder

  predicate IsZBranch(r: Record<Key>) {
    r.insn.mnem in {BEQ, BNE} && |r.successors| == 2
  }

  predicate IsLoadImm(insn: Insn) {
    insn.mnem in {LDA, LDX, LDY} && insn.mode == IMM
  }

  /** Z after an immediate load: whether the operand is zero at the width of the loaded register. */
  predicate LoadsZero(insn: Insn, w: Width) {
    var narrow := if insn.mnem == LDA then w.m else w.x;
    insn.operand % (if narrow then 0x100 else 0x10000) == 0
  }

  predicate LoadZ(r: Record<Key>) {
    LoadsZero(r.insn, r.width)
  }

  /** Where a Z branch goes: successor 0 is the fall-through, 1 the target. */
  function Live(r: Record<Key>, z: bool): Key
    requires IsZBranch(r)
  {
    if (r.insn.mnem == BEQ) == z then r.successors[1] else r.successors[0]
  }

  function Dead(r: Record<Key>, z: bool): Key
    requires IsZBranch(r)
  {
    Live(r, !z)
  }

  // ----- The processor -----

  datatype Registers = Registers(a: nat, x: nat, y: nat)

  /** What an immediate load leaves in the registers: it reads one operand byte if its register is 8 bits
      wide and two if it is 16; an 8-bit A keeps its upper byte, an 8-bit X or Y has none. */
  function Loaded(insn: Insn, w: Width, r: Registers): Registers {
    var low, high := insn.operand % 0x100, insn.operand / 0x100 % 0x100;
    match insn.mnem
    case LDA => if w.m then r.(a := r.a / 0x100 * 0x100 + low) else r.(a := 0x100 * high + low)
    case LDX => if w.x then r.(x := low) else r.(x := 0x100 * high + low)
    case LDY => if w.x then r.(y := low) else r.(y := 0x100 * high + low)
    case _ => r
  }

  /** The register that a load has written holds zero, as far as it is in use. */
  predicate HoldsZero(insn: Insn, w: Width, r: Registers) {
    match insn.mnem
    case LDA => if w.m then r.a % 0x100 == 0 else r.a == 0
    case LDX => r.x == 0
    case LDY => r.y == 0
    case _ => false
  }

  /** Z after an immediate load. */
  predicate SetsZ(insn: Insn, w: Width) {
    HoldsZero(insn, w, Loaded(insn, w, Registers(0, 0, 0)))
  }

  /** What the registers held before makes no difference. */
  lemma AnyRegisters(insn: Insn, w: Width, r: Registers)
    requires insn.mnem in {LDA, LDX, LDY}
    ensures HoldsZero(insn, w, Loaded(insn, w, r)) <==> SetsZ(insn, w)
  {
    var low := insn.operand % 0x100;
    assert (r.a / 0x100 * 0x100 + low) % 0x100 == low;
  }

  /** The fold computes the processor's Z, in all four widths. */
  lemma LoadsZeroIs(insn: Insn, w: Width)
    requires insn.mnem in {LDA, LDX, LDY}
    ensures LoadsZero(insn, w) <==> SetsZ(insn, w)
  {
    TwoBytes(insn.operand);
  }

  // ----- Executions -----

  /** Where an instruction may go after another: BEQ and BNE right after an immediate load go where the
      Z it has set sends them. */
  predicate Goes(prev: Option<Record<Key>>, r: Record<Key>, next: Key) {
    && next in r.successors
    && (prev.Some? && prev.value.insn.mnem in {LDA, LDX, LDY} && prev.value.insn.mode == IMM &&
        r.insn.mnem in {BEQ, BNE} && |r.successors| == 2 ==>
          next == r.successors[if SetsZ(prev.value.insn, prev.value.width) <==> r.insn.mnem == BEQ then 1 else 0])
  }

  function At(insns: Records, k: Option<Key>): Option<Record<Key>> {
    if k.Some? && k.value in insns then Some(insns[k.value]) else None
  }

  predicate Follows(insns: Records, prev: Option<Key>, k: Key, next: Key)
    requires k in insns
  {
    Goes(At(insns, prev), insns[k], next)
  }

  /** An execution from the entry; it may end by leaving the graph. */
  ghost predicate IsRun(insns: Records, entry: Key, p: seq<Key>) {
    && |p| > 0 && p[0] == entry
    && (forall i :: 0 <= i < |p| - 1 ==> p[i] in insns)
    && (forall i :: 0 <= i < |p| - 1 ==> Follows(insns, Before(p, i), p[i], p[i + 1]))
  }

  // ----- The fold -----

  ghost predicate OnlyPred(insns: Records, p: Key, k: Key) {
    && p in insns && k in insns[p].successors
    && forall q :: q in insns && k in insns[q].successors ==> q == p
  }

  /** The branch at `k` is decided by the immediate load at `p`. */
  ghost predicate Decides(insns: Records, p: Key, k: Key) {
    && k in insns && IsZBranch(insns[k]) && OnlyPred(insns, p, k)
    && IsLoadImm(insns[p].insn) && insns[p].successors == [k]
  }

  function FoldTo(insns: Records, p: Key, k: Key): Record<Key>
    requires k in insns && p in insns && IsZBranch(insns[k])
  {
    insns[k].(successors := [Live(insns[k], LoadZ(insns[p]))])
  }

  /** `f` is the graph with every decided branch folded. */
  ghost predicate FoldedFrom(insns: Records, f: Records) {
    && f.Keys == insns.Keys
    && forall k :: k in insns ==> FoldOf(insns, k, f[k])
  }

  ghost predicate FoldOf(insns: Records, k: Key, r: Record<Key>)
    requires k in insns
  {
    && (forall p :: Decides(insns, p, k) ==> r == FoldTo(insns, p, k))
    && ((forall p :: !Decides(insns, p, k)) ==> r == insns[k])
  }

  /** A BEQ or BNE with two successors is decided by the one instruction before it, if that is an
      immediate load of A, X or Y that leads nowhere else. */
  ghost predicate ZKnown(insns: Records, p: Key, k: Key) {
    && k in insns && insns[k].insn.mnem in {BEQ, BNE} && |insns[k].successors| == 2
    && p in insns && insns[p].insn.mnem in {LDA, LDX, LDY} && insns[p].insn.mode == IMM && insns[p].successors == [k]
    && forall q :: q in insns && k in insns[q].successors ==> q == p
  }

  /** The way that the processor takes at `k`, coming from the load at `p`. */
  function Taken(insns: Records, p: Key, k: Key): Key
    requires p in insns && k in insns && |insns[k].successors| == 2
  {
    insns[k].successors[if SetsZ(insns[p].insn, insns[p].width) <==> insns[k].insn.mnem == BEQ then 1 else 0]
  }

  lemma ZKnownDecides(insns: Records, p: Key, k: Key)
    ensures ZKnown(insns, p, k) <==> Decides(insns, p, k)
  {
    if ZKnown(insns, p, k) { assert insns[p].successors[0] == k; }
  }

  lemma TakenIsLive(insns: Records, p: Key, k: Key)
    requires ZKnown(insns, p, k)
    ensures IsZBranch(insns[k]) && Taken(insns, p, k) == Live(insns[k], LoadZ(insns[p]))
  {
    LoadsZeroIs(insns[p].insn, insns[p].width);
  }

  /** What the fold makes of each instruction: a branch whose Z is known keeps the way the processor
      takes, and everything else stays as it is. */
  lemma FoldExact(insns: Records, f: Records, k: Key)
    requires FoldedFrom(insns, f) && k in insns
    ensures forall p :: ZKnown(insns, p, k) ==> f[k] == insns[k].(successors := [Taken(insns, p, k)])
    ensures (forall p :: !ZKnown(insns, p, k)) ==> f[k] == insns[k]
  {
    assert FoldOf(insns, k, f[k]);
    forall p | ZKnown(insns, p, k)
      ensures f[k] == insns[k].(successors := [Taken(insns, p, k)])
    {
      ZKnownDecides(insns, p, k);
      TakenIsLive(insns, p, k);
    }
    forall p
      ensures ZKnown(insns, p, k) <==> Decides(insns, p, k)
    {
      ZKnownDecides(insns, p, k);
    }
  }

  /** A walk that never leaves the graph. */
  ghost predicate ReachedIn(insns: Records, entry: Key, k: Key) {
    exists p :: IsWalk(insns, p) && p[0] == entry && p[|p| - 1] == k && k in insns
  }

  /** `r` keeps exactly what the entry reaches in `f`. */
  ghost predicate PrunedFrom(f: Records, entry: Key, r: Records) {
    && (forall k :: k in r <==> ReachedIn(f, entry, k))
    && (forall k :: k in r ==> k in f && r[k] == f[k])
  }

  // ----- Executions are preserved -----

  lemma {:induction false} WalkPrefix(insns: Records, p: seq<Key>, n: nat)
    requires IsWalk(insns, p) && n < |p|
    ensures IsWalk(insns, p[..n + 1])
  {
    var q := p[..n + 1];
    forall i | 0 <= i < |q| - 1
      ensures q[i] in insns && q[i + 1] in insns[q[i]].successors
    {
      assert p[i] in insns && p[i + 1] in insns[p[i]].successors;
    }
  }

  /** Folding touches only successors. */
  lemma FoldKeeps(insns: Records, f: Records, k: Key)
    requires FoldedFrom(insns, f) && k in insns
    ensures f[k] == insns[k].(successors := f[k].successors)
    ensures forall s :: s in f[k].successors ==> s in insns[k].successors
  {
    assert FoldOf(insns, k, f[k]);
    if p :| Decides(insns, p, k) {
      assert f[k] == FoldTo(insns, p, k);
    }
  }

  lemma UndecidedStep(insns: Records, f: Records, prev: Option<Key>, k: Key, next: Key)
    requires FoldedFrom(insns, f) && k in insns && (prev.Some? ==> prev.value in insns)
    requires forall p :: !Decides(insns, p, k)
    ensures Follows(insns, prev, k, next) <==> Follows(f, prev, k, next)
  {
    assert FoldOf(insns, k, f[k]);
    if prev.Some? {
      FoldKeeps(insns, f, prev.value);
    }
  }

  /** A two-way branch whose Z is known goes one way. */
  lemma OneWay(load: Record<Key>, r: Record<Key>, next: Key)
    requires IsLoadImm(load.insn) && IsZBranch(r)
    ensures Goes(Some(load), r, next) <==> next == Live(r, LoadZ(load))
  {
    LoadsZeroIs(load.insn, load.width);
  }

  lemma EitherWay(r: Record<Key>, next: Key)
    requires IsZBranch(r) && Live(r, true) == Live(r, false)
    ensures Goes(None, r, next) <==> next == Live(r, true)
  {
  }

  lemma Unconditional(prev: Option<Record<Key>>, r: Record<Key>, only: Key, next: Key)
    requires r.successors == [only]
    ensures Goes(prev, r, next) <==> next == only
  {
  }

  lemma DecidedStep(insns: Records, f: Records, prev: Option<Key>, p: Key, k: Key, next: Key)
    requires FoldedFrom(insns, f) && Decides(insns, p, k)
    requires prev.Some? ==> prev.value in insns && k in insns[prev.value].successors
    requires prev.None? ==> Live(insns[k], true) == Live(insns[k], false)
    ensures Follows(insns, prev, k, next) <==> Follows(f, prev, k, next)
  {
    assert FoldOf(insns, k, f[k]);
    Unconditional(At(f, prev), f[k], Live(insns[k], LoadZ(insns[p])), next);
    if prev.Some? {
      assert prev.value == p;
      OneWay(insns[p], insns[k], next);
    } else {
      EitherWay(insns[k], next);
    }
  }

  /** Away from a folded entry, one step of the graph is one step of the folded graph. */
  lemma StepAgrees(insns: Records, f: Records, prev: Option<Key>, k: Key, next: Key)
    requires FoldedFrom(insns, f) && k in insns
    requires prev.Some? ==> prev.value in insns && k in insns[prev.value].successors
    requires prev.None? ==> forall p :: Decides(insns, p, k) ==> Live(insns[k], true) == Live(insns[k], false)
    ensures Follows(insns, prev, k, next) <==> Follows(f, prev, k, next)
  {
    if p :| Decides(insns, p, k) {
      DecidedStep(insns, f, prev, p, k, next);
    } else {
      UndecidedStep(insns, f, prev, k, next);
    }
  }

  /** The entry is a branch that the fold decides although it can be entered with any Z. */
  ghost predicate EntryFolded(insns: Records, entry: Key) {
    exists p :: Decides(insns, p, entry) && Live(insns[entry], true) != Live(insns[entry], false)
  }

  /** The key before position `i` of a run. */
  function Before(p: seq<Key>, i: nat): Option<Key>
    requires i < |p|
  {
    if i == 0 then None else Some(p[i - 1])
  }

  lemma StepAtEntry(insns: Records, f: Records, entry: Key, p: seq<Key>, i: nat)
    requires FoldedFrom(insns, f) && !EntryFolded(insns, entry)
    requires i < |p| - 1 && p[0] == entry && p[i] in insns
    requires i > 0 ==> p[i - 1] in insns && p[i] in insns[p[i - 1]].successors
    ensures Follows(insns, Before(p, i), p[i], p[i + 1]) <==> Follows(f, Before(p, i), p[i], p[i + 1])
  {
    StepAgrees(insns, f, Before(p, i), p[i], p[i + 1]);
  }

  lemma FoldedRuns(insns: Records, f: Records, entry: Key, p: seq<Key>)
    requires FoldedFrom(insns, f) && !EntryFolded(insns, entry)
    ensures IsRun(insns, entry, p) <==> IsRun(f, entry, p)
  {
    if IsRun(insns, entry, p) {
      forall i | 0 <= i < |p| - 1
        ensures Follows(f, Before(p, i), p[i], p[i + 1])
      {
        assert Follows(insns, Before(p, i), p[i], p[i + 1]);
        if i > 0 { assert Follows(insns, Before(p, i - 1), p[i - 1], p[i - 1 + 1]); }
        StepAtEntry(insns, f, entry, p, i);
      }
    }
    if IsRun(f, entry, p) {
      forall i | 0 <= i < |p| - 1
        ensures Follows(insns, Before(p, i), p[i], p[i + 1])
      {
        assert Follows(f, Before(p, i), p[i], p[i + 1]);
        if i > 0 {
          assert Follows(f, Before(p, i - 1), p[i - 1], p[i - 1 + 1]);
          FoldKeeps(insns, f, p[i - 1]);
        }
        StepAtEntry(insns, f, entry, p, i);
      }
    }
  }

  lemma RunIsWalk(insns: Records, entry: Key, p: seq<Key>, n: nat)
    requires IsRun(insns, entry, p) && n < |p| && p[n] in insns
    ensures ReachedIn(insns, entry, p[n])
  {
    forall i | 0 <= i < |p| - 1
      ensures p[i] in insns && p[i + 1] in insns[p[i]].successors
    {
      assert Follows(insns, Before(p, i), p[i], p[i + 1]);
    }
    WalkPrefix(insns, p, n);
    var q := p[..n + 1];
    assert q[|q| - 1] == p[n];
  }

  lemma PrunedRuns(f: Records, entry: Key, r: Records, p: seq<Key>)
    requires PrunedFrom(f, entry, r)
    ensures IsRun(f, entry, p) <==> IsRun(r, entry, p)
  {
    if IsRun(f, entry, p) {
      forall i | 0 <= i < |p| - 1
        ensures p[i] in r
      {
        RunIsWalk(f, entry, p, i);
      }
      SameSteps(f, r, p);
    }
    if IsRun(r, entry, p) {
      SameSteps(f, r, p);
    }
  }

  lemma SameSteps(f: Records, r: Records, p: seq<Key>)
    requires forall k :: k in r ==> k in f && r[k] == f[k]
    requires forall i :: 0 <= i < |p| - 1 ==> p[i] in r
    ensures forall i :: 0 <= i < |p| - 1 ==>
              (Follows(f, Before(p, i), p[i], p[i + 1]) <==> Follows(r, Before(p, i), p[i], p[i + 1]))
  {
    forall i | 0 <= i < |p| - 1
      ensures Follows(f, Before(p, i), p[i], p[i + 1]) <==> Follows(r, Before(p, i), p[i], p[i + 1])
    {
      assert i > 0 ==> p[i - 1] in r;
      assert At(f, Before(p, i)) == At(r, Before(p, i));
    }
  }

  lemma FirstStep(insns: Records, entry: Key, next: Key)
    ensures IsRun(insns, entry, [entry, next]) <==> entry in insns && next in insns[entry].successors
  {
    var p := [entry, next];
    assert entry in insns ==> (Follows(insns, Before(p, 0), p[0], p[0 + 1]) <==> next in insns[entry].successors);
  }

  /** A folded entry loses the execution that enters it with the other Z. */
  lemma FoldedEntryLoses(insns: Records, f: Records, r: Records, entry: Key, load: Key)
    requires FoldedFrom(insns, f) && PrunedFrom(f, entry, r)
    requires Decides(insns, load, entry) && Live(insns[entry], true) != Live(insns[entry], false)
    ensures IsRun(insns, entry, [entry, Dead(insns[entry], LoadZ(insns[load]))])
    ensures !IsRun(r, entry, [entry, Dead(insns[entry], LoadZ(insns[load]))])
  {
    var dead := Dead(insns[entry], LoadZ(insns[load]));
    FirstStep(insns, entry, dead);
    FirstStep(r, entry, dead);
    assert FoldOf(insns, entry, f[entry]);
    assert f[entry].successors == [Live(insns[entry], LoadZ(insns[load]))];
  }

  /** Folding all decided branches and dropping what is unreachable keeps the set of executions
      exactly when the entry itself is not a folded branch. */
  lemma ExecutionsKept(insns: Records, f: Records, r: Records, entry: Key)
    requires FoldedFrom(insns, f) && PrunedFrom(f, entry, r)
    ensures (forall p :: IsRun(insns, entry, p) <==> IsRun(r, entry, p)) <==> !EntryFolded(insns, entry)
  {
    if EntryFolded(insns, entry) {
      var load :| Decides(insns, load, entry) && Live(insns[entry], true) != Live(insns[entry], false);
      FoldedEntryLoses(insns, f, r, entry, load);
    } else {
      forall p
        ensures IsRun(insns, entry, p) <==> IsRun(r, entry, p)
      {
        FoldedRuns(insns, f, entry, p);
        PrunedRuns(f, entry, r, p);
      }
    }
  }

  /** Every instruction that survives is reached inside the surviving graph. */
  lemma {:induction false} SurvivorsReached(f: Records, entry: Key, r: Records, k: Key)
    requires PrunedFrom(f, entry, r) && k in r
    ensures ReachedIn(r, entry, k)
  {
    var p :| IsWalk(f, p) && p[0] == entry && p[|p| - 1] == k && k in f;
    forall i | 0 <= i < |p| - 1
      ensures p[i] in r && p[i + 1] in r[p[i]].successors
    {
      assert p[i] in f && p[i + 1] in f[p[i]].successors;
      WalkPrefix(f, p, i);
      var q := p[..i + 1];
      assert q[|q| - 1] == p[i];
      assert ReachedIn(f, entry, p[i]);
    }
    assert IsWalk(r, p);
  }

  // ----- The pass -----

  type Preds = map<Key, set<Key>>

  ghost predicate IsEdge(insns: Records, k: Key, s: Key) {
    k in insns && s in insns[k].successors
  }

  ghost predicate PredsOf(insns: Records, done: seq<Key>, preds: Preds) {
    forall s, k :: IsPred(preds, s, k) <==> k in done && IsEdge(insns, k, s)
  }

  predicate IsPred(preds: Preds, s: Key, k: Key) {
    s in preds && k in preds[s]
  }

  /** `r` is `preds` with `k` added as a predecessor of the keys in `ss`. */
  ghost predicate Adds(preds: Preds, k: Key, ss: seq<Key>, r: Preds) {
    forall s, q :: IsPred(r, s, q) <==> IsPred(preds, s, q) || (q == k && s in ss)
  }

  lemma AddsNext(preds: Preds, k: Key, ss: seq<Key>, r: Preds, s: Key)
    requires Adds(preds, k, ss, r)
    ensures Adds(preds, k, ss + [s], r[s := (if s in r then r[s] else {}) + {k}])
  {
    var r' := r[s := (if s in r then r[s] else {}) + {k}];
    forall t, q
      ensures IsPred(r', t, q) <==> IsPred(preds, t, q) || (q == k && t in ss + [s])
    {
      assert IsPred(r', t, q) <==> IsPred(r, t, q) || (t == s && q == k);
    }
  }

  /** Adds `k` as a predecessor of each of its successors. */
  method AddPreds(preds: Preds, k: Key, ss: seq<Key>) returns (r: Preds)
    ensures Adds(preds, k, ss, r)
  {
    r := preds;
    var i := 0;
    while i < |ss|
      invariant 0 <= i <= |ss| && Adds(preds, k, ss[..i], r)
    {
      var s := ss[i];
      assert ss[..i + 1] == ss[..i] + [s];
      AddsNext(preds, k, ss[..i], r, s);
      r := r[s := (if s in r then r[s] else {}) + {k}];
      i := i + 1;
    }
    assert ss[..|ss|] == ss;
  }

  method CollectPreds(g: Graph) returns (preds: Preds)
    requires Lists(g.order, g.insns)
    ensures PredsOf(g.insns, g.order, preds)
  {
    preds := map[];
    var i := 0;
    while i < |g.order|
      invariant 0 <= i <= |g.order| && PredsOf(g.insns, g.order[..i], preds)
    {
      var k := g.order[i];
      assert g.order[..i + 1] == g.order[..i] + [k];
      var more := AddPreds(preds, k, g.insns[k].successors);
      forall s, q
        ensures IsPred(more, s, q) <==> q in g.order[..i + 1] && IsEdge(g.insns, q, s)
      {
        assert IsPred(more, s, q) <==> IsPred(preds, s, q) || (q == k && s in g.insns[k].successors);
      }
      preds := more;
      i := i + 1;
    }
    assert g.order[..|g.order|] == g.order;
  }

  lemma Singleton(s: set<Key>, p: Key)
    requires p in s
    ensures |s| == 1 <==> forall q :: q in s ==> q == p
  {
    assert s == {p} + (s - {p});
    assert |s| == 1 + |s - {p}|;
    if |s| != 1 {
      var q :| q in s - {p};
      assert q in s;
    }
  }

  /** The load that decides the branch at `k`, if one does. */
  method Decider(g: Graph, preds: Preds, k: Key) returns (p: Option<Key>)
    requires Lists(g.order, g.insns) && PredsOf(g.insns, g.order, preds) && k in g.insns
    ensures p.Some? ==> Decides(g.insns, p.value, k)
    ensures p.None? ==> forall q :: !Decides(g.insns, q, k)
  {
    var mine := if k in preds then preds[k] else {};
    assert forall q :: q in mine <==> IsPred(preds, k, q);
    if IsZBranch(g.insns[k]) && |mine| == 1 {
      var q :| q in mine;
      OnlyMember(g, k, mine, q);
      if IsLoadImm(g.insns[q].insn) && g.insns[q].successors == [k] {
        return Some(q);
      }
      assert IsEdge(g.insns, q, k);
      return None;
    }
    forall q | Decides(g.insns, q, k)
      ensures false
    {
      OnlyMember(g, k, mine, q);
    }
    return None;
  }

  lemma OnlyMember(g: Graph, k: Key, mine: set<Key>, p: Key)
    requires forall q :: q in mine <==> IsEdge(g.insns, q, k)
    requires IsEdge(g.insns, p, k)
    ensures p in mine && (|mine| == 1 <==> OnlyPred(g.insns, p, k))
  {
    Singleton(mine, p);
    assert forall q :: q in g.insns && k in g.insns[q].successors ==> IsEdge(g.insns, q, k);
  }

  /** Exactly the branches among `done` are folded. */
  ghost predicate Folding(insns: Records, done: seq<Key>, f: Records) {
    && f.Keys == insns.Keys
    && (forall k :: k in insns && k in done ==> FoldOf(insns, k, f[k]))
    && (forall k :: k in insns && k !in done ==> f[k] == insns[k])
  }

  lemma FoldNext(insns: Records, done: seq<Key>, f: Records, k: Key, r: Record<Key>)
    requires Folding(insns, done, f) && k in insns && FoldOf(insns, k, r)
    ensures Folding(insns, done + [k], f[k := r])
  {
  }

  method FoldBranches(g: Graph) returns (f: Records)
    requires Lists(g.order, g.insns)
    ensures FoldedFrom(g.insns, f)
  {
    var preds := CollectPreds(g);
    f := g.insns;
    var i := 0;
    while i < |g.order|
      invariant 0 <= i <= |g.order| && Folding(g.insns, g.order[..i], f)
    {
      var k := g.order[i];
      assert g.order[..i + 1] == g.order[..i] + [k];
      var p := Decider(g, preds, k);
      var r := if p.Some? then FoldTo(g.insns, p.value, k) else g.insns[k];
      FoldNext(g.insns, g.order[..i], f, k, r);
      f := f[k := r];
      i := i + 1;
    }
    assert g.order[..|g.order|] == g.order;
  }

  // ----- The reachability prune -----

  lemma ReachedNext(f: Records, entry: Key, a: Key, b: Key)
    requires ReachedIn(f, entry, a) && b in f[a].successors && b in f
    ensures ReachedIn(f, entry, b)
  {
    var p :| IsWalk(f, p) && p[0] == entry && p[|p| - 1] == a && a in f;
    var q := p + [b];
    forall i | 0 <= i < |q| - 1
      ensures q[i] in f && q[i + 1] in f[q[i]].successors
    {
      assert i < |p| - 1 ==> p[i] in f && p[i + 1] in f[p[i]].successors;
    }
    assert IsWalk(f, q) && q[|q| - 1] == b;
  }

  /** Every successor of a marked key that lies in the graph is marked or waiting. */
  ghost predicate Closed(f: Records, marked: set<Key>, work: seq<Key>) {
    forall k, s :: k in marked && IsEdge(f, k, s) && s in f ==> s in marked || s in work
  }

  /** What waits is reached if it lies in the graph. */
  ghost predicate Grounded(f: Records, entry: Key, ks: seq<Key>) {
    forall k :: k in ks && k in f ==> ReachedIn(f, entry, k)
  }

  lemma {:induction false} ClosedHolds(f: Records, entry: Key, marked: set<Key>, p: seq<Key>)
    requires Closed(f, marked, []) && (entry in f ==> entry in marked)
    requires IsWalk(f, p) && p[0] == entry && p[|p| - 1] in f
    ensures p[|p| - 1] in marked
    decreases |p|
  {
    if |p| > 1 {
      WalkPrefix(f, p, |p| - 2);
      var q := p[..|p| - 2 + 1];
      var a := q[|q| - 1];
      assert p[|p| - 2] in f && p[|p| - 2 + 1] in f[p[|p| - 2]].successors;
      ClosedHolds(f, entry, marked, q);
      assert IsEdge(f, a, p[|p| - 1]);
    }
  }

  lemma MarkNext(f: Records, entry: Key, marked: set<Key>, rest: seq<Key>, cur: Key)
    requires Closed(f, marked, rest + [cur]) && Grounded(f, entry, rest + [cur]) && cur in f
    ensures Closed(f, marked + {cur}, rest + f[cur].successors)
    ensures Grounded(f, entry, rest + f[cur].successors)
  {
    assert cur in rest + [cur];
    forall k | k in rest + f[cur].successors && k in f
      ensures ReachedIn(f, entry, k)
    {
      if k in rest {
        assert k in rest + [cur];
      } else {
        ReachedNext(f, entry, cur, k);
      }
    }
  }

  method MarkReachable(f: Records, entry: Key) returns (marked: set<Key>)
    ensures forall k :: k in marked <==> ReachedIn(f, entry, k)
  {
    marked := {};
    var work := [entry];
    assert entry in f ==> ReachedIn(f, entry, entry) by {
      assert IsWalk(f, [entry]);
    }
    while work != []
      invariant marked <= f.Keys && Closed(f, marked, work) && Grounded(f, entry, work)
      invariant entry in f ==> entry in marked || entry in work
      invariant forall k :: k in marked ==> ReachedIn(f, entry, k)
      decreases f.Keys - marked, |work|
    {
      var cur, rest := Last(work), Rest(work);
      LastRest(work);
      if cur in marked || cur !in f {
        work := rest;
      } else {
        MarkNext(f, entry, marked, rest, cur);
        assert ReachedIn(f, entry, cur);
        marked, work := marked + {cur}, rest + f[cur].successors;
      }
    }
    forall k | ReachedIn(f, entry, k)
      ensures k in marked
    {
      var p :| IsWalk(f, p) && p[0] == entry && p[|p| - 1] == k && k in f;
      ClosedHolds(f, entry, marked, p);
    }
  }

  ghost predicate FoldsTo(g: Graph, r: Graph) {
    && r.entry == g.entry && Lists(r.order, r.insns)
    && exists f :: FoldedFrom(g.insns, f) && PrunedFrom(f, g.entry, r.insns)
  }

  /** The listed keys that are marked, in order, with their records. */
  method Keep(f: Records, order: seq<Key>, marked: set<Key>) returns (order': seq<Key>, insns: Records)
    requires Lists(order, f)
    ensures Lists(order', insns)
    ensures forall k :: k in insns <==> k in f && k in marked
    ensures forall k :: k in insns ==> insns[k] == f[k]
  {
    order', insns := [], map[];
    var i := 0;
    while i < |order|
      invariant 0 <= i <= |order| && Lists(order', insns)
      invariant forall k :: k in insns <==> k in order[..i] && k in marked
      invariant forall k :: k in insns ==> k in f && insns[k] == f[k]
    {
      var k := order[i];
      assert order[..i + 1] == order[..i] + [k];
      if k in marked {
        ListsGrow(order', insns, k, f[k]);
        order', insns := order' + [k], insns[k := f[k]];
      }
      i := i + 1;
    }
    assert order[..|order|] == order;
  }

  method Fold(g: Graph) returns (r: Graph)
    requires Lists(g.order, g.insns)
    ensures FoldsTo(g, r)
  {
    var f := FoldBranches(g);
    var marked := MarkReachable(f, g.entry);
    var order, insns := Keep(f, g.order, marked);
    assert PrunedFrom(f, g.entry, insns);
    r := Graph(g.entry, order, insns);
  }

  // ----- A loop back to a branch at the entry -----

  const LOAD := Key(0x8000, WIDE, [])
  const BRANCH := Key(0x8003, WIDE, [])
  const OUT := Key(0x8005, WIDE, [])

  /** LDA #0; entry: BEQ back to the load; RTS. The load decides the branch although the first time
      round the caller's Z does. */
  function EntryLoop(): Records {
    map[LOAD := Record(Insn(LDA, IMM, 0, 3), WIDE, [BRANCH], None),
        BRANCH := Record(Insn(BEQ, OtherMode, 0x8000, 2), WIDE, [OUT, LOAD], None),
        OUT := Record(Insn(RTS, OtherMode, 0, 1), WIDE, [], None)]
  }

  lemma EntryLoopDecided()
    ensures Decides(EntryLoop(), LOAD, BRANCH)
    ensures Live(EntryLoop()[BRANCH], true) == LOAD && Live(EntryLoop()[BRANCH], false) == OUT
    ensures LoadZ(EntryLoop()[LOAD])
  {
    assert EntryLoop()[LOAD].successors == [BRANCH];
    assert OnlyPred(EntryLoop(), LOAD, BRANCH);
  }

  /** Folding drops the return of this function. */
  lemma EntryLoopLosesReturn(insns: Records, f: Records, r: Records)
    requires insns == EntryLoop() && FoldedFrom(insns, f) && PrunedFrom(f, BRANCH, r)
    ensures IsRun(insns, BRANCH, [BRANCH, OUT]) && !IsRun(r, BRANCH, [BRANCH, OUT])
  {
    EntryLoopDecided();
    FoldedEntryLoses(insns, f, r, BRANCH, LOAD);
  }
}
