/** A function whose PLP is reached with two saved widths, so that its code falls outside all blocks. */
module PlpJoin {
  import opened Machine
  import opened Decoder
  import opened Dedupe
  import opened DecodedMerge
  import opened ConstZFold
  import opened ExitSoundness
  import opened Listings
  import opened ListedStages
  import opened Lowering
  import Graphs
  import Blocks

  /** 8000 BCC $8007; 8002 SEP #$30; 8004 PHP; 8005 BRA $800A;
      8007 PHP; 8008 SEP #$30; 800A PLP; 800B RTS */
  function Listing(pc: nat): Option<Insn> {
    if pc == 0x8000 then Some(Insn(BCC, OtherMode, 0x8007, 2))
    else if pc == 0x8002 || pc == 0x8008 then Some(Insn(SEP, IMM, 0x30, 2))
    else if pc == 0x8004 || pc == 0x8007 then Some(Insn(PHP, OtherMode, 0, 1))
    else if pc == 0x8005 then Some(Insn(BRA, OtherMode, 0x800A, 2))
    else if pc == 0x800A then Some(Insn(PLP, OtherMode, 0, 1))
    else if pc == 0x800B then Some(Insn(RTS, OtherMode, 0, 1))
    else None
  }

  /** Entered with both widths 16 bits. */
  function Function(): Env {
    Env(0, 0x8000, WIDE, None, None, 0x400000, (bank: nat, pc: nat, w: Width) => Listing(pc), map[], map[], map[],
        (start: nat, site: Site, insn: Insn) => None, 12000)
  }

  ghost predicate IsJoin(env: Env) {
    && IsPlain(env) && env.bank == 0 && env.start == 0x8000 && env.width == WIDE && env.end == None
    && forall pc, w :: env.fetch(0, pc, w) == Listing(pc)
  }

  lemma FunctionIsJoin()
    ensures IsJoin(Function())
  {
  }

  /** The instructions of the function, the PLP and the RTS once for each way to them. */
  datatype Spot =
    | Branch | NarrowHere | SaveNarrow | JumpOver | SaveWide | NarrowNext | PullNarrow | PullWide | OutNarrow | OutWide

  function At(s: Spot): Key {
    match s
    case Branch => Key(0x8000, WIDE, [])
    case NarrowHere => Key(0x8002, WIDE, [])
    case SaveNarrow => Key(0x8004, NARROW, [])
    case JumpOver => Key(0x8005, NARROW, [NARROW])
    case SaveWide => Key(0x8007, WIDE, [])
    case NarrowNext => Key(0x8008, WIDE, [WIDE])
    case PullNarrow => Key(0x800A, NARROW, [NARROW])
    case PullWide => Key(0x800A, NARROW, [WIDE])
    case OutNarrow => Key(0x800B, NARROW, [])
    case OutWide => Key(0x800B, WIDE, [])
  }

  function InsnOf(s: Spot): Insn {
    match s
    case Branch => Insn(BCC, OtherMode, 0x8007, 2)
    case NarrowHere => Insn(SEP, IMM, 0x30, 2)
    case NarrowNext => Insn(SEP, IMM, 0x30, 2)
    case SaveNarrow => Insn(PHP, OtherMode, 0, 1)
    case SaveWide => Insn(PHP, OtherMode, 0, 1)
    case JumpOver => Insn(BRA, OtherMode, 0x800A, 2)
    case PullNarrow => Insn(PLP, OtherMode, 0, 1)
    case PullWide => Insn(PLP, OtherMode, 0, 1)
    case OutNarrow => Insn(RTS, OtherMode, 0, 1)
    case OutWide => Insn(RTS, OtherMode, 0, 1)
  }

  datatype Way = Way(to: Spot, kind: Kind)

  function Ways(s: Spot): seq<Way> {
    match s
    case Branch => [Way(NarrowHere, Fall), Way(SaveWide, Jump)]
    case NarrowHere => [Way(SaveNarrow, Fall)]
    case SaveNarrow => [Way(JumpOver, Fall)]
    case JumpOver => [Way(PullNarrow, Jump)]
    case SaveWide => [Way(NarrowNext, Fall)]
    case NarrowNext => [Way(PullWide, Fall)]
    case PullNarrow => [Way(OutNarrow, Fall)]
    case PullWide => [Way(OutWide, Fall)]
    case OutNarrow => []
    case OutWide => []
  }

  function AsEdges(ws: seq<Way>): (r: seq<Edge>)
    ensures |r| == |ws| && forall i :: 0 <= i < |ws| ==> r[i] == Edge(At(ws[i].to), ws[i].kind)
  {
    seq(|ws|, i requires 0 <= i < |ws| => Edge(At(ws[i].to), ws[i].kind))
  }

  const ALL := [At(Branch), At(NarrowHere), At(SaveNarrow), At(JumpOver), At(SaveWide), At(NarrowNext),
                At(PullNarrow), At(PullWide), At(OutNarrow), At(OutWide)]

  lemma Listed(s: Spot)
    ensures At(s) in ALL
  {
    assert ALL[0] == At(Branch) && ALL[1] == At(NarrowHere) && ALL[2] == At(SaveNarrow) && ALL[3] == At(JumpOver);
    assert ALL[4] == At(SaveWide) && ALL[5] == At(NarrowNext) && ALL[6] == At(PullNarrow) && ALL[7] == At(PullWide);
    assert ALL[8] == At(OutNarrow) && ALL[9] == At(OutWide);
  }

  lemma Unlisted(k: Key) returns (s: Spot)
    requires k in ALL
    ensures At(s) == k
  {
    var i :| 0 <= i < |ALL| && ALL[i] == k;
    s := if i == 0 then Branch else if i == 1 then NarrowHere
         else if i == 2 then SaveNarrow else if i == 3 then JumpOver
         else if i == 4 then SaveWide else if i == 5 then NarrowNext else if i == 6 then PullNarrow
         else if i == 7 then PullWide else if i == 8 then OutNarrow else OutWide;
  }

  lemma Held(env: Env, s: Spot)
    requires IsJoin(env)
    ensures Holds(env, At(s), InsnOf(s)) && InsnOf(s).mnem !in {BEQ, BNE} && Pc16(At(s)) >= 0x8000
  {
  }

  lemma SepEdges(env: Env, k: Key, insn: Insn)
    requires IsJoin(env) && Holds(env, k, insn) && insn == Insn(SEP, IMM, 0x30, 2)
    ensures EdgesAt(env, k) == [Edge(KeyAt(env, Next(k, insn), NARROW, k.pstack), Fall)]
  {
    FallEdges(env, k, insn, NARROW, k.pstack);
  }

  lemma PhpEdges(env: Env, k: Key, insn: Insn)
    requires IsJoin(env) && Holds(env, k, insn) && insn == Insn(PHP, OtherMode, 0, 1) && k.pstack == []
    ensures EdgesAt(env, k) == [Edge(KeyAt(env, Next(k, insn), k.width, [k.width]), Fall)]
  {
    assert [] + [k.width] == [k.width];
    FallEdges(env, k, insn, k.width, [k.width]);
  }

  lemma PlpEdges(env: Env, k: Key, insn: Insn, w: Width)
    requires IsJoin(env) && Holds(env, k, insn) && insn == Insn(PLP, OtherMode, 0, 1) && k.pstack == [w]
    ensures EdgesAt(env, k) == [Edge(KeyAt(env, Next(k, insn), w, []), Fall)]
  {
    assert [w][..0] == [];
    FallEdges(env, k, insn, w, []);
  }

  /** Where each kind of instruction leads; all of them stay in bank 0. */
  lemma SepLeads(env: Env, s: Spot, to: Spot)
    requires IsJoin(env) && InsnOf(s) == Insn(SEP, IMM, 0x30, 2)
    requires At(to) == Key(At(s).pc + 2, NARROW, At(s).pstack)
    ensures EdgesAt(env, At(s)) == [Edge(At(to), Fall)]
  {
    Held(env, s);
    SepEdges(env, At(s), InsnOf(s));
    SmallPc(s);
    NextIs(env, At(s), InsnOf(s), At(s).pc + 2, NARROW, At(s).pstack);
  }

  lemma PhpLeads(env: Env, s: Spot, to: Spot)
    requires IsJoin(env) && InsnOf(s) == Insn(PHP, OtherMode, 0, 1) && At(s).pstack == []
    requires At(to) == Key(At(s).pc + 1, At(s).width, [At(s).width])
    ensures EdgesAt(env, At(s)) == [Edge(At(to), Fall)]
  {
    Held(env, s);
    PhpEdges(env, At(s), InsnOf(s));
    SmallPc(s);
    NextIs(env, At(s), InsnOf(s), At(s).pc + 1, At(s).width, [At(s).width]);
  }

  lemma PlpLeads(env: Env, s: Spot, to: Spot, w: Width)
    requires IsJoin(env) && InsnOf(s) == Insn(PLP, OtherMode, 0, 1) && At(s).pstack == [w]
    requires At(to) == Key(At(s).pc + 1, w, [])
    ensures EdgesAt(env, At(s)) == [Edge(At(to), Fall)]
  {
    Held(env, s);
    PlpEdges(env, At(s), InsnOf(s), w);
    SmallPc(s);
    NextIs(env, At(s), InsnOf(s), At(s).pc + 1, w, []);
  }

  lemma SmallPc(s: Spot)
    ensures 0x8000 <= At(s).pc <= 0x800B
  {
  }

  lemma BranchLeads(env: Env)
    requires IsJoin(env)
    ensures EdgesAt(env, At(Branch)) == [Edge(At(NarrowHere), Fall), Edge(At(SaveWide), Jump)]
  {
    Held(env, Branch);
    BranchEdges(env, At(Branch), InsnOf(Branch));
  }

  lemma JumpLeads(env: Env)
    requires IsJoin(env)
    ensures EdgesAt(env, At(JumpOver)) == [Edge(At(PullNarrow), Jump)]
  {
    Held(env, JumpOver);
    BraEdges(env, At(JumpOver), InsnOf(JumpOver));
  }

  lemma OutLeads(env: Env, s: Spot)
    requires IsJoin(env) && InsnOf(s) == Insn(RTS, OtherMode, 0, 1)
    ensures EdgesAt(env, At(s)) == []
  {
    Held(env, s);
    ReturnEdges(env, At(s), InsnOf(s));
  }

  lemma Leads(env: Env, s: Spot)
    requires IsJoin(env)
    ensures EdgesAt(env, At(s)) == AsEdges(Ways(s))
  {
    match s
    case Branch => BranchLeads(env);
    case NarrowHere => SepLeads(env, NarrowHere, SaveNarrow);
    case NarrowNext => SepLeads(env, NarrowNext, PullWide);
    case SaveNarrow => PhpLeads(env, SaveNarrow, JumpOver);
    case SaveWide => PhpLeads(env, SaveWide, NarrowNext);
    case PullNarrow => PlpLeads(env, PullNarrow, OutNarrow, NARROW);
    case PullWide => PlpLeads(env, PullWide, OutWide, WIDE);
    case JumpOver => JumpLeads(env);
    case OutNarrow => OutLeads(env, OutNarrow);
    case OutWide => OutLeads(env, OutWide);
  }

  lemma Confined(env: Env)
    requires IsJoin(env)
    ensures Confines(env, ALL)
  {
    SeedAdmitted(env);
    Listed(Branch);
    forall k | k in ALL
      ensures InsnAt(env, k).Some?
    {
      var s := Unlisted(k);
      Held(env, s);
    }
    forall k, e | k in ALL && e in EdgesAt(env, k)
      ensures e.to in ALL
    {
      var s := Unlisted(k);
      Leads(env, s);
      var i :| 0 <= i < |EdgesAt(env, k)| && EdgesAt(env, k)[i] == e;
      Listed(Ways(s)[i].to);
    }
  }

  /** Decoding finds only these keys, each with the edges above. */
  lemma DecodedSpot(env: Env, raw: Graph, k: Key) returns (s: Spot)
    requires IsJoin(env) && DecodesTo(env, Decoded(raw.order, raw.insns)) && k in raw.insns
    ensures At(s) == k && raw.insns[k] == Record(InsnOf(s), k.width, Targets(AsEdges(Ways(s))), None)
  {
    Confined(env);
    ReachedConfined(env, ALL, k);
    s := Unlisted(k);
    Held(env, s);
    Leads(env, s);
    DecodedAs(env, raw.order, raw.insns, k, InsnOf(s));
  }

  lemma Unfoldable(env: Env, raw: Graph)
    requires IsJoin(env) && DecodesTo(env, Decoded(raw.order, raw.insns))
    ensures NoZBranch(raw)
  {
    forall k | k in raw.insns
      ensures raw.insns[k].insn.mnem !in {BEQ, BNE}
    {
      var s := DecodedSpot(env, raw, k);
      Held(env, s);
    }
  }

  // ----- Both ways through the function -----

  /** The spot `s`, reached from `prev`, is inside every form of the function. */
  ghost predicate Visited(raw: Graph, folded: Graph, prev: Option<Spot>, s: Spot) {
    Inside(raw, folded, if prev.Some? then Some(At(prev.value)) else None, At(s))
  }

  lemma Onward(env: Env, raw: Graph, merged: Graph, folded: Graph, prev: Option<Spot>, s: Spot, i: nat)
    requires IsJoin(env) && Stages(env, raw, merged, folded) && Visited(raw, folded, prev, s) && i < |Ways(s)|
    ensures Visited(raw, folded, Some(s), Ways(s)[i].to)
  {
    Unfoldable(env, raw);
    Held(env, s);
    Held(env, Ways(s)[i].to);
    Leads(env, s);
    var e := AsEdges(Ways(s))[i];
    StepInside(env, raw, merged, folded, if prev.Some? then Some(At(prev.value)) else None, At(s), InsnOf(s), e);
  }

  lemma StartKey(env: Env)
    requires env.bank == 0 && env.start == 0x8000 && env.width == WIDE
    ensures KeyAt(env, env.start, env.width, []) == At(Branch)
  {
  }

  /** The entry is visited, and with a spot all it leads to. */
  ghost predicate Closed(raw: Graph, folded: Graph) {
    && Visited(raw, folded, None, Branch)
    && forall prev, s, i :: Goes(raw, folded, prev, s, i)
  }

  ghost predicate Goes(raw: Graph, folded: Graph, prev: Option<Spot>, s: Spot, i: nat) {
    Visited(raw, folded, prev, s) && i < |Ways(s)| ==> Visited(raw, folded, Some(s), Ways(s)[i].to)
  }

  lemma Begins(env: Env, raw: Graph, merged: Graph, folded: Graph)
    requires IsPlain(env) && env.bank == 0 && env.start == 0x8000 && env.width == WIDE
    requires Stages(env, raw, merged, folded)
    ensures Visited(raw, folded, None, Branch)
  {
    StartKey(env);
    StartInside(env, raw, merged, folded);
  }

  lemma IsClosed(env: Env, raw: Graph, merged: Graph, folded: Graph)
    requires IsJoin(env) && Stages(env, raw, merged, folded)
    ensures Closed(raw, folded)
  {
    Begins(env, raw, merged, folded);
    forall prev, s, i
      ensures Goes(raw, folded, prev, s, i)
    {
      GoesOn(env, raw, merged, folded, prev, s, i);
    }
  }

  lemma GoesOn(env: Env, raw: Graph, merged: Graph, folded: Graph, prev: Option<Spot>, s: Spot, i: nat)
    requires IsJoin(env) && Stages(env, raw, merged, folded)
    ensures Goes(raw, folded, prev, s, i)
  {
    if Visited(raw, folded, prev, s) && i < |Ways(s)| {
      Onward(env, raw, merged, folded, prev, s, i);
    }
  }

  lemma BothWays(raw: Graph, folded: Graph)
    requires Closed(raw, folded)
    ensures Visited(raw, folded, Some(JumpOver), PullNarrow) && Visited(raw, folded, Some(PullNarrow), OutNarrow)
    ensures Visited(raw, folded, Some(NarrowNext), PullWide) && Visited(raw, folded, Some(PullWide), OutWide)
  {
    assert Goes(raw, folded, None, Branch, 0) && Goes(raw, folded, None, Branch, 1);
    assert Goes(raw, folded, Some(Branch), NarrowHere, 0);
    assert Goes(raw, folded, Some(NarrowHere), SaveNarrow, 0);
    assert Goes(raw, folded, Some(SaveNarrow), JumpOver, 0);
    assert Goes(raw, folded, Some(JumpOver), PullNarrow, 0);
    assert Goes(raw, folded, Some(Branch), SaveWide, 0);
    assert Goes(raw, folded, Some(SaveWide), NarrowNext, 0);
    assert Goes(raw, folded, Some(NarrowNext), PullWide, 0);
  }

  // ----- What becomes of the PLP -----

  ghost predicate SpotRecord(raw: Graph, k: Key, s: Spot)
    requires k in raw.insns
  {
    At(s) == k && raw.insns[k] == Record(InsnOf(s), k.width, Targets(AsEdges(Ways(s))), None)
  }

  /** Every key is a spot with its record. */
  ghost predicate Spots(raw: Graph) {
    forall k :: k in raw.insns ==> exists s :: SpotRecord(raw, k, s)
  }

  lemma AreSpots(env: Env, raw: Graph)
    requires IsJoin(env) && DecodesTo(env, Decoded(raw.order, raw.insns))
    ensures Spots(raw)
  {
    forall k | k in raw.insns
      ensures exists s :: SpotRecord(raw, k, s)
    {
      var s := DecodedSpot(env, raw, k);
      assert SpotRecord(raw, k, s);
    }
  }

  lemma SlotDecides(s: Spot, t: Spot)
    requires SlotOf(At(s)) == SlotOf(At(t)) && t in {OutNarrow, OutWide}
    ensures s == t
  {
  }

  lemma OutAlone(raw: Graph, t: Spot)
    requires Spots(raw) && t in {OutNarrow, OutWide}
    ensures AloneInSlot(raw, At(t))
  {
    forall j | j in raw.insns && SlotOf(j) == SlotOf(At(t))
      ensures j == At(t)
    {
      var s :| SpotRecord(raw, j, s);
      SlotDecides(s, t);
    }
  }

  lemma OutFrom(s: Spot, i: nat)
    requires i < |Ways(s)| && At(Ways(s)[i].to) == At(OutNarrow)
    ensures s == PullNarrow
  {
    SlotDecides(Ways(s)[i].to, OutNarrow);
  }

  /** Only the PLP with narrow saved widths leads to the narrow RTS. */
  lemma OutNamed(raw: Graph, k: Key)
    requires Spots(raw) && k in raw.insns && At(OutNarrow) in raw.insns[k].successors
    ensures k == At(PullNarrow)
  {
    var s :| SpotRecord(raw, k, s);
    var i :| 0 <= i < |raw.insns[k].successors| && raw.insns[k].successors[i] == At(OutNarrow);
    OutFrom(s, i);
  }

  lemma SpotIs(s: Spot, t: Spot)
    requires At(s) == At(t)
    ensures s == t
  {
  }

  lemma SuccessorOf(raw: Graph, s: Spot)
    requires Spots(raw) && At(s) in raw.insns && |Ways(s)| == 1
    ensures raw.insns[At(s)].successors == [At(Ways(s)[0].to)] && raw.insns[At(s)].insn == InsnOf(s)
  {
    var t :| SpotRecord(raw, At(s), t);
    SpotIs(t, s);
  }

  lemma SharedSlot()
    ensures SlotOf(At(PullNarrow)) == SlotOf(At(PullWide)) && At(OutNarrow) != At(OutWide)
    ensures SlotOf(At(OutNarrow)) != SlotOf(At(Branch))
  {
  }

  /** Both PLPs and both returns are decoded, and the PLP survives. */
  lemma PullsDecoded(raw: Graph, folded: Graph)
    requires Spots(raw) && Closed(raw, folded)
    ensures At(PullNarrow) in raw.insns && At(PullWide) in raw.insns
    ensures At(OutNarrow) in raw.insns && At(OutNarrow) in raw.insns[At(PullNarrow)].successors
    ensures At(OutWide) in raw.insns && At(OutWide) in raw.insns[At(PullWide)].successors
    ensures Rep(raw, At(PullNarrow)) in folded.insns && Rep(raw, At(OutNarrow)) in folded.insns
  {
    BothWays(raw, folded);
  }

  lemma PullLeadsOut(raw: Graph, merged: Graph, folded: Graph)
    requires Lists(raw.order, raw.insns) && MergedFrom(raw, merged) && FoldsTo(merged, folded) && NoZBranch(raw)
    requires Spots(raw) && Closed(raw, folded)
    ensures Rep(raw, At(PullNarrow)) in folded.insns
    ensures At(OutNarrow) in folded.insns[Rep(raw, At(PullNarrow))].successors
    ensures At(OutWide) in folded.insns[Rep(raw, At(PullNarrow))].successors
  {
    PullsDecoded(raw, folded);
    SharedSlot();
    OutAlone(raw, OutNarrow);
    OutAlone(raw, OutWide);
    BothEdges(raw, merged, folded, At(PullNarrow), At(PullWide), At(OutNarrow), At(OutWide));
  }

  lemma PullSlot(s: Spot)
    requires SlotOf(At(s)) == SlotOf(At(PullNarrow))
    ensures s in {PullNarrow, PullWide} && |Ways(s)| == 1 && InsnOf(s).mnem == PLP
  {
  }

  /** The representative is one of the two PLPs. */
  lemma PullRepresented(raw: Graph, merged: Graph, folded: Graph, p: Key)
    requires Lists(raw.order, raw.insns) && MergedFrom(raw, merged) && FoldsTo(merged, folded) && NoZBranch(raw)
    requires Spots(raw) && p in folded.insns && p in raw.insns && SlotOf(p) == SlotOf(At(PullNarrow))
    ensures folded.insns[p].insn.mnem == PLP && AllDistinct(folded.insns[p].successors)
  {
    var s :| SpotRecord(raw, p, s);
    PullSlot(s);
    SuccessorOf(raw, s);
    RecordKept(raw, merged, folded, p);
    PositionsKept(raw, merged, p, 0);
    MergedDistinct(raw, merged, p);
  }

  lemma OutOnlyFrom(raw: Graph, merged: Graph, folded: Graph, q: Key)
    requires Lists(raw.order, raw.insns) && MergedFrom(raw, merged) && FoldsTo(merged, folded) && NoZBranch(raw)
    requires Spots(raw) && At(OutNarrow) in raw.insns && q in folded.insns &&
             At(OutNarrow) in folded.insns[q].successors
    ensures q == Rep(raw, At(PullNarrow))
  {
    OutAlone(raw, OutNarrow);
    var k := EdgeComesFrom(raw, merged, folded, q, At(OutNarrow));
    OutNamed(raw, k);
  }

  lemma PullSplits(raw: Graph, merged: Graph, folded: Graph, p: Key)
    requires Lists(raw.order, raw.insns) && MergedFrom(raw, merged) && FoldsTo(merged, folded) && NoZBranch(raw)
    requires Spots(raw) && Closed(raw, folded) && p == Rep(raw, At(PullNarrow))
    ensures p in folded.insns && AllDistinct(folded.insns[p].successors) && folded.insns[p].insn.mnem == PLP
    ensures |folded.insns[p].successors| > 1 && At(OutNarrow) in folded.insns[p].successors
  {
    PullsDecoded(raw, folded);
    PullLeadsOut(raw, merged, folded);
    RepIs(raw, merged, At(PullNarrow));
    PullRepresented(raw, merged, folded, p);
    SharedSlot();
    TwoNamed(folded.insns[p].successors, At(OutNarrow), At(OutWide));
  }

  lemma OutSurvives(raw: Graph, merged: Graph, folded: Graph)
    requires Lists(raw.order, raw.insns) && MergedFrom(raw, merged) && Spots(raw) && Closed(raw, folded)
    ensures At(OutNarrow) in folded.insns && At(OutNarrow) in raw.insns
  {
    PullsDecoded(raw, folded);
    OutAlone(raw, OutNarrow);
    AloneStands(raw, merged, At(OutNarrow));
  }

  lemma OutIsUnled(raw: Graph, merged: Graph, folded: Graph)
    requires Lists(raw.order, raw.insns) && MergedFrom(raw, merged) && FoldsTo(merged, folded) && NoZBranch(raw)
    requires Spots(raw) && Closed(raw, folded) && raw.entry == At(Branch)
    ensures folded.entry in folded.insns && OnlyFrom(folded, Rep(raw, At(PullNarrow)), At(OutNarrow))
  {
    EntryFirst(raw, merged, folded);
    PullSplits(raw, merged, folded, Rep(raw, At(PullNarrow)));
    OutSurvives(raw, merged, folded);
    OutOnly(raw, merged, folded, Rep(raw, At(PullNarrow)), At(OutNarrow));
    SplitIsSole(folded, Rep(raw, At(PullNarrow)), At(OutNarrow));
  }

  lemma SplitIsSole(folded: Graph, p: Key, out: Key)
    requires p in folded.insns && out in folded.insns && folded.entry != out
    requires folded.insns[p].insn.mnem == PLP && AllDistinct(folded.insns[p].successors)
    requires forall q :: q in folded.insns && out in folded.insns[q].successors ==> q == p
    ensures OnlyFrom(folded, p, out)
  {
  }

  lemma OutOnly(raw: Graph, merged: Graph, folded: Graph, p: Key, out: Key)
    requires Lists(raw.order, raw.insns) && MergedFrom(raw, merged) && FoldsTo(merged, folded) && NoZBranch(raw)
    requires Spots(raw) && out == At(OutNarrow) && out in raw.insns && p == Rep(raw, At(PullNarrow))
    ensures forall q :: q in folded.insns && out in folded.insns[q].successors ==> q == p
  {
    forall q | q in folded.insns && out in folded.insns[q].successors
      ensures q == p
    {
      OutOnlyFrom(raw, merged, folded, q);
    }
  }

  lemma TwoNamed(ks: seq<Key>, a: Key, b: Key)
    requires a in ks && b in ks && a != b
    ensures |ks| > 1
  {
  }

  lemma EntryFirst(raw: Graph, merged: Graph, folded: Graph)
    requires Lists(raw.order, raw.insns) && MergedFrom(raw, merged) && FoldsTo(merged, folded)
    requires Closed(raw, folded) && raw.entry == At(Branch)
    ensures folded.entry in folded.insns && folded.entry != At(OutNarrow)
  {
    RepIs(raw, merged, At(Branch));
    SharedSlot();
  }

  lemma FunctionShape(env: Env, raw: Graph, merged: Graph, folded: Graph)
    requires IsJoin(env) && Stages(env, raw, merged, folded)
    ensures raw.entry == At(Branch) && NoZBranch(raw) && Spots(raw) && Closed(raw, folded)
  {
    StartKey(env);
    Unfoldable(env, raw);
    AreSpots(env, raw);
    IsClosed(env, raw, merged, folded);
  }

  /** However the function is decoded, merged, folded and numbered, all its code is reachable and some
      of it lies in no block. */
  lemma LosesCode(env: Env, raw: Graph, merged: Graph, folded: Graph, id: map<Key, Graphs.Node>,
                  order: seq<Graphs.Node>, leaders: set<Graphs.Node>, blocks: map<Graphs.Node, Blocks.Block>)
    requires IsJoin(env) && Stages(env, raw, merged, folded) && Numbers(folded, id) && folded.entry in id
    requires Blocks.LeadersOf(CodeOf(folded, id), order, id[folded.entry], leaders)
    requires Blocks.AreBlocks(CodeOf(folded, id), leaders, blocks)
    ensures forall n :: n in CodeOf(folded, id) ==>
              Graphs.Reachable(Blocks.InsnGraph(CodeOf(folded, id)), id[folded.entry], n)
    ensures exists n :: n in CodeOf(folded, id) && forall b, i :: !Blocks.InBlock(blocks, b, i, n)
  {
    FunctionShape(env, raw, merged, folded);
    UnledLosesCode(raw, merged, folded, id, order, leaders, blocks);
    forall n | n in CodeOf(folded, id)
      ensures Graphs.Reachable(Blocks.InsnGraph(CodeOf(folded, id)), id[folded.entry], n)
    {
      FoldedReachable(merged, folded, id, n);
    }
  }

  lemma UnledLosesCode(raw: Graph, merged: Graph, folded: Graph, id: map<Key, Graphs.Node>,
                       order: seq<Graphs.Node>, leaders: set<Graphs.Node>, blocks: map<Graphs.Node, Blocks.Block>)
    requires Lists(raw.order, raw.insns) && MergedFrom(raw, merged) && FoldsTo(merged, folded) && NoZBranch(raw)
    requires Spots(raw) && Closed(raw, folded) && raw.entry == At(Branch)
    requires Numbers(folded, id) && folded.entry in id
    requires Blocks.LeadersOf(CodeOf(folded, id), order, id[folded.entry], leaders)
    requires Blocks.AreBlocks(CodeOf(folded, id), leaders, blocks)
    ensures folded.entry in folded.insns
    ensures exists n :: n in CodeOf(folded, id) && forall b, i :: !Blocks.InBlock(blocks, b, i, n)
  {
    OutIsUnled(raw, merged, folded);
    PullSplits(raw, merged, folded, Rep(raw, At(PullNarrow)));
    SplitLosesCode(merged, folded, id, order, leaders, blocks, Rep(raw, At(PullNarrow)), At(OutNarrow));
  }

  /** Decoding, merging and folding it gives such a function. */
  method MergedPlp() returns (raw: Graph, merged: Graph, folded: Graph)
    ensures IsJoin(Function()) && Stages(Function(), raw, merged, folded)
  {
    var env := Function();
    FunctionIsJoin();
    var out := DecodeFunction(env);
    Confined(env);
    MustDecode(env, ALL, out);
    StartKey(env);
    raw := Graph(At(Branch), out.order, out.insns);
    merged := Merge(raw);
    folded := Fold(merged);
  }
}
