/** One routine in two mirrored banks whose cfg entries end at different addresses: inference stops on a
    table in which the record of one bank shadows the exit of the other. */
module MirrorExample {
  import opened Machine
  import opened Decoder
  import opened ExitAnalysis
  import opened ModeMachine
  import opened ExitSoundness
  import opened ExitModes
  import opened Listings
  import opened Lines

  const LOWER := Entry(0, 0x8000, Some(0x8002), true)
  const UPPER := Entry(0x80, 0x8000, Some(0x8012), true)

  const OVER := Insn(BCC, OtherMode, 0x8010, 2)
  const WIDEN_ALL := Insn(REP, IMM, 0x30, 2)
  const BACK := Insn(RTS, OtherMode, 0, 1)

  /** 8000 BCC $8010; 8002 RTS; 8010 REP #$30; 8012 RTS */
  function Listing(pc: nat): Option<Insn> {
    if pc == 0x8000 then Some(OVER)
    else if pc == 0x8010 then Some(WIDEN_ALL)
    else if pc == 0x8002 || pc == 0x8012 then Some(BACK)
    else None
  }

  function Program(): World {
    World([LOWER, UPPER], 0x400000, (bank: nat, pc: nat, w: Width) => Listing(pc), map[],
          (start: nat, site: Site, insn: Insn) => None, 12000)
  }

  /** Bank $00 leaves in 16-bit widths, bank $80 in those it is entered in. */
  function Exit(s: Site): Width {
    if s.pc == 0x8000 then WIDE else s.width
  }

  function Inferred(): map<Site, Width> {
    map s | s in set a, w | a in {0x8000, 0x808000} && w in ALL_WIDTHS :: Site(a, w) :: Exit(s)
  }

  lemma InferredIs(w: Width)
    ensures Site(0x8000, w) in Inferred() && Inferred()[Site(0x8000, w)] == WIDE
    ensures Site(0x808000, w) in Inferred() && Inferred()[Site(0x808000, w)] == w
  {
    assert ALL_WIDTHS[WidthIndex(w)] == w;
    assert w in ALL_WIDTHS;
  }

  // ----- Decoding in either bank -----

  ghost predicate Decodes(env: Env, w: Width) {
    && IsPlain(env) && env.start == 0x8000 && env.width == w
    && env.fetch(env.bank, 0x8000, w) == Some(OVER) && env.fetch(env.bank, 0x8010, w) == Some(WIDEN_ALL)
    && env.fetch(env.bank, 0x8002, w) == Some(BACK) && env.fetch(env.bank, 0x8012, WIDE) == Some(BACK)
  }

  function Here(env: Env, pc: nat, w: Width): Key {
    KeyAt(env, pc, w, [])
  }

  lemma PcOf(env: Env, pc: nat, w: Width)
    requires pc < 0x10000
    ensures Pc16(Here(env, pc, w)) == pc && Here(env, pc, w).width == w && Here(env, pc, w).pstack == []
  {
  }

  lemma StartEdges(env: Env, w: Width)
    requires Decodes(env, w)
    ensures Holds(env, Here(env, 0x8000, w), OVER)
    ensures EdgesAt(env, Here(env, 0x8000, w)) == [Edge(Here(env, 0x8002, w), Fall), Edge(Here(env, 0x8010, w), Jump)]
  {
    PcOf(env, 0x8000, w);
    BranchEdges(env, Here(env, 0x8000, w), OVER);
  }

  lemma WidenEdges(env: Env, w: Width)
    requires Decodes(env, w)
    ensures Holds(env, Here(env, 0x8010, w), WIDEN_ALL)
    ensures EdgesAt(env, Here(env, 0x8010, w)) == [Edge(Here(env, 0x8012, WIDE), Fall)]
  {
    PcOf(env, 0x8010, w);
    var k := Here(env, 0x8010, w);
    assert Next(k, WIDEN_ALL) == 0x8012;
    FallEdges(env, k, WIDEN_ALL, WIDE, []);
  }

  lemma Ends(env: Env, w: Width, pc: nat, v: Width)
    requires Decodes(env, w) && ((pc == 0x8002 && v == w) || (pc == 0x8012 && v == WIDE))
    ensures Returns(env, Here(env, pc, v))
  {
    PcOf(env, pc, v);
    EndsLine(env, Here(env, pc, v), BACK);
  }

  // ----- Bank $00: the fall-through is past the end, so only the jump is followed -----

  function LowerLine(env: Env, w: Width): Line {
    Line([Here(env, 0x8000, w), Here(env, 0x8010, w), Here(env, 0x8012, WIDE)], [])
  }

  lemma LowerJumps(env: Env, w: Width)
    requires Decodes(env, w) && env.end == Some(0x8002)
    ensures Links(env, Here(env, 0x8000, w), Here(env, 0x8010, w), [])
  {
    StartEdges(env, w);
    PcOf(env, 0x8000, w);
    PcOf(env, 0x8002, w);
    PcOf(env, 0x8010, w);
    var k := Here(env, 0x8000, w);
    BranchesOn(env, k, OVER, Edge(Here(env, 0x8010, w), Jump), Edge(Here(env, 0x8002, w), Fall), []);
  }

  lemma LowerWidens(env: Env, w: Width)
    requires Decodes(env, w) && env.end == Some(0x8002)
    ensures Links(env, Here(env, 0x8010, w), Here(env, 0x8012, WIDE), [])
  {
    WidenEdges(env, w);
    PcOf(env, 0x8010, w);
    PcOf(env, 0x8012, WIDE);
    OneWayOn(env, Here(env, 0x8010, w), WIDEN_ALL, Edge(Here(env, 0x8012, WIDE), Fall));
  }

  lemma LowerLinked(env: Env, w: Width)
    requires Decodes(env, w) && env.end == Some(0x8002)
    ensures Linked(env, LowerLine(env, w).keys, [])
  {
    LowerJumps(env, w);
    LowerWidens(env, w);
    ThreeLinked(env, Here(env, 0x8000, w), Here(env, 0x8010, w), Here(env, 0x8012, WIDE));
  }

  lemma LowerIsLine(env: Env, w: Width)
    requires Decodes(env, w) && env.end == Some(0x8002)
    ensures IsLine(env, LowerLine(env, w))
  {
    LowerLinked(env, w);
    Ends(env, w, 0x8012, WIDE);
    FormLine(env, LowerLine(env, w));
  }

  // ----- Bank $80: the RTS behind the REP is past the end, so only the other one is seen -----

  function UpperLine(env: Env, w: Width): Line {
    Line([Here(env, 0x8000, w), Here(env, 0x8002, w)], [Here(env, 0x8010, w)])
  }

  lemma UpperFalls(env: Env, w: Width)
    requires Decodes(env, w) && env.end == Some(0x8012)
    ensures Linked(env, UpperLine(env, w).keys, UpperLine(env, w).side)
  {
    StartEdges(env, w);
    PcOf(env, 0x8000, w);
    PcOf(env, 0x8002, w);
    PcOf(env, 0x8010, w);
    var k, side := Here(env, 0x8000, w), UpperLine(env, w).side;
    BranchesOn(env, k, OVER, Edge(Here(env, 0x8002, w), Fall), Edge(Here(env, 0x8010, w), Jump), side);
    TwoLinked(env, k, Here(env, 0x8002, w), side);
  }

  lemma UpperCutOff(env: Env, w: Width)
    requires Decodes(env, w) && env.end == Some(0x8012)
    ensures PassesOn(env, Here(env, 0x8010, w)) && StaysAside(env, Here(env, 0x8010, w), UpperLine(env, w).side)
  {
    WidenEdges(env, w);
    PcOf(env, 0x8010, w);
    PcOf(env, 0x8012, WIDE);
    CutOff(env, Here(env, 0x8010, w), WIDEN_ALL, Edge(Here(env, 0x8012, WIDE), Fall), UpperLine(env, w).side);
  }

  lemma UpperIsLine(env: Env, w: Width)
    requires Decodes(env, w) && env.end == Some(0x8012)
    ensures IsLine(env, UpperLine(env, w))
  {
    UpperFalls(env, w);
    UpperCutOff(env, w);
    Ends(env, w, 0x8002, w);
    FormLine(env, UpperLine(env, w));
  }

  // ----- The table -----

  function LineOf(e: Entry, w: Width): Line {
    var env := EnvFor(Program(), Inferred(), e, w);
    if e == LOWER then LowerLine(env, w) else UpperLine(env, w)
  }

  lemma ProgramDecodes(e: Entry, w: Width)
    requires e == LOWER || e == UPPER
    ensures Decodes(EnvFor(Program(), Inferred(), e, w), w) && EnvFor(Program(), Inferred(), e, w).end == e.end
  {
  }

  lemma SitesAre(w: Width)
    ensures SiteOf(LOWER, w) == Site(0x8000, w) && SiteOf(UPPER, w) == Site(0x808000, w)
  {
  }

  lemma LineIsRecorded(e: Entry, w: Width)
    requires e == LOWER || e == UPPER
    ensures LineRecorded(Program(), Inferred(), e, LineOf(e, w), w)
  {
    InferredIs(w);
    SitesAre(w);
    ProgramDecodes(e, w);
    var env := EnvFor(Program(), Inferred(), e, w);
    if e == LOWER { LowerIsLine(env, w); } else { UpperIsLine(env, w); }
  }

  /** A call of the bank $80 entry in widths that are not 16-bit resumes in 16-bit ones once the table
      is rebuilt: its own exit is left to the default, and the record of bank $00 takes its place. */
  lemma UpperShadowed(found: Discovered, w: Width)
    requires w != WIDE
    ensures Shadowed(Inferred(), map[], found, 0x808000, w)
    ensures ResumeWidth(Inferred(), 0x808000, w) == w
    ensures ResumeWidth(Rebuilt(Inferred(), map[], found), 0x808000, w) == WIDE
  {
    InferredIs(w);
    RebuiltIs(Inferred(), map[], found, Site(0x8000, w));
    RebuiltIs(Inferred(), map[], found, Site(0x808000, w));
    ResumeIs(Inferred(), 0x808000, w);
    ResumeIs(Rebuilt(Inferred(), map[], found), 0x808000, w);
  }

  /** The table is one that inference stops on: the next pass would change nothing. */
  method MirrorShadows()
    ensures Clean(Program(), Inferred(), map[])
    ensures forall found, w :: w != WIDE ==> Shadowed(Inferred(), map[], found, 0x808000, w)
  {
    ghost var lower, upper := (w: Width) => LineOf(LOWER, w), (w: Width) => LineOf(UPPER, w);
    Recorded(LOWER, lower);
    Recorded(UPPER, upper);
    InferEntry(Program(), Inferred(), LOWER, lower);
    InferEntry(Program(), Inferred(), UPPER, upper);
    TwoLines(Program(), Inferred(), LOWER, lower, UPPER, upper);
    forall found, w: Width | w != WIDE
      ensures Shadowed(Inferred(), map[], found, 0x808000, w)
    {
      UpperShadowed(found, w);
    }
  }

  lemma Recorded(e: Entry, line: Width -> Line)
    requires (e == LOWER || e == UPPER) && forall w :: line(w) == LineOf(e, w)
    ensures LinesRecorded(Program(), Inferred(), e, line)
  {
    forall w
      ensures LineRecorded(Program(), Inferred(), e, line(w), w)
    {
      LineIsRecorded(e, w);
    }
  }
}
