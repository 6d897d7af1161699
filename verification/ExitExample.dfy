/** A program with a call, a width change and a PHP/PLP bracket on which every premise of exit-mode
    soundness holds, with records that were derived and not seeded. */
module ExitExample {
  import opened Machine
  import opened Decoder
  import opened ConstZFold
  import opened ExitAnalysis
  import opened ModeMachine
  import opened ExitSoundness
  import opened ExitModes
  import opened Listings
  import opened Lines

  const CALLER := Entry(0, 0x8000, None, true)
  const CALLEE := Entry(0, 0x9000, None, true)

  const SAVE := Insn(PHP, OtherMode, 0, 1)
  const CALL := Insn(JSR, ABS, 0x9000, 3)
  const RESTORE := Insn(PLP, OtherMode, 0, 1)
  const BACK := Insn(RTS, OtherMode, 0, 1)
  const NARROW_M := Insn(SEP, IMM, 0x20, 2)

  /** 8000 PHP; 8001 JSR $9000; 8004 PLP; 8005 RTS and 9000 SEP #$20; 9002 RTS */
  function Listing(pc: nat): Option<Insn> {
    if pc == 0x8000 then Some(SAVE)
    else if pc == 0x8001 then Some(CALL)
    else if pc == 0x8004 then Some(RESTORE)
    else if pc == 0x8005 || pc == 0x9002 then Some(BACK)
    else if pc == 0x9000 then Some(NARROW_M)
    else None
  }

  function Program(): World {
    World([CALLER, CALLEE], 0x400000, (bank: nat, pc: nat, w: Width) => Listing(pc), map[],
          (start: nat, site: Site, insn: Insn) => None, 12000)
  }

  function Narrowed(w: Width): Width {
    Width(true, w.x)
  }

  /** The callee leaves with M narrow, the caller as it was entered. */
  function Derived(): map<Site, Width> {
    map s | s in set e, w | e in {0x8000, 0x9000} && w in ALL_WIDTHS :: Site(e, w) ::
      if s.pc == 0x9000 then Narrowed(s.width) else s.width
  }

  lemma DerivedIs(w: Width)
    ensures Site(0x8000, w) in Derived() && Derived()[Site(0x8000, w)] == w
    ensures Site(0x9000, w) in Derived() && Derived()[Site(0x9000, w)] == Narrowed(w)
  {
    assert ALL_WIDTHS[WidthIndex(w)] == w;
    assert w in ALL_WIDTHS;
  }

  /** The callee's exits are recorded. */
  ghost predicate Decodes(env: Env) {
    && Fetches(env)
    && (forall w :: Site(0x9000, w) in env.exits && env.exits[Site(0x9000, w)] == Narrowed(w))
  }

  ghost predicate Fetches(env: Env) {
    && IsPlain(env) && env.bank == 0 && env.end == None
    && (forall w :: env.fetch(0, 0x8000, w) == Some(SAVE) && env.fetch(0, 0x8001, w) == Some(CALL))
    && (forall w :: env.fetch(0, 0x8004, w) == Some(RESTORE) && env.fetch(0, 0x8005, w) == Some(BACK))
    && (forall w :: env.fetch(0, 0x9000, w) == Some(NARROW_M) && env.fetch(0, 0x9002, w) == Some(BACK))
  }

  lemma CallerDecodes(w: Width)
    ensures var env := EnvFor(Program(), Derived(), CALLER, w); Decodes(env) && env.start == 0x8000 && env.width == w
  {
    TableRecords(EnvFor(Program(), Derived(), CALLER, w));
  }

  lemma CalleeDecodes(w: Width)
    ensures var env := EnvFor(Program(), Derived(), CALLEE, w); Decodes(env) && env.start == 0x9000 && env.width == w
  {
    TableRecords(EnvFor(Program(), Derived(), CALLEE, w));
  }

  lemma TableRecords(env: Env)
    requires env.exits == Derived()
    ensures forall w :: Site(0x9000, w) in env.exits && env.exits[Site(0x9000, w)] == Narrowed(w)
  {
    forall w
      ensures Site(0x9000, w) in Derived() && Derived()[Site(0x9000, w)] == Narrowed(w)
    {
      DerivedIs(w);
    }
  }

  function CalleeLine(w: Width): Line {
    Line([Key(0x9000, w, []), Key(0x9002, Narrowed(w), [])], [])
  }

  /** `v` are the widths in which the call resumes. */
  function CallerLine(w: Width, v: Width): Line {
    Line([Key(0x8000, w, []), Key(0x8001, w, [w]), Key(0x8004, v, [w]), Key(0x8005, w, [])], [])
  }

  /** Each instruction but the returns goes one way. */
  lemma NarrowEdge(env: Env, w: Width)
    requires Fetches(env)
    ensures GoesOnly(env, Key(0x9000, w, []), NARROW_M, Edge(Key(0x9002, Narrowed(w), []), Fall))
  {
    var k := Key(0x9000, w, []);
    NextIs(env, k, NARROW_M, 0x9002, Narrowed(w), []);
    FallEdges(env, k, NARROW_M, Narrowed(w), []);
    PassesOpen(env, Pc16(k), Edge(Key(0x9002, Narrowed(w), []), Fall));
  }

  lemma SaveEdge(env: Env, w: Width)
    requires Fetches(env)
    ensures GoesOnly(env, Key(0x8000, w, []), SAVE, Edge(Key(0x8001, w, [w]), Fall))
  {
    var k := Key(0x8000, w, []);
    assert [] + [w] == [w];
    NextIs(env, k, SAVE, 0x8001, w, [w]);
    FallEdges(env, k, SAVE, w, [w]);
    PassesOpen(env, Pc16(k), Edge(Key(0x8001, w, [w]), Fall));
  }

  lemma RestoreEdge(env: Env, v: Width, w: Width)
    requires Fetches(env)
    ensures GoesOnly(env, Key(0x8004, v, [w]), RESTORE, Edge(Key(0x8005, w, []), Fall))
  {
    var k := Key(0x8004, v, [w]);
    PulledState(v, w);
    NextIs(env, k, RESTORE, 0x8005, w, []);
    FallEdges(env, k, RESTORE, w, []);
    PassesOpen(env, Pc16(k), Edge(Key(0x8005, w, []), Fall));
  }

  lemma PulledState(v: Width, w: Width)
    ensures PostState(RESTORE, v, [w]) == (w, [])
  {
    assert [w][..0] == [];
  }

  lemma CalleeRecorded(env: Env, w: Width)
    requires Decodes(env)
    ensures Alias(env.exits, Addr24(env.bank, CALL.operand), w) == Some(Site(0x9000, w))
    ensures Site(0x9000, w) in env.exits && env.exits[Site(0x9000, w)] == Narrowed(w)
  {
  }

  /** The call resumes in the widths that the table gives for the callee. */
  lemma CallGoes(env: Env, w: Width, v: Width)
    requires Fetches(env) && v == ResumeWidth(env.exits, 0x9000, w)
    ensures GoesOnly(env, Key(0x8001, w, [w]), CALL, Edge(Key(0x8004, v, [w]), Fall))
  {
    var k := Key(0x8001, w, [w]);
    NextIs(env, k, CALL, 0x8004, v, [w]);
    CallEdge(env, k, CALL, v);
    PassesOpen(env, Pc16(k), Edge(Key(0x8004, v, [w]), Fall));
  }

  lemma BackEnds(env: Env, pc: nat, w: Width)
    requires Fetches(env) && (pc == 0x8005 || pc == 0x9002)
    ensures Returns(env, Key(pc, w, []))
  {
    EndsLine(env, Key(pc, w, []), BACK);
  }

  lemma CalleeIsLine(env: Env, w: Width)
    requires Fetches(env) && env.start == 0x9000 && env.width == w
    ensures IsLine(env, CalleeLine(w))
  {
    CalleeLinked(env, w);
    BackEnds(env, 0x9002, Narrowed(w));
    FormLine(env, CalleeLine(w));
  }

  lemma CalleeLinked(env: Env, w: Width)
    requires Fetches(env)
    ensures Linked(env, CalleeLine(w).keys, [])
  {
    NarrowEdge(env, w);
    OneWayOn(env, Key(0x9000, w, []), NARROW_M, Edge(Key(0x9002, Narrowed(w), []), Fall));
    TwoLinked(env, Key(0x9000, w, []), Key(0x9002, Narrowed(w), []), []);
  }

  lemma CallerBegins(env: Env, w: Width, v: Width)
    requires Fetches(env) && v == ResumeWidth(env.exits, 0x9000, w)
    ensures Linked(env, [Key(0x8000, w, []), Key(0x8001, w, [w]), Key(0x8004, v, [w])], [])
  {
    SaveEdge(env, w);
    OneWayOn(env, Key(0x8000, w, []), SAVE, Edge(Key(0x8001, w, [w]), Fall));
    CallGoes(env, w, v);
    OneWayOn(env, Key(0x8001, w, [w]), CALL, Edge(Key(0x8004, v, [w]), Fall));
    ThreeLinked(env, Key(0x8000, w, []), Key(0x8001, w, [w]), Key(0x8004, v, [w]));
  }

  lemma CallerLinked(env: Env, w: Width, v: Width)
    requires Fetches(env) && v == ResumeWidth(env.exits, 0x9000, w)
    ensures Linked(env, CallerLine(w, v).keys, [])
  {
    CallerBegins(env, w, v);
    RestoreEdge(env, v, w);
    OneWayOn(env, Key(0x8004, v, [w]), RESTORE, Edge(Key(0x8005, w, []), Fall));
    FourLinked(env, Key(0x8000, w, []), Key(0x8001, w, [w]), Key(0x8004, v, [w]), Key(0x8005, w, []));
  }

  lemma CallerIsLine(env: Env, w: Width, v: Width)
    requires Fetches(env) && v == ResumeWidth(env.exits, 0x9000, w) && env.start == 0x8000 && env.width == w
    ensures IsLine(env, CallerLine(w, v))
  {
    CallerLinked(env, w, v);
    BackEnds(env, 0x8005, w);
    FormLine(env, CallerLine(w, v));
  }

  // ----- An execution with a call -----

  const CALLEE_RUN := Step(0, MET, Return)

  function CallerRun(w: Width): Trace {
    Step(0, MET, Call(CALLEE, CALLEE_RUN, Narrowed(w), Step(0, MET, Return)))
  }

  lemma CalleeRuns(world: World, exits: Exits, w: Width)
    requires Decodes(EnvFor(world, exits, CALLEE, w))
    ensures Runs(world, exits, map[], CALLEE, w, None, Key(0x9000, w, []), CALLEE_RUN, Narrowed(w))
  {
    RunsOut(world, exits, map[], CALLEE, w, Some(Key(0x9000, w, [])), Key(0x9002, Narrowed(w), []), BACK);
    NarrowEdge(EnvFor(world, exits, CALLEE, w), w);
    RunsOn(world, exits, map[], CALLEE, w, None, Key(0x9000, w, []), NARROW_M,
           Edge(Key(0x9002, Narrowed(w), []), Fall), Return, Narrowed(w));
  }

  /** From the PLP on, in the widths the callee left. */
  lemma ReturnRuns(world: World, exits: Exits, w: Width, prev: Option<Key>)
    requires Decodes(EnvFor(world, exits, CALLER, w))
    ensures Runs(world, exits, map[], CALLER, w, prev, Key(0x8004, Narrowed(w), [w]), Step(0, MET, Return), w)
  {
    RunsOut(world, exits, map[], CALLER, w, Some(Key(0x8004, Narrowed(w), [w])), Key(0x8005, w, []), BACK);
    RestoreEdge(EnvFor(world, exits, CALLER, w), Narrowed(w), w);
    RunsOn(world, exits, map[], CALLER, w, prev, Key(0x8004, Narrowed(w), [w]), RESTORE,
           Edge(Key(0x8005, w, []), Fall), Return, w);
  }

  lemma CallPossible(env: Env, w: Width)
    requires Decodes(env)
    ensures CanCall(env, Key(0x8001, w, [w]), CALL, CALLEE, Narrowed(w))
    ensures Resume(env, CALL, Key(0x8001, w, [w]), Narrowed(w)).to == Key(0x8004, Narrowed(w), [w])
  {
    var k := Key(0x8001, w, [w]);
    CalleeRecorded(env, w);
    DirectTarget(env.bank, CALL);
    NothingSkipped(env, CallTarget(env.bank, CALL));
    NextStays(k, CALL);
    NextIs(env, k, CALL, 0x8004, Narrowed(w), [w]);
    PassesIsAdmitted(env, k, Resume(env, CALL, k, Narrowed(w)));
  }

  lemma CallRunsFrom(world: World, exits: Exits, w: Width, prev: Option<Key>, body: Trace, rest: Trace, out: Width)
    requires Decodes(EnvFor(world, exits, CALLER, w)) && CALLEE in world.entries
    requires Runs(world, exits, map[], CALLEE, w, None, Key(0x9000, w, []), body, Narrowed(w))
    requires Runs(world, exits, map[], CALLER, w, Some(Key(0x8001, w, [w])), Key(0x8004, Narrowed(w), [w]), rest, out)
    ensures Runs(world, exits, map[], CALLER, w, prev, Key(0x8001, w, [w]), Call(CALLEE, body, Narrowed(w), rest), out)
  {
    var env, k := EnvFor(world, exits, CALLER, w), Key(0x8001, w, [w]);
    CallPossible(env, w);
    AtIsHeld(env, k, CALL);
    CalleeBegins(w);
    RunsCall(world, exits, map[], CALLER, w, prev, k, CALL, CALLEE, body,
             Narrowed(w), Key(0x8004, Narrowed(w), [w]), rest,
             out);
  }

  lemma CalleeBegins(w: Width)
    ensures Begin(CALLEE, w) == Key(0x9000, w, [])
  {
  }

  lemma CallRuns(world: World, exits: Exits, w: Width, prev: Option<Key>)
    requires CALLEE in world.entries
    requires Decodes(EnvFor(world, exits, CALLER, w))
    requires Decodes(EnvFor(world, exits, CALLEE, w))
    ensures Runs(world, exits, map[], CALLER, w, prev, Key(0x8001, w, [w]),
                 Call(CALLEE, CALLEE_RUN, Narrowed(w), Step(0, MET, Return)), w)
  {
    CalleeRuns(world, exits, w);
    ReturnRuns(world, exits, w, Some(Key(0x8001, w, [w])));
    CallRunsFrom(world, exits, w, prev, CALLEE_RUN, Step(0, MET, Return), w);
  }

  lemma SaveRunsFrom(world: World, exits: Exits, w: Width, rest: Trace, out: Width)
    requires Decodes(EnvFor(world, exits, CALLER, w))
    requires Runs(world, exits, map[], CALLER, w, Some(Key(0x8000, w, [])), Key(0x8001, w, [w]), rest, out)
    ensures Runs(world, exits, map[], CALLER, w, None, Key(0x8000, w, []), Step(0, MET, rest), out)
  {
    SaveEdge(EnvFor(world, exits, CALLER, w), w);
    RunsOn(world, exits, map[], CALLER, w, None, Key(0x8000, w, []), SAVE, Edge(Key(0x8001, w, [w]), Fall), rest, out);
  }

  /** An execution of the caller: it calls, comes back in other widths and returns as it was entered. */
  lemma CallerRuns(w: Width)
    ensures Known(Program(), map[], CALLER, w) && Begin(CALLER, w) == Key(0x8000, w, [])
    ensures Runs(Program(), Derived(), map[], CALLER, w, None, Begin(CALLER, w), CallerRun(w), w)
  {
    CallerDecodes(w);
    CalleeDecodes(w);
    CallRuns(Program(), Derived(), w, Some(Key(0x8000, w, [])));
    SaveRunsFrom(Program(), Derived(), w, Call(CALLEE, CALLEE_RUN, Narrowed(w), Step(0, MET, Return)), w);
  }

  // ----- Inference -----

  /** The table holds nothing but what inference will find. */
  ghost predicate Partial(table: Exits) {
    forall s :: s in table ==> s in Derived() && table[s] == Derived()[s]
  }

  lemma Fetched(exits: Exits, e: Entry, w: Width)
    requires e == CALLER || e == CALLEE
    ensures var env := EnvFor(Program(), exits, e, w);
            Fetches(env) && env.start == e.start && env.width == w && env.exits == exits
  {
  }

  /** Each entry is a line in every widths, whatever is known about the callee. */
  function LineOf(exits: Exits, e: Entry, w: Width): Line {
    if e == CALLER then CallerLine(w, ResumeWidth(exits, 0x9000, w)) else CalleeLine(w)
  }

  lemma EntryIsLine(exits: Exits, e: Entry, w: Width)
    requires e == CALLER || e == CALLEE
    ensures IsLine(EnvFor(Program(), exits, e, w), LineOf(exits, e, w))
  {
    Fetched(exits, e, w);
    var env := EnvFor(Program(), exits, e, w);
    if e == CALLER {
      CallerIsLine(env, w, ResumeWidth(exits, 0x9000, w));
    } else {
      CalleeIsLine(env, w);
    }
  }

  /** Whatever is known about the callee, decoding derives what the table will hold. */
  lemma DerivedOnly(exits: Exits, exits': Exits, e: Entry, w: Width)
    requires (e == CALLER || e == CALLEE) && Answers(Program(), exits, exits', e, w)
    ensures SiteOf(e, w) in exits' && SiteOf(e, w) in Derived() && exits'[SiteOf(e, w)] == Derived()[SiteOf(e, w)]
  {
    EntryIsLine(exits, e, w);
    LineDerives(Program(), exits, e, w, LineOf(exits, e, w));
    DerivedIs(w);
  }

  /** Variant number `j` of a pass. */
  function Nth(j: nat): Site
    requires j < 8
  {
    Site(if j < 4 then 0x8000 else 0x9000, ALL_WIDTHS[j % 4])
  }

  lemma NthIs(j: nat)
    requires j < 8
    ensures |Program().entries| == 2 && Program().entries[j / 4] == if j < 4 then CALLER else CALLEE
    ensures SiteOf(Program().entries[j / 4], ALL_WIDTHS[j % 4]) == Nth(j)
  {
  }

  lemma PartialGrows(table: Exits, next: Exits, site: Site)
    requires Partial(table) && SameBut(table, next, site)
    requires site in next && site in Derived() && next[site] == Derived()[site]
    ensures Partial(next)
  {
  }

  lemma StepFills(tables: seq<Exits>, j: nat)
    requires IsPass(Program(), map[], tables) && j < 8 && Partial(tables[j])
    ensures Nth(j) in tables[j + 1] && Partial(tables[j + 1]) && SameBut(tables[j], tables[j + 1], Nth(j))
  {
    var e, w := if j < 4 then CALLER else CALLEE, ALL_WIDTHS[j % 4];
    NthIs(j);
    StepGives(Program(), map[], tables, j, e, w);
    DerivedOnly(tables[j], tables[j + 1], e, w);
    PartialGrows(tables[j], tables[j + 1], Nth(j));
  }

  ghost predicate Filled(table: Exits, n: nat) {
    Partial(table) && forall j :: 0 <= j < n && j < 8 ==> Nth(j) in table
  }

  lemma FilledGrows(table: Exits, next: Exits, n: nat)
    requires n < 8 && Filled(table, n) && Partial(next) && SameBut(table, next, Nth(n)) && Nth(n) in next
    ensures Filled(next, n + 1)
  {
    forall j | 0 <= j < n + 1
      ensures Nth(j) in next
    {
      if Nth(j) != Nth(n) { assert Nth(j) in table; }
    }
  }

  lemma {:induction false} PassFills(tables: seq<Exits>, n: nat)
    requires IsPass(Program(), map[], tables) && n <= 8 && Partial(tables[0])
    ensures Filled(tables[n], n)
    decreases n
  {
    if n > 0 {
      PassFills(tables, n - 1);
      StepFills(tables, n - 1);
      FilledGrows(tables[n - 1], tables[n], n - 1);
    }
  }

  lemma {:induction false} PassKeeps(tables: seq<Exits>, n: nat)
    requires IsPass(Program(), map[], tables) && n <= 8 && Filled(tables[0], 8)
    ensures tables[n] == tables[0]
    decreases n
  {
    if n > 0 {
      PassKeeps(tables, n - 1);
      StepFills(tables, n - 1);
      NothingNew(tables[n - 1], tables[n], Nth(n - 1));
    }
  }

  lemma NothingNew(table: Exits, next: Exits, site: Site)
    requires SameBut(table, next, site) && Partial(table) && Partial(next) && site in table && site in next
    ensures next == table
  {
  }

  lemma FilledIsDerived(table: Exits)
    requires Filled(table, 8)
    ensures table == Derived()
  {
    forall s | s in Derived()
      ensures s in table
    {
      var j := WidthIndex(s.width) + if s.pc == 0x8000 then 0 else 4;
      assert Nth(j) == s;
    }
  }

  lemma FirstPass(tables: seq<Exits>)
    requires IsPass(Program(), map[], tables) && tables[0] == map[]
    ensures Final(tables) == Derived() && Changes(tables)
  {
    PassFills(tables, 8);
    FilledIsDerived(tables[8]);
    DerivedIs(WIDE);
    if !Changes(tables) { Unchanged(tables, 8); }
  }

  lemma SecondPass(tables: seq<Exits>)
    requires IsPass(Program(), map[], tables) && tables[0] == Derived()
    ensures Final(tables) == Derived() && !Changes(tables)
  {
    forall n | 0 <= n <= 8
      ensures tables[n] == Derived()
    {
      AllFilled();
      PassKeeps(tables, n);
    }
  }

  lemma AllFilled()
    ensures Filled(Derived(), 8)
  {
    forall j | 0 <= j < 8
      ensures Nth(j) in Derived()
    {
      DerivedIs(ALL_WIDTHS[j % 4]);
    }
  }

  /** The second pass finds nothing new. */
  lemma InfersDerived(passes: seq<seq<Exits>>, exits: Exits, clean: bool)
    requires Infers(Program(), map[], passes, exits, clean)
    ensures clean && exits == Derived()
  {
    FirstPass(passes[0]);
    assert |passes| > 1 ==> Continues(passes[0], passes[0 + 1]);
    if |passes| > 1 {
      SecondPass(passes[1]);
      assert |passes| > 2 ==> Continues(passes[1], passes[1 + 1]);
    }
  }

  /** Inference on the program, without hints, ends clean with that table. */
  method InferProgram() returns (exits: Exits, fixes: seq<Fix>)
    ensures exits == Derived() && Clean(Program(), exits, map[]) && Emits(exits, map[], fixes)
  {
    var seeds, clean;
    ghost var passes;
    exits, seeds, fixes, clean, passes := DetectAndRoute(Program(), []);
    NoSeeds(seeds);
    InfersDerived(passes, exits, clean);
  }

  lemma NoSeeds(seeds: Exits)
    requires Seeds([], seeds)
    ensures seeds == map[]
  {
    forall s: Site
      ensures s !in seeds
    {
      assert LastHint([], s.pc) == None;
    }
  }

  // ----- The premises -----

  function CallerOf(w: Width): Line {
    LineOf(Derived(), CALLER, w)
  }

  lemma CallerLines()
    ensures LinesRecorded(Program(), Derived(), CALLER, CallerOf)
  {
    forall w
      ensures LineRecorded(Program(), Derived(), CALLER, CallerOf(w), w)
    {
      DerivedIs(w);
      EntryIsLine(Derived(), CALLER, w);
    }
  }

  lemma CalleeLines()
    ensures LinesRecorded(Program(), Derived(), CALLEE, CalleeLine)
  {
    forall w
      ensures LineRecorded(Program(), Derived(), CALLEE, CalleeLine(w), w)
    {
      DerivedIs(w);
      EntryIsLine(Derived(), CALLEE, w);
    }
  }

  /** The premises of soundness can be met. */
  method PremisesMet()
    ensures Premises(Program(), Derived(), map[])
  {
    CallerLines();
    CalleeLines();
    InferEntry(Program(), Derived(), CALLER, CallerOf);
    InferEntry(Program(), Derived(), CALLEE, CalleeLine);
    TwoLines(Program(), Derived(), CALLER, CallerOf, CALLEE, CalleeLine);
  }
}
