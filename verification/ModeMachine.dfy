/** The processor as far as operand widths go, run function by function with nested calls, and the
    decode graph that must contain every such run. */
module ModeMachine {
  import opened Machine
  import opened Decoder
  import opened ConstZFold
  import opened ExitAnalysis

  /** A cfg function entry. */
  datatype Entry = Entry(bank: nat, start: nat, end: Option<nat>, named: bool)

  /** The program: its ROM, its inline-argument routines and its recovered dispatches. */
  datatype World = World(entries: seq<Entry>, romSize: nat, fetch: (nat, nat, Width) -> Option<Insn>,
                         skips: map<nat, nat>, dispatch: (nat, Site, Insn) -> Option<Dispatch>, maxInsns: nat)

  function SiteOf(e: Entry, w: Width): Site {
    Site(Addr24(e.bank, e.start), w)
  }

  /** How exit-mode inference decodes an entry. */
  function EnvFor(world: World, exits: Exits, e: Entry, w: Width): Env {
    Env(e.bank, e.start, w, e.end, None, world.romSize, world.fetch, exits, map[], world.skips, world.dispatch,
        world.maxInsns)
  }

  /** The entry's own start, widths and end, the program's ROM and dispatches, and the table as it is; no
      siblings and no sets of exit modes. */
  lemma DecodedUnder(world: World, exits: Exits, e: Entry, w: Width)
    ensures var env := EnvFor(world, exits, e, w);
            && Seed(env).key == Begin(e, w) && env.bank == e.bank && env.end == e.end && env.siblings == None
            && env.exits == exits && env.exitModes == map[] && env.skips == world.skips
            && env.romSize == world.romSize && env.fetch == world.fetch && env.dispatch == world.dispatch
            && env.maxInsns == world.maxInsns
  {
  }

  // ----- Plain instructions -----

  /** What an instruction meets that decoding cannot see: the carry, and the widths in the byte on top
      of the caller's stack. */
  datatype Unseen = Unseen(carry: bool, below: Width)

  /** Widths and saved widths after an instruction, on a stack of any depth. PLP on a stack that this
      function left empty pulls what its caller pushed; XCE with the carry set enters emulation mode,
      which forces both widths. */
  function Effect(insn: Insn, w: Width, stack: seq<Width>, u: Unseen): (Width, seq<Width>) {
    match insn.mnem
    case REP => (Width(w.m && insn.operand % 0x40 < 0x20, w.x && insn.operand % 0x20 < 0x10), stack)
    case SEP => (Width(w.m || insn.operand % 0x40 >= 0x20, w.x || insn.operand % 0x20 >= 0x10), stack)
    case PHP => (w, stack + [w])
    case PLP => if stack == [] then (u.below, []) else (Last(stack), Rest(stack))
    case XCE => (if u.carry then NARROW else w, stack)
    case _ => (w, stack)
  }

  /** The static tracking keeps up: PHP nests at most eight deep, no PLP pulls a P that this function
      did not push, and XCE comes only where both widths are 8 bits already. */
  predicate Trackable(insn: Insn, w: Width, stack: seq<Width>) {
    && (insn.mnem == PHP ==> |stack| < 8) && (insn.mnem == PLP ==> stack != [])
    && (insn.mnem == XCE ==> w == NARROW)
  }

  /** Where a plain instruction can go. */
  function Moves(bank: nat, insn: Insn, k: Key, u: Unseen): seq<Edge> {
    var (w, stack) := Effect(insn, k.width, k.pstack, u);
    var fall := Edge(Key(Addr24(bank, Pc16(k) + insn.length), w, stack), Fall);
    var jump := Edge(Key(Addr24(bank, insn.operand), w, stack), Jump);
    if insn.mnem in {RTS, RTL, RTI, STP, WAI, BRK} || (insn.mnem == JMP && insn.mode != ABS) then []
    else if insn.mnem in {BRA, BRL, JMP} then [jump]
    else if insn.mnem in {BPL, BMI, BVC, BVS, BCC, BCS, BNE, BEQ} then [fall, jump]
    else [fall]
  }

  /** After an immediate load BEQ and BNE go where the Z it has set sends them; `way` 1 is taken. */
  predicate ZAllows(load: Option<Insn>, w: Width, insn: Insn, way: nat) {
    load.Some? && load.value.mnem in {LDA, LDX, LDY} && load.value.mode == IMM && insn.mnem in {BEQ, BNE} ==>
      (way == 1 <==> (insn.mnem == BEQ <==> SetsZ(load.value, w)))
  }

  // ----- Runs of one function call -----

  /** The run of a function from some point to its return: an RTS or RTL, or an RTI with the widths it
      ran in and those of the P it pulls; plain steps with what they meet, steps of recovered
      dispatches, calls with the whole run of the callee, and a hand-over to a handler. */
  datatype Trace =
    | Return
    | Reload(before: Width, pulled: Width)
    | Step(way: nat, unseen: Unseen, rest: Trace)
    | Dispatched(next: Key, rest: Trace)
    | Call(callee: Entry, body: Trace, back: Width, rest: Trace)
    | HandOver(entry: nat, handler: Entry, body: Trace)

  /** The widths in which a run that ends in `out` leaves, before the RTI that may end it. */
  function Left(t: Trace, out: Width): Width {
    match t
    case Return => out
    case Reload(before, pulled) => before
    case Step(way, u, rest) => Left(rest, out)
    case Dispatched(next, rest) => Left(rest, out)
    case Call(callee, body, back, rest) => Left(rest, out)
    case HandOver(entry, handler, body) => Left(body, out)
  }

  /** The RTI that ends the run, if one does, pulls the widths it ran in. */
  predicate PullsOwn(t: Trace) {
    match t
    case Return => true
    case Reload(before, pulled) => pulled == before
    case Step(way, u, rest) => PullsOwn(rest)
    case Dispatched(next, rest) => PullsOwn(rest)
    case Call(callee, body, back, rest) => PullsOwn(rest)
    case HandOver(entry, handler, body) => PullsOwn(body)
  }

  /** So does every RTI that ends a call. */
  predicate CallsPullOwn(t: Trace) {
    match t
    case Return => true
    case Reload(before, pulled) => true
    case Step(way, u, rest) => CallsPullOwn(rest)
    case Dispatched(next, rest) => CallsPullOwn(rest)
    case Call(callee, body, back, rest) => PullsOwn(body) && CallsPullOwn(body) && CallsPullOwn(rest)
    case HandOver(entry, handler, body) => CallsPullOwn(body)
  }

  /** A callee that the table describes: seeded, or an entry of the program. */
  predicate Known(world: World, seeds: Exits, e: Entry, w: Width) {
    SiteOf(e, w) in seeds || (e in world.entries && e.named)
  }

  function Begin(e: Entry, w: Width): Key {
    Key(Addr24(e.bank, e.start), w, [])
  }

  function LoadBefore(env: Env, prev: Option<Key>): Option<Insn> {
    match prev
    case None => None
    case Some(p) => InsnAt(env, p)
  }

  function WidthBefore(prev: Option<Key>): Width {
    match prev
    case None => Width(false, false)
    case Some(p) => p.width
  }

  /** One plain step along `way`, through the gates. */
  predicate CanStep(env: Env, prev: Option<Key>, k: Key, insn: Insn, way: nat, u: Unseen) {
    && Recovered(env, insn, k).None? && insn.mnem !in {JSR, JSL} && Trackable(insn, k.width, k.pstack)
    && way < |Moves(env.bank, insn, k, u)| && Admits(env, Along(k, Moves(env.bank, insn, k, u)[way]))
    && ZAllows(LoadBefore(env, prev), WidthBefore(prev), insn, way)
  }

  /** Where a call resumes, in widths `back`. */
  function Resume(env: Env, insn: Insn, k: Key, back: Width): Edge {
    var next := (Pc16(k) + insn.length) % 0x10000;
    Edge(Key(Addr24(env.bank, (next + Skip(env, CallTarget(env.bank, insn))) % 0x10000), back, k.pstack), Fall)
  }

  /** A direct call whose target, or the mirror of it, is recorded as the entry of `callee`. */
  predicate CanCall(env: Env, k: Key, insn: Insn, callee: Entry, back: Width) {
    && Recovered(env, insn, k).None? && CallTarget(env.bank, insn).Some?
    && Alias(env.exits, CallTarget(env.bank, insn).value, k.width) == Some(SiteOf(callee, k.width))
    && Admits(env, Along(k, Resume(env, insn, k, back)))
  }

  /** A dispatch whose table names `handler`, in the widths of the dispatch. */
  ghost predicate CanHandOver(env: Env, k: Key, insn: Insn, entry: nat, handler: Entry) {
    HandsTo(k, RecordOf(env, insn, k), entry, SiteOf(handler, k.width)) && SiteOf(handler, k.width) in env.exits
  }

  ghost predicate Runs(world: World, exits: Exits, seeds: Exits, e: Entry, w0: Width,
                       prev: Option<Key>, k: Key, t: Trace, out: Width)
    decreases t
  {
    var env := EnvFor(world, exits, e, w0);
    InsnAt(env, k).Some? &&
    var insn := InsnAt(env, k).value;
    match t
    case Return => insn.mnem in {RTS, RTL} && out == k.width
    case Reload(before, pulled) => insn.mnem == RTI && before == k.width && out == pulled
    case Step(way, u, rest) =>
      CanStep(env, prev, k, insn, way, u) &&
      Runs(world, exits, seeds, e, w0, Some(k), Moves(env.bank, insn, k, u)[way].to, rest, out)
    case Dispatched(next, rest) =>
      Recovered(env, insn, k).Some? && next in Successors(env, insn, k) && Accepted(env, k, next) &&
      Runs(world, exits, seeds, e, w0, Some(k), next, rest, out)
    case Call(callee, body, back, rest) =>
      CanCall(env, k, insn, callee, back) && Known(world, seeds, callee, k.width) &&
      Runs(world, exits, seeds, callee, k.width, None, Begin(callee, k.width), body, back) &&
      Runs(world, exits, seeds, e, w0, Some(k), Resume(env, insn, k, back).to, rest, out)
    case HandOver(entry, handler, body) =>
      CanHandOver(env, k, insn, entry, handler) && Known(world, seeds, handler, k.width) &&
      Runs(world, exits, seeds, handler, k.width, None, Begin(handler, k.width), body, out)
  }
}
