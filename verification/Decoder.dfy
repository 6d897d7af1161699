/** The mode-indexed decoder: a worklist over decode keys, because the widths in force decide how
    long an instruction is and how its operand reads. */
module Decoder {
  import opened Machine

  /** How an edge leaves its instruction; the seed of the worklist has kind `Start`. */
  datatype Kind = Start | Jump | Fall

  datatype Edge = Edge(to: Key, kind: Kind)

  /** A call target together with the widths it is entered in. */
  datatype Site = Site(pc: nat, width: Width)

  /** What a recovered dispatch contributes: whether it also resumes like a plain instruction, the
      handlers it queues, the successors it is recorded with and, when it has one, its target table.
      A call through a pointer queues handlers that are not among its successors. */
  datatype Dispatch = Dispatch(resumes: bool, queued: seq<Edge>, shown: seq<Key>, table: Option<Table>)

  datatype Table = Table(entries: seq<nat>, long: bool)

  /** Everything one decode depends on. `fetch` reads the instruction at a bank and 16-bit address
      under given widths; `dispatch` stands for the recovery of dispatch tables in a function, from
      cfg and byte patterns. */
  datatype Env = Env(bank: nat, start: nat, width: Width, end: Option<nat>, siblings: Option<set<nat>>,
                     romSize: nat, fetch: (nat, nat, Width) -> Option<Insn>, exits: map<Site, Width>,
                     exitModes: map<Site, set<Width>>, skips: map<nat, nat>,
                     dispatch: (nat, Site, Insn) -> Option<Dispatch>, maxInsns: nat)

  datatype Record<K> = Record(insn: Insn, width: Width, successors: seq<K>, table: Option<Table>)

  type Records = map<Key, Record<Key>>

  /** A decoded function; `order` lists its keys as they were found. */
  datatype Graph = Graph(entry: Key, order: seq<Key>, insns: Records)

  /** A walk along successors; only its last key may lie outside the graph. */
  ghost predicate IsWalk(insns: Records, p: seq<Key>) {
    |p| > 0 && forall i :: 0 <= i < |p| - 1 ==> p[i] in insns && p[i + 1] in insns[p[i]].successors
  }

  const MAX_PHP_DEPTH := 8

  function Pc16(k: Key): nat {
    k.pc % 0x10000
  }

  // ----- One instruction -----

  predicate Bit(operand: nat, weight: nat)
    requires weight > 0
  {
    operand / weight % 2 == 1
  }

  /** The widths and tracked P stack after an instruction. */
  function PostState(insn: Insn, w: Width, pstack: seq<Width>): (Width, seq<Width>) {
    match insn.mnem
    case REP => (Width(w.m && !Bit(insn.operand, 0x20), w.x && !Bit(insn.operand, 0x10)), pstack)
    case SEP => (Width(w.m || Bit(insn.operand, 0x20), w.x || Bit(insn.operand, 0x10)), pstack)
    case PHP => (w, if |pstack| < MAX_PHP_DEPTH then pstack + [w] else pstack)
    case PLP => if |pstack| > 0 then (pstack[|pstack| - 1], pstack[..|pstack| - 1]) else (w, pstack)
    case _ => (w, pstack)
  }

  /** The address a direct call names. */
  function CallTarget(bank: nat, insn: Insn): Option<nat> {
    if insn.mnem == JSR && insn.length == 3 then Some(Addr24(bank, insn.operand))
    else if insn.mnem == JSL then Some(insn.operand % 0x1000000)
    else None
  }

  /** The key under which a table records an address: itself, or its LoROM mirror. */
  function Alias<V>(table: map<Site, V>, pc: nat, w: Width): Option<Site> {
    if Site(pc, w) in table then Some(Site(pc, w))
    else if pc < 0x1000000 && HasMirror(pc) && Site(Mirror(pc), w) in table then Some(Site(Mirror(pc), w))
    else None
  }

  /** Argument bytes after a call that its callee consumes. */
  function Skip(env: Env, target: Option<nat>): nat {
    match target
    case None => 0
    case Some(pc) =>
      if pc in env.skips then env.skips[pc]
      else if pc < 0x1000000 && HasMirror(pc) && Mirror(pc) in env.skips then env.skips[Mirror(pc)]
      else 0
  }

  function Fetch(env: Env, pc: nat, w: Width): Option<Insn> {
    env.fetch(env.bank, pc, w)
  }

  /** The modes a call may resume in when the callee is known to leave in one of at most two and
      the next instruction branches. */
  function ResumeModes(env: Env, pc: nat, w: Width, nextPc: nat): set<Width> {
    match Alias(env.exitModes, pc, w)
    case None => {}
    case Some(site) =>
      var modes := env.exitModes[site];
      if |modes| <= 2 && InRom(env, nextPc) && Branches(Fetch(env, nextPc, w)) then modes else {}
  }

  predicate Branches(insn: Option<Insn>) {
    insn.Some? && IsCondBranch(insn.value.mnem)
  }

  predicate InRom(env: Env, pc: nat) {
    0x8000 <= pc <= 0xFFFF && env.bank % 0x80 * 0x8000 + (pc - 0x8000) < env.romSize
  }

  function ResumeEdges(pc: nat, modes: set<Width>, from: seq<Width>, pstack: seq<Width>): seq<Edge> {
    if from == [] then []
    else (if from[0] in modes then [Edge(Key(pc, from[0], pstack), Fall)] else [])
         + ResumeEdges(pc, modes, from[1..], pstack)
  }

  /** Where a call resumes: in the recorded exit widths of its callee, or unchanged. */
  function CallEdges(env: Env, insn: Insn, next: nat, w: Width, pstack: seq<Width>): seq<Edge> {
    var target := CallTarget(env.bank, insn);
    var resume := (next + Skip(env, target)) % 0x10000;
    var to := Addr24(env.bank, resume);
    if target.None? then
      [Edge(Key(to, w, pstack), Fall)]
    else
      var site := Alias(env.exits, target.value, w);
      var back := if site.Some? then env.exits[site.value] else w;
      var modes := if back == w then ResumeModes(env, target.value, w, resume) else {};
      if modes != {} then ResumeEdges(to, modes, ALL_WIDTHS, pstack) else [Edge(Key(to, back, pstack), Fall)]
  }

  /** The labelled successors of an instruction that is not a recovered dispatch. */
  function LabeledSuccessors(env: Env, insn: Insn, key: Key): seq<Edge> {
    var (w, pstack) := PostState(insn, key.width, key.pstack);
    var next := (Pc16(key) + insn.length) % 0x10000;
    var fall := Edge(Key(Addr24(env.bank, next), w, pstack), Fall);
    var jump := Edge(Key(Addr24(env.bank, insn.operand), w, pstack), Jump);
    if IsTerminator(insn.mnem) then []
    else if insn.mnem in {BRA, BRL} then [jump]
    else if IsCondBranch(insn.mnem) then [fall, jump]
    else if insn.mnem == JMP then if insn.mode == ABS then [jump] else []
    else if insn.mnem in {JSR, JSL} then CallEdges(env, insn, next, w, pstack)
    else [fall]
  }

  /** Only jumps, calls and the PHA of a stack dispatch can be recovered dispatches. */
  function Recovered(env: Env, insn: Insn, key: Key): Option<Dispatch> {
    if insn.mnem in {JMP, JSR, JSL, PHA} then
      env.dispatch(Addr24(env.bank, env.start), Site(key.pc, key.width), insn)
    else
      None
  }

  /** The edges an instruction queues. */
  function Edges(env: Env, insn: Insn, key: Key): seq<Edge> {
    match Recovered(env, insn, key)
    case Some(d) => (if d.resumes then LabeledSuccessors(env, insn, key) else []) + d.queued
    case None => LabeledSuccessors(env, insn, key)
  }

  /** The successors an instruction is recorded with. */
  function Successors(env: Env, insn: Insn, key: Key): seq<Key> {
    match Recovered(env, insn, key)
    case Some(d) => (if d.resumes then Targets(LabeledSuccessors(env, insn, key)) else []) + d.shown
    case None => Targets(LabeledSuccessors(env, insn, key))
  }

  function Targets(edges: seq<Edge>): (r: seq<Key>)
    ensures |r| == |edges| && forall i :: 0 <= i < |r| ==> r[i] == edges[i].to
  {
    if edges == [] then [] else [edges[0].to] + Targets(edges[1..])
  }

  function RecordOf(env: Env, insn: Insn, key: Key): Record<Key> {
    var d := Recovered(env, insn, key);
    Record(insn, key.width, Successors(env, insn, key), if d.Some? then d.value.table else None)
  }

  // ----- The worklist -----

  datatype Item = Item(key: Key, kind: Kind, from: int)

  /** The gates an edge must pass before its target is decoded. */
  predicate Admits(env: Env, item: Item) {
    var pc := Pc16(item.key);
    && !(env.end.Some? && pc >= env.end.value && item.kind == Fall && 0 <= item.from < env.end.value)
    && !(env.siblings.Some? && item.kind == Jump && pc in env.siblings.value)
    && InRom(env, pc)
  }

  function Seed(env: Env): Item {
    Item(Key(Addr24(env.bank, env.start), env.width, []), Start, -1)
  }

  function InsnAt(env: Env, key: Key): Option<Insn> {
    Fetch(env, Pc16(key), key.width)
  }

  /** The item an instruction's edge puts on the worklist. */
  function Along(k: Key, e: Edge): Item {
    Item(e.to, e.kind, Pc16(k))
  }

  function EdgesAt(env: Env, k: Key): seq<Edge> {
    match InsnAt(env, k)
    case Some(insn) => Edges(env, insn, k)
    case None => []
  }

  /** `b` is the target of an edge of the instruction at `a` that passes the gates. */
  ghost predicate Accepted(env: Env, a: Key, b: Key) {
    exists e :: e in EdgesAt(env, a) && e.to == b && Admits(env, Along(a, e))
  }

  /** A run of decode edges from the entry that passes every gate. */
  ghost predicate IsTrail(env: Env, p: seq<Key>) {
    && |p| > 0 && p[0] == Seed(env).key && Admits(env, Seed(env))
    && forall i :: 0 <= i < |p| - 1 ==> Accepted(env, p[i], p[i + 1])
  }

  ghost predicate Reached(env: Env, k: Key) {
    exists p :: IsTrail(env, p) && p[|p| - 1] == k
  }

  datatype Outcome =
    | Decoded(order: seq<Key>, insns: Records)
    | UnknownOpcode(at: Key)
    | TooManyInsns(found: set<Key>)

  ghost predicate Exact(env: Env, k: Key, r: Record<Key>) {
    InsnAt(env, k).Some? && r == RecordOf(env, InsnAt(env, k).value, k)
  }

  // ----- Invariants of the worklist -----

  /** Why an item is on the worklist: it is the seed, or an edge of a decoded instruction. */
  ghost predicate Justified(env: Env, insns: Records, item: Item) {
    || item == Seed(env)
    || exists k, e :: k in insns && e in EdgesAt(env, k) && item == Along(k, e)
  }

  /** An item that passes the gates is decoded or still waiting. */
  ghost predicate Handled(env: Env, insns: Records, work: seq<Item>, item: Item) {
    Admits(env, item) ==> item.key in insns || item in work
  }

  ghost predicate Sound(env: Env, insns: Records, work: seq<Item>) {
    && (forall k :: k in insns ==> Reached(env, k) && Exact(env, k, insns[k]))
    && (forall item :: item in work ==> Justified(env, insns, item))
  }

  ghost predicate Complete(env: Env, insns: Records, work: seq<Item>) {
    && Handled(env, insns, work, Seed(env))
    && (forall k, e :: k in insns && e in EdgesAt(env, k) ==> Handled(env, insns, work, Along(k, e)))
  }

  lemma ReachedSeed(env: Env)
    requires Admits(env, Seed(env))
    ensures Reached(env, Seed(env).key)
  {
    assert IsTrail(env, [Seed(env).key]);
  }

  lemma ReachedStep(env: Env, a: Key, b: Key)
    requires Reached(env, a) && Accepted(env, a, b)
    ensures Reached(env, b)
  {
    var p :| IsTrail(env, p) && p[|p| - 1] == a;
    var q := p + [b];
    forall i | 0 <= i < |q| - 1
      ensures Accepted(env, q[i], q[i + 1])
    {
      if i < |p| - 1 { assert Accepted(env, p[i], p[i + 1]); }
    }
    assert IsTrail(env, q) && q[|q| - 1] == b;
  }

  lemma ItemReached(env: Env, insns: Records, work: seq<Item>, item: Item)
    requires Sound(env, insns, work) && item in work && Admits(env, item)
    ensures Reached(env, item.key)
  {
    if item == Seed(env) {
      ReachedSeed(env);
    } else {
      assert Justified(env, insns, item);
      var k, e :| k in insns && e in EdgesAt(env, k) && item == Along(k, e);
      assert Accepted(env, k, item.key);
      ReachedStep(env, k, item.key);
    }
  }

  lemma TrailPrefix(env: Env, p: seq<Key>, n: nat)
    requires IsTrail(env, p) && n < |p|
    ensures IsTrail(env, p[..n + 1])
  {
    var q := p[..n + 1];
    forall i | 0 <= i < |q| - 1
      ensures Accepted(env, q[i], q[i + 1])
    {
      assert Accepted(env, p[i], p[i + 1]);
    }
  }

  lemma EdgeInside(env: Env, insns: Records, a: Key, b: Key)
    requires Complete(env, insns, []) && a in insns && Accepted(env, a, b)
    ensures b in insns
  {
    var e :| e in EdgesAt(env, a) && e.to == b && Admits(env, Along(a, e));
    assert Handled(env, insns, [], Along(a, e));
  }

  lemma {:induction false} TrailInside(env: Env, insns: Records, p: seq<Key>, n: nat)
    requires Complete(env, insns, []) && IsTrail(env, p) && n < |p|
    ensures p[n] in insns
    decreases n
  {
    if n == 0 {
      assert Handled(env, insns, [], Seed(env));
    } else {
      TrailInside(env, insns, p, n - 1);
      assert Accepted(env, p[n - 1], p[n - 1 + 1]);
      EdgeInside(env, insns, p[n - 1], p[n]);
    }
  }

  lemma Skipped(env: Env, insns: Records, rest: seq<Item>, item: Item)
    requires Sound(env, insns, rest + [item]) && Complete(env, insns, rest + [item])
    requires item.key in insns || !Admits(env, item)
    ensures Sound(env, insns, rest) && Complete(env, insns, rest)
  {
    forall it | Handled(env, insns, rest + [item], it)
      ensures Handled(env, insns, rest, it)
    {
    }
    forall it | it in rest
      ensures Justified(env, insns, it)
    {
      assert it in rest + [item];
    }
  }

  /** The items an instruction adds: its edges whose targets are not decoded yet. */
  function Pushes(insns: set<Key>, k: Key, edges: seq<Edge>): (r: seq<Item>)
    ensures forall item :: item in r ==> exists e :: e in edges && item == Along(k, e)
    ensures forall e :: e in edges && e.to !in insns ==> Along(k, e) in r
  {
    if edges == [] then [] else
      (if edges[0].to in insns then [] else [Along(k, edges[0])]) + Pushes(insns, k, edges[1..])
  }

  lemma GrownSound(env: Env, insns: Records, rest: seq<Item>, item: Item, r: Record<Key>, pushed: seq<Item>)
    requires Sound(env, insns, rest + [item]) && Admits(env, item) && Exact(env, item.key, r)
    requires forall it :: it in pushed ==> exists e :: e in EdgesAt(env, item.key) && it == Along(item.key, e)
    ensures Sound(env, insns[item.key := r], rest + pushed)
  {
    var grown := insns[item.key := r];
    ItemReached(env, insns, rest + [item], item);
    forall it | it in rest + pushed
      ensures Justified(env, grown, it)
    {
      if it in pushed {
        assert item.key in grown;
      } else {
        assert it in rest + [item];
        assert Justified(env, insns, it);
        if it != Seed(env) {
          var k, e :| k in insns && e in EdgesAt(env, k) && it == Along(k, e);
          assert k in grown;
        }
      }
    }
  }

  lemma GrownComplete(env: Env, insns: Records, rest: seq<Item>, item: Item, r: Record<Key>, pushed: seq<Item>)
    requires Complete(env, insns, rest + [item])
    requires forall e :: e in EdgesAt(env, item.key) && e.to !in insns[item.key := r] ==> Along(item.key, e) in pushed
    ensures Complete(env, insns[item.key := r], rest + pushed)
  {
    var grown := insns[item.key := r];
    forall it | Handled(env, insns, rest + [item], it)
      ensures Handled(env, grown, rest + pushed, it)
    {
    }
    forall k, e | k in grown && e in EdgesAt(env, k)
      ensures Handled(env, grown, rest + pushed, Along(k, e))
    {
      if k != item.key {
        assert Handled(env, insns, rest + [item], Along(k, e));
      }
    }
  }

  /** What a decode returns: exactly the keys the entry reaches through accepted edges, each with
      its record; or a reached key without an instruction; or as many reached keys as the limit. */
  ghost predicate DecodesTo(env: Env, out: Outcome) {
    match out
    case Decoded(order, insns) =>
      && Lists(order, insns)
      && (forall k :: k in insns <==> Reached(env, k))
      && (forall k :: k in insns ==> Exact(env, k, insns[k]))
    case UnknownOpcode(at) => Reached(env, at) && InsnAt(env, at).None?
    case TooManyInsns(found) => |found| >= env.maxInsns && forall k :: k in found ==> Reached(env, k)
  }

  /** What holds each time the worklist is looked at. */
  ghost predicate Progress(env: Env, order: seq<Key>, insns: Records, work: seq<Item>) {
    Lists(order, insns) && Sound(env, insns, work) && Complete(env, insns, work)
  }

  lemma Begun(env: Env)
    ensures Progress(env, [], map[], [Seed(env)])
  {
  }

  lemma Drained(env: Env, order: seq<Key>, insns: Records)
    requires Progress(env, order, insns, [])
    ensures DecodesTo(env, Decoded(order, insns))
  {
    forall k | Reached(env, k)
      ensures k in insns
    {
      var p :| IsTrail(env, p) && p[|p| - 1] == k;
      TrailInside(env, insns, p, |p| - 1);
    }
  }

  lemma Overflowed(env: Env, order: seq<Key>, insns: Records, work: seq<Item>)
    requires Progress(env, order, insns, work) && |insns| >= env.maxInsns
    ensures DecodesTo(env, TooManyInsns(insns.Keys))
  {
    assert |insns.Keys| == |insns|;
  }

  lemma Undecodable(env: Env, order: seq<Key>, insns: Records, work: seq<Item>, item: Item)
    requires Progress(env, order, insns, work) && item in work && Admits(env, item) && InsnAt(env, item.key).None?
    ensures DecodesTo(env, UnknownOpcode(item.key))
  {
    ItemReached(env, insns, work, item);
  }

  lemma PassedOver(env: Env, order: seq<Key>, insns: Records, work: seq<Item>)
    requires Progress(env, order, insns, work) && work != []
    requires Last(work).key in insns || !Admits(env, Last(work))
    ensures Progress(env, order, insns, Rest(work))
  {
    LastRest(work);
    Skipped(env, insns, Rest(work), Last(work));
  }

  lemma LastRest<T>(s: seq<T>)
    requires s != []
    ensures s == Rest(s) + [Last(s)]
  {
  }

  function Last<T>(s: seq<T>): T
    requires s != []
  {
    s[|s| - 1]
  }

  function Rest<T>(s: seq<T>): seq<T>
    requires s != []
  {
    s[..|s| - 1]
  }

  lemma Grown(env: Env, order: seq<Key>, insns: Records, rest: seq<Item>, item: Item, insn: Insn)
    requires Progress(env, order, insns, rest + [item]) && item.key !in insns && Admits(env, item)
    requires InsnAt(env, item.key) == Some(insn)
    ensures Progress(env, order + [item.key], insns[item.key := RecordOf(env, insn, item.key)],
                     rest + Pushes(insns.Keys + {item.key}, item.key, Edges(env, insn, item.key)))
  {
    var r := RecordOf(env, insn, item.key);
    var pushed := Pushes(insns.Keys + {item.key}, item.key, Edges(env, insn, item.key));
    GrownSound(env, insns, rest, item, r, pushed);
    GrownComplete(env, insns, rest, item, r, pushed);
    ListsGrow(order, insns, item.key, r);
  }

  /** Records one instruction and queues its edges. */
  method Grow(env: Env, order: seq<Key>, insns: Records, work: seq<Item>, insn: Insn)
    returns (order': seq<Key>, insns': Records, work': seq<Item>)
    requires Progress(env, order, insns, work) && work != []
    requires Last(work).key !in insns && Admits(env, Last(work)) && InsnAt(env, Last(work).key) == Some(insn)
    ensures Progress(env, order', insns', work') && |insns'| == |insns| + 1
  {
    var item, rest := Last(work), Rest(work);
    var edges := Edges(env, insn, item.key);
    assert work == rest + [item];
    Grown(env, order, insns, rest, item, insn);
    work' := rest + Pushes(insns.Keys + {item.key}, item.key, edges);
    order', insns' := order + [item.key], insns[item.key := RecordOf(env, insn, item.key)];
  }

  method DecodeFunction(env: Env) returns (out: Outcome)
    ensures DecodesTo(env, out)
  {
    var order: seq<Key>, insns: Records := [], map[];
    var work := [Seed(env)];
    Begun(env);
    while work != []
      invariant Progress(env, order, insns, work) && |insns| <= env.maxInsns
      decreases env.maxInsns - |insns|, |work|
    {
      if |insns| >= env.maxInsns {
        Overflowed(env, order, insns, work);
        return TooManyInsns(insns.Keys);
      }
      var item := Last(work);
      if item.key in insns || !Admits(env, item) {
        PassedOver(env, order, insns, work);
        work := Rest(work);
      } else {
        var insn := InsnAt(env, item.key);
        if insn.None? {
          Undecodable(env, order, insns, work, item);
          return UnknownOpcode(item.key);
        }
        order, insns, work := Grow(env, order, insns, work, insn.value);
      }
    }
    Drained(env, order, insns);
    return Decoded(order, insns);
  }

  /** A run of accepted edges never leaves the decoded graph, and each key on it has a record of
      its own, decoded under its own widths: two modes reaching one address keep two records. */
  lemma {:induction false} TrailDecoded(env: Env, order: seq<Key>, insns: Records, p: seq<Key>, n: nat)
    requires DecodesTo(env, Decoded(order, insns)) && IsTrail(env, p) && n < |p|
    ensures p[n] in insns && insns[p[n]].width == p[n].width
    ensures Some(insns[p[n]].insn) == env.fetch(env.bank, p[n].pc % 0x10000, p[n].width)
    ensures n + 1 < |p| && Recovered(env, insns[p[n]].insn, p[n]).None? ==> p[n + 1] in insns[p[n]].successors
  {
    TrailPrefix(env, p, n);
    var q := p[..n + 1];
    assert q[|q| - 1] == p[n];
    assert Reached(env, p[n]);
    if n + 1 < |p| && Recovered(env, insns[p[n]].insn, p[n]).None? {
      assert Accepted(env, p[n], p[n + 1]);
      AcceptedIsSuccessor(env, p[n], p[n + 1], insns[p[n]]);
    }
  }

  lemma AcceptedIsSuccessor(env: Env, a: Key, b: Key, r: Record<Key>)
    requires Accepted(env, a, b) && Exact(env, a, r) && Recovered(env, r.insn, a).None?
    ensures b in r.successors
  {
    var e :| e in EdgesAt(env, a) && e.to == b && Admits(env, Along(a, e));
    var i :| 0 <= i < |EdgesAt(env, a)| && EdgesAt(env, a)[i] == e;
    assert r.successors[i] == b;
  }

  lemma CallIsLabeled(env: Env, k: Key, insn: Insn)
    requires CallTarget(env.bank, insn).Some? && Recovered(env, insn, k).None?
    ensures Edges(env, insn, k) == CallEdges(env, insn, (Pc16(k) + insn.length) % 0x10000, k.width, k.pstack)
    ensures Successors(env, insn, k) == Targets(Edges(env, insn, k))
  {
  }

  // ----- Bounding a decode -----

  /** Keys with instructions, the entry among them, that no accepted edge leaves. */
  ghost predicate Confines(env: Env, ks: seq<Key>) {
    && Seed(env).key in ks && Admits(env, Seed(env))
    && (forall k :: k in ks ==> InsnAt(env, k).Some?)
    && (forall k, e :: k in ks && e in EdgesAt(env, k) && Admits(env, Along(k, e)) ==> e.to in ks)
  }

  lemma {:induction false} TrailConfined(env: Env, ks: seq<Key>, p: seq<Key>, n: nat)
    requires Confines(env, ks) && IsTrail(env, p) && n < |p|
    ensures p[n] in ks
    decreases n
  {
    if n > 0 {
      TrailConfined(env, ks, p, n - 1);
      assert Accepted(env, p[n - 1], p[n - 1 + 1]);
    }
  }

  lemma {:induction false} ListedSize(s: set<Key>, ks: seq<Key>)
    requires forall k :: k in s ==> k in ks
    ensures |s| <= |ks|
    decreases |ks|
  {
    if ks == [] {
      assert s == {};
    } else {
      ListedSize(s - {ks[0]}, ks[1..]);
      assert s <= (s - {ks[0]}) + {ks[0]};
      Subsets(s, (s - {ks[0]}) + {ks[0]});
    }
  }

  lemma Subsets(a: set<Key>, b: set<Key>)
    requires a <= b
    ensures |a| <= |b|
  {
    assert b == a + (b - a);
  }

  lemma ReachedConfined(env: Env, ks: seq<Key>, k: Key)
    requires Confines(env, ks) && Reached(env, k)
    ensures k in ks
  {
    var p :| IsTrail(env, p) && p[|p| - 1] == k;
    TrailConfined(env, ks, p, |p| - 1);
  }

  /** Fewer such keys than the limit make every decode succeed among them. */
  lemma MustDecode(env: Env, ks: seq<Key>, out: Outcome)
    requires Confines(env, ks) && |ks| < env.maxInsns && DecodesTo(env, out)
    ensures out.Decoded? && forall k :: k in out.insns ==> k in ks
  {
    forall k | Reached(env, k)
      ensures k in ks
    {
      ReachedConfined(env, ks, k);
    }
    match out
    case Decoded(order, insns) =>
    case UnknownOpcode(at) =>
    case TooManyInsns(found) => ListedSize(found, ks);
  }
}
