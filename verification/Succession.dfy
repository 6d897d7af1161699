/** Where control goes after an instruction, spelled out by mnemonic and by the parts of an address. */
module Succession {
  import opened Machine
  import opened Decoder

  /** The key at an address of the function's bank. */
  predicate IsAt(env: Env, k: Key, pc: nat, w: Width, pstack: seq<Width>) {
    k.pc < 0x1000000 && k.pc / 0x10000 == env.bank % 0x100 && k.pc % 0x10000 == pc % 0x10000 && k.width == w &&
    k.pstack == pstack
  }

  predicate FallsTo(env: Env, e: Edge, pc: nat, w: Width, pstack: seq<Width>) {
    e.kind == Fall && IsAt(env, e.to, pc, w, pstack)
  }

  predicate JumpsTo(env: Env, e: Edge, pc: nat, w: Width, pstack: seq<Width>) {
    e.kind == Jump && IsAt(env, e.to, pc, w, pstack)
  }

  lemma AddrParts(bank: nat, pc: nat)
    ensures var a := Addr24(bank, pc);
            a < 0x1000000 && a / 0x10000 == bank % 0x100 && a % 0x10000 == pc % 0x10000 && Bank(a) == bank % 0x100
  {
  }

  /** Returns, STP, WAI and BRK lead nowhere, and so do jumps that are not absolute; branches and absolute
      jumps go to their operand, conditional ones also on to the next address; any other instruction
      goes on to the next address. */
  predicate GoesOn(env: Env, insn: Insn, edges: seq<Edge>, next: nat, w: Width, ps: seq<Width>) {
    if insn.mnem in {RTS, RTL, RTI, STP, WAI, BRK} || (insn.mnem == JMP && insn.mode != ABS) then
      edges == []
    else if insn.mnem in {BRA, BRL, JMP} then
      |edges| == 1 && JumpsTo(env, edges[0], insn.operand, w, ps)
    else if insn.mnem in {BPL, BMI, BVC, BVS, BCC, BCS, BNE, BEQ} then
      |edges| == 2 && FallsTo(env, edges[0], next, w, ps) && JumpsTo(env, edges[1], insn.operand, w, ps)
    else
      |edges| == 1 && FallsTo(env, edges[0], next, w, ps)
  }

  lemma FallIs(env: Env, k: Key, insn: Insn, w: Width, ps: seq<Width>)
    ensures FallsTo(env, Edge(Key(Addr24(env.bank, (Pc16(k) + insn.length) % 0x10000), w, ps), Fall),
                    Pc16(k) + insn.length, w, ps)
  {
    AddrParts(env.bank, (Pc16(k) + insn.length) % 0x10000);
  }

  lemma JumpIs(env: Env, insn: Insn, w: Width, ps: seq<Width>)
    ensures JumpsTo(env, Edge(Key(Addr24(env.bank, insn.operand), w, ps), Jump), insn.operand, w, ps)
  {
    AddrParts(env.bank, insn.operand);
  }

  /** The edges, for an edge to the next address and one to the operand. */
  function Ways(insn: Insn, fall: Edge, jump: Edge): seq<Edge> {
    if insn.mnem in {RTS, RTL, RTI, STP, WAI, BRK} || (insn.mnem == JMP && insn.mode != ABS) then []
    else if insn.mnem in {BRA, BRL, JMP} then [jump]
    else if insn.mnem in {BPL, BMI, BVC, BVS, BCC, BCS, BNE, BEQ} then [fall, jump]
    else [fall]
  }

  lemma WaysAre(env: Env, k: Key, insn: Insn, w: Width, ps: seq<Width>)
    requires Recovered(env, insn, k).None? && insn.mnem !in {JSR, JSL} && (w, ps) == PostState(insn, k.width, k.pstack)
    ensures Edges(env, insn, k) ==
            Ways(insn, Edge(Key(Addr24(env.bank, (Pc16(k) + insn.length) % 0x10000), w, ps), Fall),
                 Edge(Key(Addr24(env.bank, insn.operand), w, ps), Jump))
  {
  }

  lemma WaysGoOn(env: Env, insn: Insn, fall: Edge, jump: Edge, next: nat, w: Width, ps: seq<Width>)
    requires FallsTo(env, fall, next, w, ps) && JumpsTo(env, jump, insn.operand, w, ps)
    ensures GoesOn(env, insn, Ways(insn, fall, jump), next, w, ps)
  {
  }

  lemma Edges65816(env: Env, k: Key, insn: Insn, edges: seq<Edge>, w: Width, ps: seq<Width>)
    requires Recovered(env, insn, k).None? && insn.mnem !in {JSR, JSL} && (w, ps) == PostState(insn, k.width, k.pstack)
    requires edges == Edges(env, insn, k)
    ensures GoesOn(env, insn, edges, Pc16(k) + insn.length, w, ps)
  {
    var fall := Edge(Key(Addr24(env.bank, (Pc16(k) + insn.length) % 0x10000), w, ps), Fall);
    var jump := Edge(Key(Addr24(env.bank, insn.operand), w, ps), Jump);
    WaysAre(env, k, insn, w, ps);
    FallIs(env, k, insn, w, ps);
    JumpIs(env, insn, w, ps);
    WaysGoOn(env, insn, fall, jump, Pc16(k) + insn.length, w, ps);
  }

  /** Jumps, calls and PHA may be recovered as dispatches of the function, which is known by its start
      address; nothing else may. */
  lemma DispatchAsked(env: Env, k: Key, insn: Insn, start: nat)
    requires start < 0x1000000 && start / 0x10000 == env.bank % 0x100 && start % 0x10000 == env.start % 0x10000
    ensures Recovered(env, insn, k) ==
            if insn.mnem in {JMP, JSR, JSL, PHA} then env.dispatch(start, Site(k.pc, k.width), insn) else None
  {
    AddrParts(env.bank, env.start);
    assert start == Addr24(env.bank, env.start);
  }

  /** A dispatch queues its handlers after the edges of the plain instruction, if it also resumes, and is
      recorded with its own successors after the plain ones. */
  lemma DispatchEdges(env: Env, k: Key, insn: Insn, d: Dispatch)
    requires Recovered(env, insn, k) == Some(d)
    ensures d.queued <= Edges(env, insn, k)[|Edges(env, insn, k)| - |d.queued|..]
    ensures |Edges(env, insn, k)| == |d.queued| + if d.resumes then |LabeledSuccessors(env, insn, k)| else 0
    ensures d.resumes ==> LabeledSuccessors(env, insn, k) <= Edges(env, insn, k)
    ensures RecordOf(env, insn, k).table == d.table
    ensures forall s :: s in RecordOf(env, insn, k).successors <==>
              s in d.shown || (d.resumes && exists e :: e in LabeledSuccessors(env, insn, k) && e.to == s)
  {
    var plain := LabeledSuccessors(env, insn, k);
    forall s
      ensures s in Targets(plain) <==> exists e :: e in plain && e.to == s
    {
      if s in Targets(plain) {
        var j :| 0 <= j < |plain| && Targets(plain)[j] == s;
        assert plain[j] in plain;
      }
      if e :| e in plain && e.to == s {
        var j :| 0 <= j < |plain| && plain[j] == e;
        assert Targets(plain)[j] == s;
      }
    }
  }

  /** The tracking keeps the widths and the saved widths where it does not keep up with the processor. */
  lemma Untracked(insn: Insn, w: Width, pstack: seq<Width>)
    ensures insn.mnem == PHP ==> PostState(insn, w, pstack) == (w, if |pstack| >= 8 then pstack else pstack + [w])
    ensures insn.mnem == PLP && pstack == [] ==> PostState(insn, w, pstack) == (w, pstack)
    ensures insn.mnem !in {REP, SEP, PHP, PLP} ==> PostState(insn, w, pstack) == (w, pstack)
  {
  }

  // ----- Calls -----

  /** A table is asked for the address itself, and then for its mirror. */
  lemma LookedUp<V>(table: map<Site, V>, pc: nat, w: Width)
    ensures match Alias(table, pc, w)
            case Some(s) => s in table && s.width == w && (s.pc == pc || (Site(pc, w) !in table && MirrorsOf(pc, s.pc)))
            case None => Site(pc, w) !in table && forall m :: MirrorsOf(pc, m) ==> Site(m, w) !in table
  {
    if pc < 0x1000000 {
      forall m
        ensures HasMirror(pc) && m == Mirror(pc) <==> MirrorsOf(pc, m)
      {
        MirrorIs(pc, m);
      }
    }
  }

  /** A short call stays in its bank, a long one names all 24 bits; a call through a table names
      nothing. */
  lemma TargetIs(bank: nat, insn: Insn)
    ensures insn.mnem == JSR && insn.length == 3 ==>
              CallTarget(bank, insn).Some? && Bank(CallTarget(bank, insn).value) == bank % 0x100 &&
              CallTarget(bank, insn).value % 0x10000 == insn.operand % 0x10000
    ensures insn.mnem == JSL && insn.operand < 0x1000000 ==> CallTarget(bank, insn) == Some(insn.operand)
    ensures insn.mnem == JSR && insn.length != 3 ==> CallTarget(bank, insn).None?
    ensures insn.mnem !in {JSR, JSL} ==> CallTarget(bank, insn).None?
  {
    AddrParts(bank, insn.operand);
  }

  /** The inline arguments of a callee are skipped, also where only its mirror is known to take them. */
  lemma SkipIs(env: Env, pc: nat)
    ensures pc in env.skips ==> Skip(env, Some(pc)) == env.skips[pc]
    ensures pc !in env.skips ==> forall m :: MirrorsOf(pc, m) && m in env.skips ==> Skip(env, Some(pc)) == env.skips[m]
    ensures pc !in env.skips && (forall m :: MirrorsOf(pc, m) ==> m !in env.skips) ==> Skip(env, Some(pc)) == 0
    ensures Skip(env, None) == 0
  {
    if pc < 0x1000000 {
      forall m
        ensures HasMirror(pc) && m == Mirror(pc) <==> MirrorsOf(pc, m)
      {
        MirrorIs(pc, m);
      }
    }
  }

  /** The widths in which a call may resume: the recorded exit of its callee; or, where none is recorded
      that changes the widths, each of the one or two modes the callee may leave in, if the next
      instruction is a conditional branch; or else the widths of the call. */
  predicate ResumesAs(env: Env, target: nat, w: Width, next: nat, v: Width) {
    var exit, modes := Alias(env.exits, target, w), Alias(env.exitModes, target, w);
    if exit.Some? && env.exits[exit.value] != w then
      v == env.exits[exit.value]
    else if modes.Some? && 1 <= |env.exitModes[modes.value]| <= 2 && BranchesAt(env, next, w) then
      v in env.exitModes[modes.value]
    else
      v == w
  }

  predicate BranchesAt(env: Env, pc: nat, w: Width) {
    && 0x8000 <= pc < 0x10000 && (env.bank % 0x80) * 0x8000 + pc < env.romSize + 0x8000
    && env.fetch(env.bank, pc, w).Some?
    && env.fetch(env.bank, pc, w).value.mnem in {BPL, BMI, BVC, BVS, BCC, BCS, BNE, BEQ}
  }

  ghost predicate SomeEdge(edges: seq<Edge>, v: Width) {
    exists e :: e in edges && e.to.width == v
  }

  lemma {:induction false} ModesListed(pc: nat, modes: set<Width>, from: seq<Width>, pstack: seq<Width>, v: Width)
    ensures SomeEdge(ResumeEdges(pc, modes, from, pstack), v) <==> v in modes && v in from
    ensures forall e :: e in ResumeEdges(pc, modes, from, pstack) ==>
              e.kind == Fall && e.to == Key(pc, e.to.width, pstack)
    decreases |from|
  {
    if from != [] {
      ModesListed(pc, modes, from[1..], pstack, v);
      var head := if from[0] in modes then [Edge(Key(pc, from[0], pstack), Fall)] else [];
      var rest := ResumeEdges(pc, modes, from[1..], pstack);
      assert ResumeEdges(pc, modes, from, pstack) == head + rest;
      if v in modes && v == from[0] { assert head[0] in head + rest; }
      if SomeEdge(rest, v) {
        var e :| e in rest && e.to.width == v;
        assert e in head + rest;
      }
    }
  }

  /** The modes that are tried, and whether there are any. */
  lemma ModesAre(env: Env, target: nat, w: Width, next: nat)
    ensures var modes, site := ResumeModes(env, target, w, next), Alias(env.exitModes, target, w);
            if site.Some? && 1 <= |env.exitModes[site.value]| <= 2 && BranchesAt(env, next, w)
            then modes == env.exitModes[site.value] && modes != {}
            else modes == {}
  {
    var site := Alias(env.exitModes, target, w);
    if site.Some? && |env.exitModes[site.value]| == 0 {
      assert env.exitModes[site.value] == {};
    }
  }

  lemma OneEdge(e: Edge, v: Width)
    ensures SomeEdge([e], v) <==> e.to.width == v
  {
    assert [e][0] in [e];
  }

  /** The edges of a call: one, or one for each mode that is tried. */
  lemma CallEdgesAre(env: Env, insn: Insn, first: nat, w: Width, ps: seq<Width>, target: nat, next: nat)
    requires CallTarget(env.bank, insn) == Some(target) && next == (first + Skip(env, Some(target))) % 0x10000
    ensures var site, modes := Alias(env.exits, target, w), ResumeModes(env, target, w, next);
            var back, to := if site.Some? then env.exits[site.value] else w, Addr24(env.bank, next);
            CallEdges(env, insn, first, w, ps) ==
            if back == w && modes != {} then ResumeEdges(to, modes, ALL_WIDTHS, ps) else [Edge(Key(to, back, ps), Fall)]
  {
  }

  lemma CallFalls(env: Env, insn: Insn, first: nat, w: Width, ps: seq<Width>, target: nat, next: nat)
    requires CallTarget(env.bank, insn) == Some(target) && next == (first + Skip(env, Some(target))) % 0x10000
    ensures forall e :: e in CallEdges(env, insn, first, w, ps) ==>
              e.kind == Fall && e.to == Key(Addr24(env.bank, next), e.to.width, ps)
  {
    CallEdgesAre(env, insn, first, w, ps, target, next);
    ModesListed(Addr24(env.bank, next), ResumeModes(env, target, w, next), ALL_WIDTHS, ps, w);
  }

  lemma CallGives(env: Env, insn: Insn, first: nat, w: Width, ps: seq<Width>, target: nat, v: Width, next: nat)
    requires CallTarget(env.bank, insn) == Some(target) && next == (first + Skip(env, Some(target))) % 0x10000
    ensures SomeEdge(CallEdges(env, insn, first, w, ps), v) <==> ResumesAs(env, target, w, next, v)
  {
    var site, to := Alias(env.exits, target, w), Addr24(env.bank, next);
    var back := if site.Some? then env.exits[site.value] else w;
    CallEdgesAre(env, insn, first, w, ps, target, next);
    ModesAre(env, target, w, next);
    ModesListed(to, ResumeModes(env, target, w, next), ALL_WIDTHS, ps, v);
    assert ALL_WIDTHS[WidthIndex(v)] == v;
    OneEdge(Edge(Key(to, back, ps), Fall), v);
  }

  /** A call resumes after itself and the inline arguments of its callee, in the same saved widths. */
  lemma CallsResume(env: Env, k: Key, insn: Insn, target: nat, v: Width, first: nat, next: nat, edges: seq<Edge>)
    requires Recovered(env, insn, k).None? && CallTarget(env.bank, insn) == Some(target) && edges == Edges(env, insn, k)
    requires first == (Pc16(k) + insn.length) % 0x10000 && next == (first + Skip(env, Some(target))) % 0x10000
    ensures forall e :: e in edges ==> FallsTo(env, e, next, e.to.width, k.pstack)
    ensures SomeEdge(edges, v) <==> ResumesAs(env, target, k.width, next, v)
  {
    CallIsMade(env, k, insn, first, edges);
    CallMade(env, insn, first, k.width, k.pstack, target, v, next);
  }

  lemma CallIsMade(env: Env, k: Key, insn: Insn, first: nat, edges: seq<Edge>)
    requires Recovered(env, insn, k).None? && CallTarget(env.bank, insn).Some? && edges == Edges(env, insn, k)
    requires first == (Pc16(k) + insn.length) % 0x10000
    ensures edges == CallEdges(env, insn, first, k.width, k.pstack)
  {
    CallIsLabeled(env, k, insn);
  }

  lemma CallMade(env: Env, insn: Insn, first: nat, w: Width, ps: seq<Width>, target: nat, v: Width, next: nat)
    requires CallTarget(env.bank, insn) == Some(target) && next == (first + Skip(env, Some(target))) % 0x10000
    ensures forall e :: e in CallEdges(env, insn, first, w, ps) ==> FallsTo(env, e, next, e.to.width, ps)
    ensures SomeEdge(CallEdges(env, insn, first, w, ps), v) <==> ResumesAs(env, target, w, next, v)
  {
    CallFalls(env, insn, first, w, ps, target, next);
    CallGives(env, insn, first, w, ps, target, v, next);
    forall e | e in CallEdges(env, insn, first, w, ps)
      ensures FallsTo(env, e, next, e.to.width, ps)
    {
      AddrParts(env.bank, next);
    }
  }

  /** A call through a table that was not recovered resumes after itself as it was made. */
  lemma UnknownCallResumes(env: Env, k: Key, insn: Insn, edges: seq<Edge>)
    requires Recovered(env, insn, k).None? && insn.mnem == JSR && insn.length != 3 && edges == Edges(env, insn, k)
    ensures |edges| == 1 && FallsTo(env, edges[0], Pc16(k) + insn.length, k.width, k.pstack)
  {
    var next := (Pc16(k) + insn.length) % 0x10000;
    assert edges == CallEdges(env, insn, next, k.width, k.pstack);
    assert next % 0x10000 == next;
    FallIs(env, k, insn, k.width, k.pstack);
  }
}
