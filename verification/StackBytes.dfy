/** The stack instructions executed byte by byte, against the stack delta that the trampoline scan
    counts with. */
module StackBytes {
  import opened Machine
  import opened Graphs
  import opened Blocks
  import opened Trampolines

  /** The registers that are pushed and pulled, the stack pointer and the bytes of bank 0. */
  datatype Cpu = Cpu(a: nat, x: nat, y: nat, d: nat, dbr: nat, pbr: nat, p: nat, S: nat, ram: map<nat, nat>)

  function PushByte(c: Cpu, v: nat): Cpu {
    c.(ram := c.ram[c.S := v % 0x100], S := (c.S - 1) % 0x10000)
  }

  /** Bytes pushed one after the other. */
  function PushAll(c: Cpu, bytes: seq<nat>): Cpu
    decreases |bytes|
  {
    if bytes == [] then c else PushAll(PushByte(c, bytes[0]), bytes[1..])
  }

  function PullByte(c: Cpu): (Cpu, nat) {
    var a := (c.S + 1) % 0x10000;
    (c.(S := a), if a in c.ram then c.ram[a] else 0)
  }

  /** `n` bytes pulled, the low one first, and the number they make. */
  function PullAll(c: Cpu, n: nat): (Cpu, nat)
    decreases n
  {
    if n == 0 then (c, 0)
    else
      var (c1, low) := PullByte(c);
      var (c2, rest) := PullAll(c1, n - 1);
      (c2, low + 0x100 * rest)
  }

  function Bytes(narrow: bool): nat {
    if narrow then 1 else 2
  }

  /** The bytes of a register or operand that is 8 or 16 bits wide, the high one first. */
  function Split(narrow: bool, v: nat): (bytes: seq<nat>)
    ensures |bytes| == Bytes(narrow)
  {
    if narrow then [v % 0x100] else [v / 0x100 % 0x100, v % 0x100]
  }

  /** The bytes that a push instruction pushes; `word` is what PEA, PEI or PER push. A is as wide as M
      says, X and Y are as wide as X says, D has two bytes and P and the bank registers have one. */
  function Pushed(c: Cpu, mnem: Mnem, w: Width, word: nat): seq<nat> {
    match mnem
    case PHD => Split(false, c.d)
    case PHP => Split(true, c.p)
    case PHB => Split(true, c.dbr)
    case PHK => Split(true, c.pbr)
    case PHA => Split(w.m, c.a)
    case PHX => Split(w.x, c.x)
    case PHY => Split(w.x, c.y)
    case _ => Split(false, word)
  }

  /** The number of bytes that a pull instruction pulls. */
  function Pulled(mnem: Mnem, w: Width): nat {
    match mnem
    case PLP => Bytes(true)
    case PLB => Bytes(true)
    case PLA => Bytes(w.m)
    case PLX => Bytes(w.x)
    case PLY => Bytes(w.x)
    case _ => Bytes(false)
  }

  /** The register that a pull instruction loads; an 8-bit A keeps its upper byte. */
  function Take(c: Cpu, mnem: Mnem, w: Width, v: nat): Cpu {
    match mnem
    case PLP => c.(p := v)
    case PLB => c.(dbr := v)
    case PLA => c.(a := if w.m then c.a / 0x100 * 0x100 + v else v)
    case PLX => c.(x := v)
    case PLY => c.(y := v)
    case _ => c.(d := v)
  }

  predicate IsPush(mnem: Mnem) {
    mnem in {PEA, PEI, PER, PHD, PHP, PHB, PHK, PHA, PHX, PHY}
  }

  predicate IsPull(mnem: Mnem) {
    mnem in {PLD, PLP, PLB, PLA, PLX, PLY}
  }

  /** One instruction. Calls and returns are left to the host stack, and everything else leaves S alone. */
  function Execute(c: Cpu, mnem: Mnem, w: Width, word: nat): Cpu {
    if IsPush(mnem) then PushAll(c, Pushed(c, mnem, w, word))
    else if IsPull(mnem) then
      var (c', v) := PullAll(c, Pulled(mnem, w));
      Take(c', mnem, w, v)
    else if mnem == TCS then c.(S := c.a % 0x10000)
    else if mnem == TXS then c.(S := c.x % 0x10000)
    else c
  }

  predicate SetsS(mnem: Mnem) {
    mnem in {TCS, TXS}
  }

  lemma {:induction false} PushMoves(c: Cpu, bytes: seq<nat>)
    requires c.S < 0x10000
    ensures PushAll(c, bytes).S == (c.S - |bytes|) % 0x10000
    decreases |bytes|
  {
    if bytes != [] {
      PushMoves(PushByte(c, bytes[0]), bytes[1..]);
      Twice(c.S, 1, |bytes| - 1);
    }
  }

  lemma {:induction false} PullMoves(c: Cpu, n: nat)
    requires c.S < 0x10000
    ensures PullAll(c, n).0.S == (c.S + n) % 0x10000
    decreases n
  {
    if n > 0 {
      PullMoves(PullByte(c).0, n - 1);
      Twice(c.S, -1, -(n - 1));
    }
  }

  lemma PushDelta(c: Cpu, d: Decoded, word: nat)
    requires IsPush(d.mnem)
    ensures StackDelta(d) == Some(|Pushed(c, d.mnem, d.width, word)|)
  {
  }

  lemma PullDelta(d: Decoded)
    requires IsPull(d.mnem)
    ensures StackDelta(d).Some? && StackDelta(d).value + Pulled(d.mnem, d.width) == 0
  {
  }

  lemma OtherDelta(d: Decoded)
    requires !IsPush(d.mnem) && !IsPull(d.mnem)
    ensures StackDelta(d) == if SetsS(d.mnem) then None else Some(0)
  {
  }

  lemma TakesKeepS(c: Cpu, mnem: Mnem, w: Width, v: nat)
    ensures Take(c, mnem, w, v).S == c.S
  {
  }

  /** The delta of one instruction is the number of bytes by which it lowers S. */
  lemma StepMoves(c: Cpu, d: Decoded, word: nat)
    requires c.S < 0x10000
    ensures StackDelta(d).None? <==> SetsS(d.mnem)
    ensures StackDelta(d).Some? ==> Execute(c, d.mnem, d.width, word).S == (c.S - StackDelta(d).value) % 0x10000
    ensures Execute(c, d.mnem, d.width, word).S < 0x10000
  {
    if IsPush(d.mnem) {
      PushDelta(c, d, word);
      PushMoves(c, Pushed(c, d.mnem, d.width, word));
    } else if IsPull(d.mnem) {
      PullDelta(d);
      PullMoves(c, Pulled(d.mnem, d.width));
      var (c', v) := PullAll(c, Pulled(d.mnem, d.width));
      TakesKeepS(c', d.mnem, d.width, v);
    } else {
      OtherDelta(d);
    }
  }

  /** The states along a path; `words` are what its instructions push. */
  ghost predicate Executes(code: Code, p: seq<Node>, words: seq<nat>, states: seq<Cpu>) {
    && |words| == |p| && |states| == |p| + 1 && states[0].S < 0x10000
    && forall i :: 0 <= i < |p| ==> ExecutesAt(code, p, words, states, i)
  }

  ghost predicate ExecutesAt(code: Code, p: seq<Node>, words: seq<nat>, states: seq<Cpu>, i: nat) {
    && i < |p| && i < |words| && i + 1 < |states| && p[i] in code
    && states[i + 1] == Execute(states[i], code[p[i]].mnem, code[p[i]].width, words[i])
  }

  /** Nothing on the path sets S. */
  ghost predicate KeepsS(code: Code, p: seq<Node>) {
    forall i :: 0 <= i < |p| ==> p[i] in code && !SetsS(code[p[i]].mnem)
  }

  lemma LevelStep(code: Code, p: seq<Node>, words: seq<nat>, states: seq<Cpu>, i: nat)
    requires Executes(code, p, words, states) && i < |p| && p[i] in code && !SetsS(code[p[i]].mnem)
    requires states[i].S < 0x10000
    ensures StackDelta(code[p[i]]).Some? && states[i + 1].S == (states[i].S - StackDelta(code[p[i]]).value) % 0x10000
  {
    assert ExecutesAt(code, p, words, states, i);
    StepMoves(states[i], code[p[i]], words[i]);
  }

  lemma CountsOn(code: Code, p: seq<Node>, n: nat)
    requires n < |p| && (forall i :: 0 <= i < |p| ==> p[i] in code) && StackDelta(code[p[n]]).Some?
    ensures TrueDelta(code, p[..n + 1]) == TrueDelta(code, p[..n]) + StackDelta(code[p[n]]).value
  {
    assert p[..n + 1][..n] == p[..n];
  }

  /** On any path that does not set S, the counted delta is the level of the entry less that of S. */
  lemma {:induction false} DeltaIsLevel(code: Code, p: seq<Node>, words: seq<nat>, states: seq<Cpu>, n: nat)
    requires Executes(code, p, words, states) && KeepsS(code, p) && n <= |p|
    ensures states[n].S == (states[0].S - TrueDelta(code, p[..n])) % 0x10000
    decreases n
  {
    if n > 0 {
      DeltaIsLevel(code, p, words, states, n - 1);
      LevelStep(code, p, words, states, n - 1);
      CountsOn(code, p, n - 1);
      Twice(states[0].S, TrueDelta(code, p[..n - 1]), StackDelta(code[p[n - 1]]).value);
    }
  }

  lemma Twice(s: int, a: int, b: int)
    ensures ((s - a) % 0x10000 - b) % 0x10000 == (s - (a + b)) % 0x10000
  {
  }

  /** What TCS or TXS did before it does not count. */
  lemma CountsAfresh(code: Code, p: seq<Node>, q: seq<Node>)
    requires p != [] && (forall i :: 0 <= i < |p| ==> p[i] in code) && (forall i :: 0 <= i < |q| ==> q[i] in code)
    requires SetsS(code[p[|p| - 1]].mnem)
    ensures TrueDelta(code, p + q) == TrueDelta(code, q)
    decreases |q|
  {
    if q == [] {
      assert p + q == p;
    } else {
      assert (p + q)[..|p + q| - 1] == p + q[..|q| - 1];
      CountsAfresh(code, p, q[..|q| - 1]);
    }
  }

  /** An address push was met exactly if the path has a PEA, PEI or PER. */
  lemma {:induction false} PushedIs(code: Code, p: seq<Node>, s: State)
    requires forall i :: 0 <= i < |p| ==> p[i] in code
    ensures Run(code, p, s).pushed <==> s.pushed || exists i :: 0 <= i < |p| && code[p[i]].mnem in {PEA, PEI, PER}
    decreases |p|
  {
    if p != [] {
      var q := p[..|p| - 1];
      PushedIs(code, q, s);
      assert forall i :: 0 <= i < |q| ==> q[i] == p[i];
    }
  }

  /** Within 64 bytes and without TCS or TXS, a return at the end of a path is a trampoline exactly when
      S is off its level at the entry and an address was pushed on the way. */
  lemma UnbalancedExactly(code: Code, p: seq<Node>, words: seq<nat>, states: seq<Cpu>)
    requires Executes(code, p, words, states) && KeepsS(code, p)
    requires forall i :: 0 <= i <= |p| ==> -64 <= TrueDelta(code, p[..i]) <= 64
    ensures var s := Run(code, p, State(0, false));
            s.delta != 0 && s.pushed <==>
            states[|p|].S != states[0].S && exists i :: 0 <= i < |p| && code[p[i]].mnem in {PEA, PEI, PER}
  {
    ClampInvisible(code, p);
    DeltaIsLevel(code, p, words, states, |p|);
    PushedIs(code, p, State(0, false));
    assert p[..|p|] == p;
    OffLevel(states[0].S, TrueDelta(code, p));
  }

  lemma OffLevel(s: nat, d: int)
    requires s < 0x10000 && -64 <= d <= 64
    ensures (s - d) % 0x10000 == s <==> d == 0
  {
  }

  // ----- Every push has its pull -----

  /** The instruction that pulls what another pushed. */
  predicate IsPair(push: Mnem, pull: Mnem) {
    match push
    case PHA => pull == PLA
    case PHX => pull == PLX
    case PHY => pull == PLY
    case PHD => pull == PLD
    case PHP => pull == PLP
    case PHB => pull == PLB
    case _ => false
  }

  lemma PairDelta(push: Decoded, pull: Decoded)
    requires IsPair(push.mnem, pull.mnem) && push.width == pull.width
    ensures StackDelta(push).Some? && StackDelta(pull) == Some(-StackDelta(push).value)
  {
  }

  /** A register pulled back in the widths it was pushed in gives S back, and the scan counts nothing. */
  lemma PulledBack(c: Cpu, c1: Cpu, push: Decoded, pull: Decoded, word: nat)
    requires c.S < 0x10000 && IsPair(push.mnem, pull.mnem) && push.width == pull.width
    requires c1 == Execute(c, push.mnem, push.width, word)
    ensures Execute(c1, pull.mnem, pull.width, word).S == c.S
    ensures StackDelta(push).Some? && StackDelta(pull) == Some(-StackDelta(push).value)
  {
    PairDelta(push, pull);
    StepMoves(c, push, word);
    PullsUp(c.S, c1, pull, word, StackDelta(push).value);
  }

  lemma PullsUp(s: nat, c1: Cpu, pull: Decoded, word: nat, v: int)
    requires s < 0x10000 && c1.S == (s - v) % 0x10000 && StackDelta(pull) == Some(-v)
    ensures Execute(c1, pull.mnem, pull.width, word).S == s
  {
    StepMoves(c1, pull, word);
    Twice(s, v, -v);
  }
}
