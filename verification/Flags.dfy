/** The status register as emitted code keeps it: a mirror per flag, which is always right, and the
    packed byte P, which may lag behind; against a machine with one P that is always current. */
module Flags {
  import opened Machine

  datatype Flag = N | V | M | X | D | I | Z | C

  /** A status byte as the set of its one bits; every bit of P is a flag. */
  type Byte = set<Flag>

  datatype Mirrors = Mirrors(n: bool, v: bool, m: bool, x: bool, d: bool, i: bool, z: bool, c: bool)

  function Put(p: Byte, f: Flag, on: bool): Byte {
    if on then p + {f} else p - {f}
  }

  function PutIf(p: Byte, f: Flag, on: Option<bool>): Byte {
    if on.Some? then Put(p, f, on.value) else p
  }

  function Bit(on: bool, f: Flag): Byte {
    if on then {f} else {}
  }

  predicate Get(s: Mirrors, f: Flag) {
    match f
    case N => s.n case V => s.v case M => s.m case X => s.x
    case D => s.d case I => s.i case Z => s.z case C => s.c
  }

  function Pack(s: Mirrors): Byte {
    set f: Flag | Get(s, f)
  }

  function Unpack(p: Byte): Mirrors {
    Mirrors(N in p, V in p, M in p, X in p, D in p, I in p, Z in p, C in p)
  }

  function SetMirror(s: Mirrors, f: Flag, on: bool): Mirrors {
    match f
    case N => s.(n := on) case V => s.(v := on) case M => s.(m := on) case X => s.(x := on)
    case D => s.(d := on) case I => s.(i := on) case Z => s.(z := on) case C => s.(c := on)
  }

  // ----- Operations -----

  /** `Alu` is any emitter that sets some of N, V, Z, C in the mirrors only. A pull below what was
      pushed gets the byte that lies there. */
  datatype Op =
    | SetFlag(flag: Flag, on: bool)
    | SetNZ(src: nat, narrow: bool)
    | Alu(n: Option<bool>, v: Option<bool>, z: Option<bool>, c: Option<bool>)
    | Rep(mask: Byte)
    | Sep(mask: Byte)
    | Php
    | Plp(below: Byte)
    | Xce

  function Modulus(narrow: bool): nat {
    if narrow then 0x100 else 0x10000
  }

  predicate IsZero(src: nat, narrow: bool) {
    src % Modulus(narrow) == 0
  }

  predicate IsNegative(src: nat, narrow: bool) {
    src % Modulus(narrow) >= Modulus(narrow) / 2
  }

  // ----- The machine with one P -----

  /** All bytes in use are zero. */
  predicate AllZero(src: nat, narrow: bool) {
    src % 0x100 == 0 && (narrow || src / 0x100 % 0x100 == 0)
  }

  /** The top bit of the highest byte in use. */
  predicate TopBit(src: nat, narrow: bool) {
    (if narrow then src % 0x100 else src / 0x100 % 0x100) >= 0x80
  }

  datatype Single = Single(p: Byte, emulation: bool, stack: seq<Byte>)

  function Do(s: Single, op: Op): Single {
    match op
    case SetFlag(f, on) => s.(p := Put(s.p, f, on))
    case SetNZ(src, narrow) => s.(p := Put(Put(s.p, Z, AllZero(src, narrow)), N, TopBit(src, narrow)))
    case Alu(n, v, z, c) => s.(p := PutIf(PutIf(PutIf(PutIf(s.p, N, n), V, v), Z, z), C, c))
    case Rep(mask) => s.(p := s.p - mask)
    case Sep(mask) => s.(p := s.p + mask)
    case Php => s.(stack := s.stack + [s.p])
    case Plp(below) =>
      if s.stack == [] then s.(p := below)
      else s.(p := s.stack[|s.stack| - 1], stack := s.stack[..|s.stack| - 1])
    case Xce =>
      var e := C in s.p;
      var p := Put(s.p, C, s.emulation);
      s.(emulation := e, p := if e then p + {M, X} else p)
  }

  function DoAll(s: Single, ops: seq<Op>): Single
    decreases |ops|
  {
    if ops == [] then s else DoAll(Do(s, ops[0]), ops[1..])
  }

  // ----- The emitted machine -----

  /** What emitted code keeps: the packed byte, the mirrors, the emulation bit and pushed bytes. */
  datatype Emitted = Emitted(p: Byte, at: Mirrors, emulation: bool, stack: seq<Byte>)

  function MirrorsToP(s: Emitted): Emitted {
    s.(p := Pack(s.at))
  }

  function PToMirrors(s: Emitted): Emitted {
    s.(at := Unpack(s.p))
  }

  function SetIf(s: Mirrors, f: Flag, on: Option<bool>): Mirrors {
    if on.Some? then SetMirror(s, f, on.value) else s
  }

  function PutNZ(s: Emitted, z: bool, n: bool): Emitted {
    s.(at := s.at.(z := z, n := n), p := (s.p - {Z, N}) + Bit(z, Z) + Bit(n, N))
  }

  /** One emitted operation. */
  function Step(s: Emitted, op: Op): Emitted {
    match op
    case SetFlag(f, on) => s.(at := SetMirror(s.at, f, on), p := Put(s.p, f, on))
    case SetNZ(src, narrow) => PutNZ(s, IsZero(src, narrow), IsNegative(src, narrow))
    case Alu(n, v, z, c) => s.(at := SetIf(SetIf(SetIf(SetIf(s.at, N, n), V, v), Z, z), C, c))
    case Rep(mask) => var t := MirrorsToP(s); PToMirrors(t.(p := t.p - mask))
    case Sep(mask) => var t := MirrorsToP(s); PToMirrors(t.(p := t.p + mask))
    case Php => var t := MirrorsToP(s); t.(stack := t.stack + [t.p])
    case Plp(below) =>
      if s.stack == [] then PToMirrors(s.(p := below))
      else PToMirrors(s.(p := s.stack[|s.stack| - 1], stack := s.stack[..|s.stack| - 1]))
    case Xce =>
      var t := s.(emulation := s.at.c, at := s.at.(c := s.emulation));
      if t.emulation then MirrorsToP(t.(at := t.at.(m := true, x := true))) else t
  }

  function StepAll(s: Emitted, ops: seq<Op>): Emitted
    decreases |ops|
  {
    if ops == [] then s else StepAll(Step(s, ops[0]), ops[1..])
  }

  // ----- Refinement -----

  /** What the program sees of the emitted machine: its flags through the mirrors, its stack. */
  function View(s: Emitted): Single {
    Single(Pack(s.at), s.emulation, s.stack)
  }

  lemma UnpackIs(p: Byte)
    ensures Pack(Unpack(p)) == p
  {
    forall f: Flag
      ensures Get(Unpack(p), f) <==> f in p
    {
    }
  }

  lemma PackSet(s: Mirrors, f: Flag, on: bool)
    ensures Pack(SetMirror(s, f, on)) == Put(Pack(s), f, on)
  {
    forall g: Flag
      ensures Get(SetMirror(s, f, on), g) == if g == f then on else Get(s, g)
    {
      GetSet(s, f, on, g);
    }
    PutIs(Pack(s), f, on);
  }

  lemma GetSet(s: Mirrors, f: Flag, on: bool, g: Flag)
    ensures Get(SetMirror(s, f, on), g) == if g == f then on else Get(s, g)
  {
    match f case N => case V => case M => case X => case D => case I => case Z => case C =>
  }

  lemma PutIs(p: Byte, f: Flag, on: bool)
    ensures forall g :: g in Put(p, f, on) <==> if g == f then on else g in p
  {
  }

  lemma PackSetIf(s: Mirrors, f: Flag, on: Option<bool>)
    ensures Pack(SetIf(s, f, on)) == PutIf(Pack(s), f, on)
  {
    if on.Some? { PackSet(s, f, on.value); }
  }

  lemma AluRefines(s: Mirrors, n: Option<bool>, v: Option<bool>, z: Option<bool>, c: Option<bool>)
    ensures Pack(SetIf(SetIf(SetIf(SetIf(s, N, n), V, v), Z, z), C, c))
         == PutIf(PutIf(PutIf(PutIf(Pack(s), N, n), V, v), Z, z), C, c)
  {
    PackSetIf(s, N, n);
    PackSetIf(SetIf(s, N, n), V, v);
    PackSetIf(SetIf(SetIf(s, N, n), V, v), Z, z);
    PackSetIf(SetIf(SetIf(SetIf(s, N, n), V, v), Z, z), C, c);
  }

  lemma SetTwo(s: Mirrors, f: Flag, a: bool, g: Flag, b: bool)
    ensures Pack(SetMirror(SetMirror(s, f, a), g, b)) == Put(Put(Pack(s), f, a), g, b)
  {
    PackSet(s, f, a);
    PackSet(SetMirror(s, f, a), g, b);
  }

  lemma PutBoth(p: Byte)
    ensures Put(Put(p, M, true), X, true) == p + {M, X}
  {
  }

  lemma EnterEmulation(s: Mirrors)
    ensures Pack(s.(m := true, x := true)) == Pack(s) + {M, X}
  {
    SetTwo(s, M, true, X, true);
    PutBoth(Pack(s));
  }

  lemma XceRefines(s: Emitted)
    ensures View(Step(s, Xce)) == Do(View(s), Xce)
  {
    PackSet(s.at, C, s.emulation);
    assert C in Pack(s.at) <==> Get(s.at, C);
    if s.at.c {
      EnterEmulation(SetMirror(s.at, C, s.emulation));
    }
  }

  lemma PutNZRefines(s: Emitted, z: bool, n: bool)
    ensures View(PutNZ(s, z, n)) == View(s).(p := Put(Put(View(s).p, Z, z), N, n))
  {
    SetTwo(s.at, Z, z, N, n);
  }

  lemma SetNZRefines(s: Emitted, src: nat, narrow: bool)
    ensures View(Step(s, SetNZ(src, narrow))) == Do(View(s), SetNZ(src, narrow))
  {
    PutNZRefines(s, IsZero(src, narrow), IsNegative(src, narrow));
    ByBytes(src, narrow);
  }

  /** N and Z of the emitted code are those of the bytes. */
  lemma ByBytes(src: nat, narrow: bool)
    ensures IsZero(src, narrow) == AllZero(src, narrow) && IsNegative(src, narrow) == TopBit(src, narrow)
  {
    TwoBytes(src);
  }

  /** REP and SEP take up the mirrors first, so no earlier flag update is lost. */
  lemma SyncRefines(s: Emitted, mask: Byte)
    ensures View(Step(s, Rep(mask))) == Do(View(s), Rep(mask)) && View(Step(s, Sep(mask))) == Do(View(s), Sep(mask))
  {
    UnpackIs(Pack(s.at) - mask);
    UnpackIs(Pack(s.at) + mask);
  }

  lemma PlpRefines(s: Emitted, below: Byte)
    ensures View(Step(s, Plp(below))) == Do(View(s), Plp(below))
  {
    UnpackIs(if s.stack == [] then below else s.stack[|s.stack| - 1]);
  }

  /** One emitted operation is one operation of the machine with a single P. */
  lemma StepRefines(s: Emitted, op: Op)
    ensures View(Step(s, op)) == Do(View(s), op)
  {
    match op
    case SetFlag(f, on) => PackSet(s.at, f, on);
    case SetNZ(src, narrow) => SetNZRefines(s, src, narrow);
    case Alu(n, v, z, c) => AluRefines(s.at, n, v, z, c);
    case Rep(mask) => SyncRefines(s, mask);
    case Sep(mask) => SyncRefines(s, mask);
    case Php =>
    case Plp(below) => PlpRefines(s, below);
    case Xce => XceRefines(s);
  }

  /** Over every sequence of operations both machines show the same flags and push the same bytes. */
  lemma {:induction false} Refines(s: Emitted, ops: seq<Op>)
    ensures View(StepAll(s, ops)) == DoAll(View(s), ops)
    decreases |ops|
  {
    if ops != [] {
      StepRefines(s, ops[0]);
      Refines(Step(s, ops[0]), ops[1..]);
    }
  }

  // ----- What can lag -----

  /** P is right about a flag. */
  predicate Current(s: Emitted, f: Flag) {
    f in s.p <==> Get(s.at, f)
  }

  lemma AluKeeps(s: Mirrors, n: Option<bool>, v: Option<bool>, z: Option<bool>, c: Option<bool>, f: Flag)
    requires f !in {N, V, Z, C}
    ensures Get(SetIf(SetIf(SetIf(SetIf(s, N, n), V, v), Z, z), C, c), f) == Get(s, f)
  {
  }

  lemma StepCurrent(s: Emitted, op: Op, f: Flag)
    requires Current(s, f) && f !in {N, V, Z, C}
    ensures Current(Step(s, op), f)
  {
    match op
    case SetFlag(g, on) => GetSet(s.at, g, on, f);
    case SetNZ(src, narrow) =>
    case Alu(n, v, z, c) => AluKeeps(s.at, n, v, z, c, f);
    case Rep(mask) =>
    case Sep(mask) =>
    case Php =>
    case Plp(below) =>
    case Xce =>
  }

  /** Once P is right about M, X, D or I it stays so; only N, V, Z and C ever lag. */
  lemma {:induction false} OnlyArithmeticLags(s: Emitted, ops: seq<Op>, f: Flag)
    requires Current(s, f) && f !in {N, V, Z, C}
    ensures Current(StepAll(s, ops), f)
    decreases |ops|
  {
    if ops != [] {
      StepCurrent(s, ops[0], f);
      OnlyArithmeticLags(Step(s, ops[0]), ops[1..], f);
    }
  }

  // ----- The emitted statements -----

  /** P is right about every flag that it was right about before. */
  predicate NoneOutdated(before: Emitted, after: Emitted) {
    forall f :: Current(before, f) ==> Current(after, f)
  }

  predicate AllCurrent(s: Emitted) {
    forall f :: Current(s, f)
  }

  lemma PackedIsCurrent(s: Emitted)
    requires s.p == Pack(s.at)
    ensures AllCurrent(s)
  {
  }

  lemma SpreadIsCurrent(s: Emitted)
    requires s.at == Unpack(s.p)
    ensures AllCurrent(s)
  {
    UnpackIs(s.p);
  }

  lemma FlagSetIsCurrent(s: Emitted, f: Flag, on: bool)
    ensures Current(Step(s, SetFlag(f, on)), f) && NoneOutdated(s, Step(s, SetFlag(f, on)))
  {
    forall g
      ensures Current(s, g) || g == f ==> Current(Step(s, SetFlag(f, on)), g)
    {
      GetSet(s.at, f, on, g);
    }
  }

  lemma NZSetIsCurrent(s: Emitted, z: bool, n: bool)
    ensures Current(PutNZ(s, z, n), N) && Current(PutNZ(s, z, n), Z) && NoneOutdated(s, PutNZ(s, z, n))
  {
    forall f
      ensures Current(s, f) || f == N || f == Z ==> Current(PutNZ(s, z, n), f)
    {
      GetSet(s.at, Z, z, f);
      GetSet(s.at.(z := z), N, n, f);
    }
  }

  class StatusRegister {
    var p: Byte
    var at: Mirrors
    var emulation: bool
    var stack: seq<Byte>

    function State(): Emitted
      reads this
    {
      Emitted(p, at, emulation, stack)
    }

    /** The program sees the flag set; P is right about it even if it was not before. */
    method SetFlag(f: Flag, on: bool)
      modifies this
      ensures View(State()) == Do(old(View(State())), Op.SetFlag(f, on))
      ensures Current(State(), f) && NoneOutdated(old(State()), State())
    {
      StepRefines(State(), Op.SetFlag(f, on));
      FlagSetIsCurrent(State(), f, on);
      at := SetMirror(at, f, on);
      p := Put(p, f, on);
    }

    method SetNZ(src: nat, narrow: bool)
      modifies this
      ensures View(State()) == Do(old(View(State())), Op.SetNZ(src, narrow))
      ensures Current(State(), N) && Current(State(), Z) && NoneOutdated(old(State()), State())
    {
      StepRefines(State(), Op.SetNZ(src, narrow));
      var z, n := IsZero(src, narrow), IsNegative(src, narrow);
      NZSetIsCurrent(State(), z, n);
      at := at.(z := z);
      at := at.(n := n);
      p := (p - {Z, N}) + Bit(z, Z) + Bit(n, N);
      assert State() == PutNZ(old(State()), z, n);
    }

    /** The program sees the new flags although P is left as it was. */
    method AluFlags(n: Option<bool>, v: Option<bool>, z: Option<bool>, c: Option<bool>)
      modifies this
      ensures View(State()) == Do(old(View(State())), Alu(n, v, z, c)) && p == old(p)
    {
      StepRefines(State(), Alu(n, v, z, c));
      at := SetIf(at, N, n);
      at := SetIf(at, V, v);
      at := SetIf(at, Z, z);
      at := SetIf(at, C, c);
    }

    /** No flag that only the mirrors held is lost, and P has caught up. */
    method RepFlags(mask: Byte)
      modifies this
      ensures View(State()) == Do(old(View(State())), Rep(mask)) && AllCurrent(State())
    {
      StepRefines(State(), Rep(mask));
      p := Pack(at);
      p := p - mask;
      at := Unpack(p);
      SpreadIsCurrent(State());
    }

    method SepFlags(mask: Byte)
      modifies this
      ensures View(State()) == Do(old(View(State())), Sep(mask)) && AllCurrent(State())
    {
      StepRefines(State(), Sep(mask));
      p := Pack(at);
      p := p + mask;
      at := Unpack(p);
      SpreadIsCurrent(State());
    }

    /** The byte pushed is the one the machine with a single P pushes. */
    method PushP()
      modifies this
      ensures View(State()) == Do(old(View(State())), Php) && AllCurrent(State())
    {
      StepRefines(State(), Php);
      p := Pack(at);
      stack := stack + [p];
      PackedIsCurrent(State());
    }

    method PullP(below: Byte)
      modifies this
      ensures View(State()) == Do(old(View(State())), Plp(below)) && AllCurrent(State())
    {
      StepRefines(State(), Plp(below));
      if stack == [] {
        p := below;
      } else {
        p, stack := stack[|stack| - 1], stack[..|stack| - 1];
      }
      at := Unpack(p);
      SpreadIsCurrent(State());
    }

    /** P catches up only when emulation mode is entered. */
    method ExchangeCE()
      modifies this
      ensures View(State()) == Do(old(View(State())), Xce)
      ensures if emulation then AllCurrent(State()) else p == old(p)
    {
      StepRefines(State(), Xce);
      var t := emulation;
      emulation := at.c;
      at := at.(c := t);
      if emulation {
        at := at.(m := true);
        at := at.(x := true);
        p := Pack(at);
        PackedIsCurrent(State());
      }
    }

    /** Any sequence of operations, one after the other. */
    method Execute(ops: seq<Op>)
      modifies this
      ensures View(State()) == DoAll(old(View(State())), ops)
    {
      var i := 0;
      while i < |ops|
        invariant 0 <= i <= |ops| && DoAll(View(State()), ops[i..]) == DoAll(old(View(State())), ops)
      {
        assert ops[i..][1..] == ops[i + 1..];
        match ops[i] {
          case SetFlag(f, on) => SetFlag(f, on);
          case SetNZ(src, narrow) => SetNZ(src, narrow);
          case Alu(n, v, z, c) => AluFlags(n, v, z, c);
          case Rep(mask) => RepFlags(mask);
          case Sep(mask) => SepFlags(mask);
          case Php => PushP();
          case Plp(below) => PullP(below);
          case Xce => ExchangeCE();
        }
        i := i + 1;
      }
    }
  }
}
