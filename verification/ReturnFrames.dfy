/** Hardware return frames on the emulated stack, mirrored by the host C stack: calls, tail calls,
    returns and the SKIP_N unwinding of emitted functions. */
module ReturnFrames {
  import opened Machine

  const LOW_RAM := 0x2000
  const MAX_FRAMES := 64

  /** What a function captures on entry: the stack level of its return frame and the size of the
      frame its host caller pushed, zero when it has no host caller. */
  datatype Frame = Frame(entryS: nat, hrv: nat)

  /** The processor and the host globals. `slot` hands a frame over to a tail callee; `frames` is
      the entry level of every function on the recomp stack, the running one last. */
  datatype Host = Host(S: nat, PB: nat, hrv: nat, ram: seq<nat>, slot: Option<Frame>, frames: seq<nat>)

  /** One activation of an emitted function: what it does, in order, up to its return. */
  datatype Body =
    | Push(value: nat, rest: Body)
    | Pull(rest: Body)
    | Store(addr: nat, value: nat, rest: Body)
    | Call(site: nat, long: bool, bank: nat, callee: Body, rest: Body)
    | Tail(bank: nat, callee: Body)
    | Ret(long: bool)

  /** How a return went, with the address it popped. */
  datatype Event = HostReturn(pc: nat) | ToAncestor(pc: nat, skip: nat) | DispatchMiss(pc: nat)

  datatype Outcome = Outcome(h: Host, code: int, log: seq<Event>)

  // ----- Stack and memory -----

  function Up(s: nat, n: nat): nat {
    (s + n) % 0x10000
  }

  function Down(s: nat): nat {
    (s + 0xFFFF) % 0x10000
  }

  /** Bank 0: only low RAM is written; elsewhere reads give $FF. */
  function Write8(h: Host, a: nat, v: nat): Host {
    if a < LOW_RAM && a < |h.ram| then h.(ram := h.ram[a := v]) else h
  }

  function Read8(h: Host, a: nat): nat {
    if a < LOW_RAM && a < |h.ram| then h.ram[a] else 0xFF
  }

  function Push8(h: Host, v: nat): Host {
    Write8(h, h.S, v).(S := Down(h.S))
  }

  function Size(long: bool): nat {
    if long then 3 else 2
  }

  /** The frame of a call: the bank for JSL, then the address of the last byte of the call. */
  function PushFrame(h: Host, site: nat, long: bool): Host {
    var last := (site + Size(long)) % 0x10000;
    var h1 := if long then Push8(h, site / 0x10000 % 0x100) else h;
    Push8(Push8(h1, last / 0x100), last % 0x100).(hrv := Size(long))
  }

  /** The address a return pops. */
  function Popped(h: Host, long: bool): nat {
    var lo, hi := Read8(h, Up(h.S, 1)), Read8(h, Up(h.S, 2));
    var bank := if long then Read8(h, Up(h.S, 3)) else h.PB;
    bank * 0x10000 + (hi * 0x100 + lo + 1) % 0x10000
  }

  // ----- The recomp stack -----

  function PushEntry(frames: seq<nat>, s: nat): seq<nat> {
    if |frames| < MAX_FRAMES then frames + [s] else frames[|frames| - 1 := s]
  }

  function PopEntry(frames: seq<nat>): seq<nat> {
    if frames == [] then [] else frames[..|frames| - 1]
  }

  /** A push on a full stack takes the place of the top frame. */
  lemma PushEntryIs(frames: seq<nat>, s: nat)
    requires 0 < |frames| <= 64
    ensures PushEntry(frames, s) == (if |frames| == 64 then frames[..63] else frames) + [s]
  {
  }

  /** The nearest of the first `n` frames that was entered at level `s`. */
  function Nearest(frames: seq<nat>, n: nat, s: nat): Option<nat>
    requires n <= |frames|
  {
    if n == 0 then None else if frames[n - 1] == s then Some(n - 1) else Nearest(frames, n - 1, s)
  }

  /** How many levels to unwind to the ancestor entered at level `s`. */
  function AncestorSkip(frames: seq<nat>, s: nat): Option<nat> {
    if |frames| < 2 then None
    else
      match Nearest(frames, |frames| - 1, s)
      case None => None
      case Some(i) => if i < |frames| then Some(|frames| - 1 - i) else None
  }

  // ----- Execution -----

  /** Function prologue. */
  function Entered(h: Host): Frame {
    match h.slot
    case None => Frame(h.S, h.hrv)
    case Some(fr) => fr
  }

  function Enter(h: Host): Host {
    h.(hrv := Entered(h).hrv, slot := None, frames := PushEntry(h.frames, Entered(h).entryS))
  }

  function Leave(h: Host): Host {
    h.(frames := PopEntry(h.frames))
  }

  function Invoke(h: Host, b: Body): Outcome
    decreases b, 1
  {
    Run(Enter(h), Entered(h), b)
  }

  /** RTS and RTL: pop the frame, then return to the host caller, unwind to an ancestor or dispatch. */
  function Return(h: Host, fr: Frame, long: bool): Outcome {
    var pc := Popped(h, long);
    var h1 := Leave(h).(S := Up(h.S, Size(long)));
    if fr.hrv != 0 && h.S == fr.entryS then Outcome(h1, 0, [HostReturn(pc)])
    else
      match if h.S != fr.entryS then AncestorSkip(h.frames, h.S) else None
      case Some(skip) => Outcome(h1, skip, [ToAncestor(pc, skip)])
      case None => Outcome(h1.(S := Up(fr.entryS, Size(long))), 0, [DispatchMiss(pc)])
  }

  /** A callee that asks for more levels makes its caller return early with one level less. */
  function Run(h: Host, fr: Frame, b: Body): Outcome
    decreases b, 0
  {
    match b
    case Push(v, rest) => Run(Push8(h, v), fr, rest)
    case Pull(rest) => Run(h.(S := Up(h.S, 1)), fr, rest)
    case Store(a, v, rest) => Run(Write8(h, a, v), fr, rest)
    case Call(site, long, bank, callee, rest) =>
      var o := Invoke(AtCallee(h, site, long, bank), callee);
      var back := if long then o.h.(PB := h.PB) else o.h;
      if o.code != 0 then Outcome(Leave(back), o.code - 1, o.log)
      else
        var o' := Run(back, fr, rest);
        o'.(log := o.log + o'.log)
    case Tail(bank, callee) =>
      var o := Invoke(h.(PB := bank, hrv := fr.hrv, slot := Some(fr)), callee);
      o.(h := Leave(o.h))
    case Ret(long) => Return(h, fr, long)
  }

  /** The state in which a call enters its callee. */
  function AtCallee(h: Host, site: nat, long: bool, bank: nat): Host {
    var h1 := PushFrame(h, site, long);
    if long then h1.(PB := bank) else h1
  }

  /** The caller's side of a call. */
  function Back(h: Host, o: Outcome, l: bool): Host {
    if l then o.h.(PB := h.PB) else o.h
  }

  lemma RunCall(h: Host, fr: Frame, site: nat, l: bool, bank: nat, callee: Body, rest: Body)
    ensures var o := Invoke(AtCallee(h, site, l, bank), callee); var r := Run(h, fr, Call(site, l, bank, callee, rest));
            (o.code != 0 ==> r == Outcome(Leave(Back(h, o, l)), o.code - 1, o.log)) &&
            (o.code == 0 ==> r == Run(Back(h, o, l), fr, rest).(log := o.log + Run(Back(h, o, l), fr, rest).log))
  {
  }

  // ----- Balanced runs -----

  /** The address after a call. */
  function ReturnAddress(site: nat, long: bool): nat {
    site / 0x10000 % 0x100 * 0x10000 + (site + Size(long) + 1) % 0x10000
  }

  /** The bytes of a return frame that ends at level `s`. */
  function FrameBytes(s: nat, long: bool): set<nat> {
    {s + 1, s + 2} + if long then {s + 3} else {}
  }

  /** A body that, from stack level `s`, returns by an RTS or RTL (`long`) at the level `e` of its own
      frame, never pulls what it did not push, and makes only calls that return the way they
      were made. */
  predicate Balanced(b: Body, s: nat, e: nat, long: bool)
    decreases b
  {
    match b
    case Push(v, rest) => 0 < s && Balanced(rest, s - 1, e, long)
    case Pull(rest) => s < e && Balanced(rest, s + 1, e, long)
    case Store(a, v, rest) => Balanced(rest, s, e, long)
    case Call(site, l, bank, callee, rest) =>
      Size(l) <= s && Balanced(callee, s - Size(l), s - Size(l), l) && Balanced(rest, s, e, long)
    case Tail(bank, callee) => Balanced(callee, s, e, long)
    case Ret(l) => s == e && l == long
  }

  /** A body that stores into no live return frame, is called from where it runs and makes its short
      returns in the bank it was called in. */
  predicate Tidy(b: Body, s: nat, pb: nat, home: nat, live: set<nat>)
    decreases b
  {
    match b
    case Push(v, rest) => 0 < s && Tidy(rest, s - 1, pb, home, live)
    case Pull(rest) => Tidy(rest, s + 1, pb, home, live)
    case Store(a, v, rest) => a !in live && Tidy(rest, s, pb, home, live)
    case Call(site, l, bank, callee, rest) =>
      && Size(l) <= s && (!l ==> site / 0x10000 % 0x100 == pb)
      && Tidy(callee, s - Size(l), if l then bank else pb, pb, live + FrameBytes(s - Size(l), l))
      && Tidy(rest, s, pb, home, live)
    case Tail(bank, callee) => Tidy(callee, s, bank, home, live)
    case Ret(l) => !l ==> pb == home
  }

  /** Every return goes to its host caller and pops the address after the call. */
  function Returns(b: Body, ret: nat): seq<Event> {
    match b
    case Push(v, rest) => Returns(rest, ret)
    case Pull(rest) => Returns(rest, ret)
    case Store(a, v, rest) => Returns(rest, ret)
    case Call(site, l, bank, callee, rest) => Returns(callee, ReturnAddress(site, l)) + Returns(rest, ret)
    case Tail(bank, callee) => Returns(callee, ret)
    case Ret(l) => [HostReturn(ret)]
  }

  /** The return frame at level `e` holds the address `ret`. */
  predicate HoldsFrame(ram: seq<nat>, e: nat, long: bool, home: nat, ret: nat) {
    && |ram| == 0x2000 && e + Size(long) < 0x2000
    && ret == (if long then ram[e + 3] else home) * 0x10000 + (ram[e + 2] * 0x100 + ram[e + 1] + 1) % 0x10000
  }

  ghost predicate SameOn(ram: seq<nat>, ram': seq<nat>, live: set<nat>) {
    |ram'| == |ram| && forall a :: a in live && a < |ram| ==> ram'[a] == ram[a]
  }

  /** The live return frames lie above level `e`, the one of the running function among them. */
  ghost predicate Above(live: set<nat>, e: nat, long: bool) {
    FrameBytes(e, long) <= live && forall a :: a in live ==> a > e
  }

  lemma LastByte(site: nat, n: nat)
    ensures var last := (site + n) % 0x10000;
            (last / 0x100 * 0x100 + last % 0x100 + 1) % 0x10000 == (site + n + 1) % 0x10000
  {
    var last := (site + n) % 0x10000;
    assert last / 0x100 * 0x100 + last % 0x100 == last;
  }

  lemma Pushed(h: Host, v: nat)
    requires |h.ram| == 0x2000 && 0 < h.S < 0x2000
    ensures Push8(h, v) == h.(S := h.S - 1, ram := h.ram[h.S := v])
  {
  }

  /** The two address bytes of a frame. */
  lemma PushLast(h: Host, last: nat)
    requires |h.ram| == 0x2000 && 2 <= h.S < 0x2000 && last < 0x10000
    ensures Push8(Push8(h, last / 0x100), last % 0x100)
         == h.(S := h.S - 2, ram := h.ram[h.S := last / 0x100][h.S - 1 := last % 0x100])
  {
    Pushed(h, last / 0x100);
    Pushed(Push8(h, last / 0x100), last % 0x100);
  }

  lemma PushFrameHolds(h: Host, site: nat, long: bool)
    requires |h.ram| == 0x2000 && Size(long) <= h.S < 0x2000 && (!long ==> site / 0x10000 % 0x100 == h.PB)
    ensures var h' := PushFrame(h, site, long);
            h' == h.(S := h.S - Size(long), hrv := Size(long), ram := h'.ram) &&
            HoldsFrame(h'.ram, h'.S, long, h.PB, ReturnAddress(site, long)) &&
            forall a :: 0 <= a < 0x2000 && a !in FrameBytes(h'.S, long) ==> h'.ram[a] == h.ram[a]
  {
    var last := (site + Size(long)) % 0x10000;
    LastByte(site, Size(long));
    if long {
      Pushed(h, site / 0x10000 % 0x100);
      PushLast(Push8(h, site / 0x10000 % 0x100), last);
    } else {
      PushLast(h, last);
    }
  }

  // ----- Stack levels -----

  lemma CallLevel(h: Host, site: nat, l: bool, bank: nat)
    requires Size(l) <= h.S < 0x10000
    ensures var h1 := AtCallee(h, site, l, bank);
            h1.S == h.S - Size(l) && h1.hrv == Size(l) && h1.slot == h.slot && h1.frames == h.frames
  {
    var h1 := if l then Push8(h, site / 0x10000 % 0x100) else h;
    assert h1.S == if l then h.S - 1 else h.S;
  }

  /** A balanced run returns normally, its frame popped. */
  lemma {:induction false} LevelRun(h: Host, fr: Frame, b: Body, long: bool)
    requires Balanced(b, h.S, fr.entryS, long) && h.S <= fr.entryS < 0x10000 && fr.hrv != 0 && h.slot == None
    ensures var o := Run(h, fr, b); o.code == 0 && o.h.S == Up(fr.entryS, Size(long)) && o.h.slot == None
    decreases b, 0
  {
    match b
    case Push(v, rest) =>
      assert Down(h.S) == h.S - 1;
      LevelRun(Push8(h, v), fr, rest, long);
    case Pull(rest) =>
      assert Up(h.S, 1) == h.S + 1;
      LevelRun(h.(S := h.S + 1), fr, rest, long);
    case Store(a, v, rest) =>
      LevelRun(Write8(h, a, v), fr, rest, long);
    case Call(site, l, bank, callee, rest) =>
      LevelRestored(h, site, l, bank, callee, l);
      var o := Invoke(AtCallee(h, site, l, bank), callee);
      LevelRun(if l then o.h.(PB := h.PB) else o.h, fr, rest, long);
    case Tail(bank, callee) =>
      LevelRun(Enter(h.(PB := bank, hrv := fr.hrv, slot := Some(fr))), fr, callee, long);
    case Ret(l) =>
  }

  /** A call of a balanced function comes back to the level before it exactly when the function
      returns the way it was called. */
  lemma LevelRestored(h: Host, site: nat, l: bool, bank: nat, callee: Body, long: bool)
    requires Size(l) <= h.S < 0x10000 && h.slot == None
    requires Balanced(callee, h.S - Size(l), h.S - Size(l), long)
    ensures var o := Invoke(AtCallee(h, site, l, bank), callee);
            o.code == 0 && o.h.slot == None && (o.h.S == h.S <==> l == long)
    decreases callee, 1
  {
    CallFrame(h, site, l, bank);
    var h1 := AtCallee(h, site, l, bank);
    LevelRun(Enter(h1), Entered(h1), callee, long);
    LevelFits(h.S, l, long);
  }

  lemma CallFrame(h: Host, site: nat, l: bool, bank: nat)
    requires Size(l) <= h.S < 0x10000 && h.slot == None
    ensures var h1 := AtCallee(h, site, l, bank);
            Entered(h1) == Frame(h.S - Size(l), Size(l)) && Enter(h1).S == h.S - Size(l) && Enter(h1).slot == None
  {
    CallLevel(h, site, l, bank);
  }

  // ----- Return addresses -----

  /** The state of a function that runs between its call and its return. */
  ghost predicate Running(h: Host, fr: Frame, long: bool, home: nat, ret: nat, live: set<nat>) {
    && HoldsFrame(h.ram, fr.entryS, long, home, ret) && Above(live, fr.entryS, long)
    && h.slot == None && fr.hrv != 0 && h.S <= fr.entryS
  }

  /** What a run leaves behind besides its stack level. */
  ghost predicate Completes(h: Host, o: Outcome, long: bool, home: nat, live: set<nat>, log: seq<Event>) {
    o.log == log && SameOn(h.ram, o.h.ram, live) && (!long ==> o.h.PB == home)
  }

  lemma ReturnCompletes(h: Host, fr: Frame, long: bool, home: nat, ret: nat, live: set<nat>)
    requires Running(h, fr, long, home, ret, live) && h.S == fr.entryS && (!long ==> h.PB == home)
    ensures Completes(h, Return(h, fr, long), long, home, live, [HostReturn(ret)])
  {
    assert Up(h.S, 1) == h.S + 1 && Up(h.S, 2) == h.S + 2 && (long ==> Up(h.S, 3) == h.S + 3);
  }

  lemma HoldsLater(ram: seq<nat>, ram': seq<nat>, live: set<nat>, e: nat, long: bool, home: nat, ret: nat)
    requires HoldsFrame(ram, e, long, home, ret) && SameOn(ram, ram', live) && FrameBytes(e, long) <= live
    ensures HoldsFrame(ram', e, long, home, ret)
  {
    assert e + 1 in FrameBytes(e, long) && e + 2 in FrameBytes(e, long) && (long ==> e + 3 in FrameBytes(e, long));
  }

  lemma StoreKeeps(h: Host, fr: Frame, long: bool, home: nat, ret: nat, live: set<nat>, a: nat, v: nat, s: nat)
    requires Running(h, fr, long, home, ret, live) && a !in live && s <= fr.entryS
    ensures Running(Write8(h, a, v).(S := s), fr, long, home, ret, live)
    ensures SameOn(h.ram, Write8(h, a, v).ram, live)
  {
    HoldsLater(h.ram, Write8(h, a, v).ram, live, fr.entryS, long, home, ret);
  }

  lemma SameOnTrans(a: seq<nat>, b: seq<nat>, c: seq<nat>, live: set<nat>)
    requires SameOn(a, b, live) && SameOn(b, c, live)
    ensures SameOn(a, c, live)
  {
  }

  /** Entering a callee: its frame is in place and the older ones are untouched. */
  lemma CallEnters(h: Host, live: set<nat>, site: nat, l: bool, bank: nat)
    requires |h.ram| == 0x2000 && Size(l) <= h.S < 0x2000 && h.slot == None && (forall a :: a in live ==> a > h.S)
    requires !l ==> site / 0x10000 % 0x100 == h.PB
    ensures var h1 := AtCallee(h, site, l, bank); var e := h.S - Size(l);
            h1.S == e && h1.PB == (if l then bank else h.PB) && h1.slot == None && Entered(h1) == Frame(e, Size(l)) &&
            SameOn(h.ram, h1.ram, live) &&
            Running(Enter(h1), Frame(e, Size(l)), l, h.PB, ReturnAddress(site, l), live + FrameBytes(e, l))
  {
    PushFrameHolds(h, site, l);
    var h1, e := AtCallee(h, site, l, bank), h.S - Size(l);
    forall a | a in live && a < |h.ram|
      ensures h1.ram[a] == h.ram[a]
    {
      assert a !in FrameBytes(e, l);
    }
    assert Above(live + FrameBytes(e, l), e, l);
  }

  /** Every properly nested run of matching calls and returns, with tail calls anywhere: each return
      is a host return and pops the address after its call. */
  lemma {:induction false} BalancedRun(h: Host, fr: Frame, b: Body, long: bool, home: nat, ret: nat, live: set<nat>)
    requires Running(h, fr, long, home, ret, live)
    requires Balanced(b, h.S, fr.entryS, long) && Tidy(b, h.S, h.PB, home, live)
    ensures Completes(h, Run(h, fr, b), long, home, live, Returns(b, ret))
    decreases b, 0
  {
    match b
    case Push(v, rest) =>
      assert h.S !in live;
      StoreKeeps(h, fr, long, home, ret, live, h.S, v, h.S - 1);
      BalancedRun(Push8(h, v), fr, rest, long, home, ret, live);
    case Pull(rest) =>
      BalancedRun(h.(S := h.S + 1), fr, rest, long, home, ret, live);
    case Store(a, v, rest) =>
      StoreKeeps(h, fr, long, home, ret, live, a, v, h.S);
      BalancedRun(Write8(h, a, v), fr, rest, long, home, ret, live);
    case Call(site, l, bank, callee, rest) =>
      StillRunning(h, fr, long, home, ret, live, site, l, bank, callee);
      BalancedRun(Back(h, Invoke(AtCallee(h, site, l, bank), callee), l), fr, rest, long, home, ret, live);
      CallCompletes(h, fr, long, home, ret, live, site, l, bank, callee, rest);
    case Tail(bank, callee) =>
      BalancedRun(Enter(h.(PB := bank, hrv := fr.hrv, slot := Some(fr))), fr, callee, long, home, ret, live);
    case Ret(l) =>
      ReturnCompletes(h, fr, long, home, ret, live);
  }

  lemma CallCompletes(h: Host, fr: Frame, long: bool, home: nat, ret: nat, live: set<nat>,
                      site: nat, l: bool, bank: nat, callee: Body, rest: Body)
    requires var o := Invoke(AtCallee(h, site, l, bank), callee); var back := Back(h, o, l);
             o.code == 0 && o.log == Returns(callee, ReturnAddress(site, l)) && SameOn(h.ram, back.ram, live) &&
             Completes(back, Run(back, fr, rest), long, home, live, Returns(rest, ret))
    ensures var b := Call(site, l, bank, callee, rest); Completes(h, Run(h, fr, b), long, home, live, Returns(b, ret))
  {
    RunCall(h, fr, site, l, bank, callee, rest);
  }

  /** After a balanced call its caller runs on as before. */
  lemma StillRunning(h: Host, fr: Frame, long: bool, home: nat, ret: nat, live: set<nat>,
                     site: nat, l: bool, bank: nat, callee: Body)
    requires Running(h, fr, long, home, ret, live) && Size(l) <= h.S && (!l ==> site / 0x10000 % 0x100 == h.PB)
    requires Balanced(callee, h.S - Size(l), h.S - Size(l), l)
    requires Tidy(callee, h.S - Size(l), if l then bank else h.PB, h.PB, live + FrameBytes(h.S - Size(l), l))
    ensures var o := Invoke(AtCallee(h, site, l, bank), callee); var back := Back(h, o, l);
            o.code == 0 && o.log == Returns(callee, ReturnAddress(site, l)) && back.S == h.S && back.PB == h.PB &&
            Running(back, fr, long, home, ret, live) && SameOn(h.ram, back.ram, live)
    decreases callee, 2
  {
    BalancedCall(h, live, site, l, bank, callee);
    HoldsLater(h.ram, Invoke(AtCallee(h, site, l, bank), callee).h.ram, live, fr.entryS, long, home, ret);
  }

  /** A call of a balanced function returns normally with stack level and bank as before it; every
      return in it is a host return and pops the address after its call. */
  lemma BalancedCall(h: Host, live: set<nat>, site: nat, l: bool, bank: nat, callee: Body)
    requires |h.ram| == 0x2000 && Size(l) <= h.S < 0x2000 && h.slot == None && (forall a :: a in live ==> a > h.S)
    requires !l ==> site / 0x10000 % 0x100 == h.PB
    requires Balanced(callee, h.S - Size(l), h.S - Size(l), l)
    requires Tidy(callee, h.S - Size(l), if l then bank else h.PB, h.PB, live + FrameBytes(h.S - Size(l), l))
    ensures var o := Invoke(AtCallee(h, site, l, bank), callee);
            o.code == 0 && o.h.S == h.S && o.h.slot == None && (!l ==> o.h.PB == h.PB) &&
            SameOn(h.ram, o.h.ram, live) && o.log == Returns(callee, ReturnAddress(site, l))
    decreases callee, 1
  {
    CallEnters(h, live, site, l, bank);
    LevelRestored(h, site, l, bank, callee, l);
    var h1, e := AtCallee(h, site, l, bank), h.S - Size(l);
    BalancedRun(Enter(h1), Frame(e, Size(l)), callee, l, h.PB, ReturnAddress(site, l), live + FrameBytes(e, l));
    var o := Invoke(h1, callee);
    assert SameOn(h1.ram, o.h.ram, live);
    SameOnTrans(h.ram, h1.ram, o.h.ram, live);
  }

  // ----- The recomp stack and its cap -----

  /** How many recomp frames a body adds at most. */
  function Depth(b: Body): nat {
    match b
    case Push(v, rest) => Depth(rest)
    case Pull(rest) => Depth(rest)
    case Store(a, v, rest) => Depth(rest)
    case Call(site, l, bank, callee, rest) => if Depth(callee) + 1 > Depth(rest) then Depth(callee) + 1 else Depth(rest)
    case Tail(bank, callee) => Depth(callee) + 1
    case Ret(l) => 0
  }

  lemma PushThenPop(frames: seq<nat>, s: nat)
    requires |frames| < MAX_FRAMES
    ensures PopEntry(PushEntry(frames, s)) == frames && PushEntry(frames, s) == frames + [s]
  {
  }

  lemma CallFrames(h: Host, site: nat, l: bool, bank: nat)
    ensures AtCallee(h, site, l, bank).frames == h.frames
  {
  }

  /** Within the cap every run pops exactly its own recomp frame, however it returns. */
  lemma {:induction false} FramesRestored(h: Host, fr: Frame, b: Body)
    requires 1 <= |h.frames| && |h.frames| + Depth(b) <= MAX_FRAMES
    ensures Run(h, fr, b).h.frames == PopEntry(h.frames)
    decreases b, 0
  {
    match b
    case Push(v, rest) => FramesRestored(Push8(h, v), fr, rest);
    case Pull(rest) => FramesRestored(h.(S := Up(h.S, 1)), fr, rest);
    case Store(a, v, rest) => FramesRestored(Write8(h, a, v), fr, rest);
    case Call(site, l, bank, callee, rest) =>
      CallRestores(h, site, l, bank, callee);
      RunCall(h, fr, site, l, bank, callee, rest);
      FramesRestored(Back(h, Invoke(AtCallee(h, site, l, bank), callee), l), fr, rest);
    case Tail(bank, callee) =>
      var h1 := h.(PB := bank, hrv := fr.hrv, slot := Some(fr));
      PushThenPop(h.frames, fr.entryS);
      FramesRestored(Enter(h1), fr, callee);
    case Ret(l) =>
  }

  lemma CallRestores(h: Host, site: nat, l: bool, bank: nat, callee: Body)
    requires |h.frames| + Depth(callee) + 1 <= MAX_FRAMES
    ensures Invoke(AtCallee(h, site, l, bank), callee).h.frames == h.frames
    decreases callee, 1
  {
    var h1 := AtCallee(h, site, l, bank);
    CallFrames(h, site, l, bank);
    PushThenPop(h.frames, Entered(h1).entryS);
    FramesRestored(Enter(h1), Entered(h1), callee);
  }

  /** No run leaves more than the frames below its own. */
  lemma {:induction false} FramesShrink(h: Host, fr: Frame, b: Body)
    requires |h.frames| <= MAX_FRAMES
    ensures |Run(h, fr, b).h.frames| <= if h.frames == [] then 0 else |h.frames| - 1
    decreases b, 0
  {
    match b
    case Push(v, rest) => FramesShrink(Push8(h, v), fr, rest);
    case Pull(rest) => FramesShrink(h.(S := Up(h.S, 1)), fr, rest);
    case Store(a, v, rest) => FramesShrink(Write8(h, a, v), fr, rest);
    case Call(site, l, bank, callee, rest) =>
      CallShrinks(h, site, l, bank, callee);
      RunCall(h, fr, site, l, bank, callee, rest);
      FramesShrink(Back(h, Invoke(AtCallee(h, site, l, bank), callee), l), fr, rest);
    case Tail(bank, callee) =>
      var h1 := h.(PB := bank, hrv := fr.hrv, slot := Some(fr));
      FramesShrink(Enter(h1), fr, callee);
    case Ret(l) =>
  }

  /** A call leaves at most the frames there were, and fewer if the stack was full. */
  lemma CallShrinks(h: Host, site: nat, l: bool, bank: nat, callee: Body)
    requires |h.frames| <= MAX_FRAMES
    ensures var n := |Invoke(AtCallee(h, site, l, bank), callee).h.frames|;
            n <= |h.frames| && (|h.frames| == MAX_FRAMES ==> n < MAX_FRAMES)
    decreases callee, 1
  {
    var h1 := AtCallee(h, site, l, bank);
    CallFrames(h, site, l, bank);
    FramesShrink(Enter(h1), Entered(h1), callee);
  }

  /** A balanced run that would need more frames than the cap loses a live frame of its callers, if
      it has any. */
  lemma {:induction false} FramesLost(h: Host, fr: Frame, b: Body, long: bool)
    requires Balanced(b, h.S, fr.entryS, long) && h.S <= fr.entryS < 0x10000 && fr.hrv != 0 && h.slot == None
    requires 2 <= |h.frames| <= MAX_FRAMES < |h.frames| + Depth(b)
    ensures |Run(h, fr, b).h.frames| < |h.frames| - 1
    decreases b, 0
  {
    match b
    case Push(v, rest) =>
      assert Down(h.S) == h.S - 1;
      FramesLost(Push8(h, v), fr, rest, long);
    case Pull(rest) =>
      assert Up(h.S, 1) == h.S + 1;
      FramesLost(h.(S := h.S + 1), fr, rest, long);
    case Store(a, v, rest) =>
      FramesLost(Write8(h, a, v), fr, rest, long);
    case Call(site, l, bank, callee, rest) =>
      LevelRestored(h, site, l, bank, callee, l);
      var back := Back(h, Invoke(AtCallee(h, site, l, bank), callee), l);
      RunCall(h, fr, site, l, bank, callee, rest);
      if |h.frames| + Depth(callee) + 1 > MAX_FRAMES {
        CallLoses(h, site, l, bank, callee);
        FramesShrink(back, fr, rest);
      } else {
        CallRestores(h, site, l, bank, callee);
        FramesLost(back, fr, rest, long);
      }
    case Tail(bank, callee) =>
      TailLoses(h, fr, bank, callee, long);
    case Ret(l) =>
  }

  lemma CallLoses(h: Host, site: nat, l: bool, bank: nat, callee: Body)
    requires Size(l) <= h.S < 0x10000 && h.slot == None && Balanced(callee, h.S - Size(l), h.S - Size(l), l)
    requires 2 <= |h.frames| <= MAX_FRAMES < |h.frames| + Depth(callee) + 1
    ensures |Invoke(AtCallee(h, site, l, bank), callee).h.frames| < |h.frames|
    decreases callee, 1
  {
    var h1 := AtCallee(h, site, l, bank);
    CallLevel(h, site, l, bank);
    if |h.frames| == MAX_FRAMES {
      CallShrinks(h, site, l, bank, callee);
    } else {
      FramesLost(Enter(h1), Entered(h1), callee, l);
    }
  }

  lemma TailLoses(h: Host, fr: Frame, bank: nat, callee: Body, long: bool)
    requires Balanced(callee, h.S, fr.entryS, long) && h.S <= fr.entryS < 0x10000 && fr.hrv != 0 && h.slot == None
    requires 2 <= |h.frames| <= MAX_FRAMES < |h.frames| + Depth(callee) + 1
    ensures |Run(h, fr, Tail(bank, callee)).h.frames| < |h.frames| - 1
    decreases callee, 1
  {
    var h1 := h.(PB := bank, hrv := fr.hrv, slot := Some(fr));
    if |h.frames| == MAX_FRAMES {
      FramesShrink(Enter(h1), fr, callee);
    } else {
      FramesLost(Enter(h1), fr, callee, long);
    }
  }

  /** A balanced run called from somewhere gives back its callers' frames exactly when it stays within
      the cap. */
  lemma CapExact(h: Host, fr: Frame, b: Body, long: bool)
    requires Balanced(b, h.S, fr.entryS, long) && h.S <= fr.entryS < 0x10000 && fr.hrv != 0 && h.slot == None
    requires 2 <= |h.frames| <= 64
    ensures Run(h, fr, b).h.frames == h.frames[..|h.frames| - 1] <==> |h.frames| + Depth(b) <= 64
  {
    if |h.frames| + Depth(b) <= MAX_FRAMES {
      FramesRestored(h, fr, b);
    } else {
      FramesLost(h, fr, b, long);
    }
  }

  /** A run with no caller on the stack leaves it empty either way. */
  lemma CapAtBottom(h: Host, fr: Frame, b: Body)
    requires |h.frames| == 1
    ensures Run(h, fr, b).h.frames == PopEntry(h.frames)
  {
    FramesShrink(h, fr, b);
  }

  /** On a full stack one call of a function that returns at once loses the frame of its caller. */
  lemma FullStackLosesCaller(h: Host)
    requires |h.frames| == 64
    ensures Invoke(AtCallee(h, 0x8000, false, 0), Ret(false)).h.frames == h.frames[..63]
  {
    CallFrames(h, 0x8000, false, 0);
  }

  // ----- Returning to an ancestor -----

  /** How a run ends that returns to an ancestor: the nearest frame entered at the level of the stack,
      that level, the kind of the return, and the tail calls on the way from here to it: all of them,
      those made once that frame was entered, and those made before any call. */
  datatype Escape = Escape(frame: nat, level: nat, long: bool, tails: nat, after: nat, lead: nat)

  /** The ancestor return that ends a run, unless a host return or a dispatch does. */
  function Escaping(h: Host, fr: Frame, b: Body): Option<Escape>
    decreases b
  {
    match b
    case Push(v, rest) => Escaping(Push8(h, v), fr, rest)
    case Pull(rest) => Escaping(h.(S := Up(h.S, 1)), fr, rest)
    case Store(a, v, rest) => Escaping(Write8(h, a, v), fr, rest)
    case Call(site, l, bank, callee, rest) =>
      var h1 := AtCallee(h, site, l, bank);
      var o := Invoke(h1, callee);
      if o.code == 0 then Escaping(Back(h, o, l), fr, rest)
      else ThroughCall(Escaping(Enter(h1), Entered(h1), callee))
    case Tail(bank, callee) =>
      var h1 := h.(PB := bank, hrv := fr.hrv, slot := Some(fr));
      ThroughTail(Escaping(Enter(h1), fr, callee), |h.frames|)
    case Ret(l) =>
      if h.S == fr.entryS || |h.frames| == 0 then None
      else
        match Nearest(h.frames, |h.frames| - 1, h.S)
        case None => None
        case Some(i) => Some(Escape(i, h.S, l, 0, 0, 0))
  }

  function ThroughCall(x: Option<Escape>): Option<Escape> {
    match x
    case None => None
    case Some(e) => Some(e.(lead := 0))
  }

  /** A tail call by the function whose frame is number `n - 1`. */
  function ThroughTail(x: Option<Escape>, n: nat): Option<Escape> {
    match x
    case None => None
    case Some(e) => Some(e.(tails := e.tails + 1, after := e.after + (if e.frame < n then 1 else 0),
                              lead := e.lead + 1))
  }

  /** The frame found is the nearest one entered at the wanted level. */
  lemma {:induction false} NearestIs(frames: seq<nat>, n: nat, s: nat)
    requires n <= |frames|
    ensures match Nearest(frames, n, s)
            case Some(i) => i < n && frames[i] == s && forall j :: i < j < n ==> frames[j] != s
            case None => forall j :: 0 <= j < n ==> frames[j] != s
    decreases n
  {
    if n > 0 && frames[n - 1] != s { NearestIs(frames, n - 1, s); }
  }

  /** The kind of the return that a run ends with unless it unwinds: that of the function, or of the one
      that it hands over to. */
  function Ending(b: Body): bool {
    match b
    case Push(v, rest) => Ending(rest)
    case Pull(rest) => Ending(rest)
    case Store(a, v, rest) => Ending(rest)
    case Call(site, l, bank, callee, rest) => Ending(rest)
    case Tail(bank, callee) => Ending(callee)
    case Ret(l) => l
  }

  /** What a run hands to its caller: nothing to unwind, the stack as if the frame it was entered with had
      been popped; or the levels down to the ancestor's frame plus one for each tail call passed, with
      the stack at the ancestor's level and its frame popped. */
  ghost predicate HandsOn(n: nat, entryS: nat, long: bool, x: Option<Escape>, o: Outcome) {
    match x
    case None => o.code == 0 && o.h.S == Up(entryS, Size(long))
    case Some(e) => o.code == n - 1 - e.frame + e.tails && o.code >= 0 && o.h.S == Up(e.level, Size(e.long))
  }

  lemma ReturnHandsOn(h: Host, fr: Frame, l: bool)
    requires 1 <= |h.frames|
    ensures HandsOn(|h.frames|, fr.entryS, l, Escaping(h, fr, Ret(l)), Return(h, fr, l))
  {
    NearestIs(h.frames, |h.frames| - 1, h.S);
  }

  /** Every run within the cap, whatever ancestor returns were resolved inside its calls. */
  lemma {:induction false} EscapeRun(h: Host, fr: Frame, b: Body)
    requires 1 <= |h.frames| && |h.frames| + Depth(b) <= MAX_FRAMES
    ensures HandsOn(|h.frames|, fr.entryS, Ending(b), Escaping(h, fr, b), Run(h, fr, b))
    decreases b, 0
  {
    match b
    case Push(v, rest) => EscapeRun(Push8(h, v), fr, rest);
    case Pull(rest) => EscapeRun(h.(S := Up(h.S, 1)), fr, rest);
    case Store(a, v, rest) => EscapeRun(Write8(h, a, v), fr, rest);
    case Call(site, l, bank, callee, rest) =>
      EscapeCall(h, site, l, bank, callee);
      CallRestores(h, site, l, bank, callee);
      RunCall(h, fr, site, l, bank, callee, rest);
      EscapeRun(Back(h, Invoke(AtCallee(h, site, l, bank), callee), l), fr, rest);
    case Tail(bank, callee) =>
      var h1 := h.(PB := bank, hrv := fr.hrv, slot := Some(fr));
      PushThenPop(h.frames, fr.entryS);
      EscapeRun(Enter(h1), fr, callee);
    case Ret(l) =>
      ReturnHandsOn(h, fr, l);
  }

  lemma EscapeCall(h: Host, site: nat, l: bool, bank: nat, callee: Body)
    requires |h.frames| + Depth(callee) + 1 <= MAX_FRAMES
    ensures var h1 := AtCallee(h, site, l, bank);
            HandsOn(|h.frames| + 1, Entered(h1).entryS, Ending(callee), Escaping(Enter(h1), Entered(h1), callee),
                    Invoke(h1, callee))
    decreases callee, 1
  {
    var h1 := AtCallee(h, site, l, bank);
    CallFrames(h, site, l, bank);
    PushThenPop(h.frames, Entered(h1).entryS);
    EscapeRun(Enter(h1), Entered(h1), callee);
  }

  /** Which of the three ways an RTS or RTL takes, and the address that it pops: to the host caller, if
      there is one and the stack is at the level of the entry; to the nearest ancestor entered at the
      level of the stack, unless that is the level of the entry; else by a dispatch. */
  lemma ReturnTakes(h: Host, fr: Frame, l: bool)
    ensures var log, pc := Return(h, fr, l).log, Popped(h, l);
            if h.S == fr.entryS then log == [if fr.hrv != 0 then HostReturn(pc) else DispatchMiss(pc)]
            else if forall j :: 0 <= j < |h.frames| - 1 ==> h.frames[j] != h.S then log == [DispatchMiss(pc)]
            else exists i :: IsNearest(h.frames, i, h.S) && log == [ToAncestor(pc, |h.frames| - 1 - i)]
  {
    if h.S != fr.entryS && |h.frames| >= 2 {
      NearestIs(h.frames, |h.frames| - 1, h.S);
      var near := Nearest(h.frames, |h.frames| - 1, h.S);
      if near.Some? { assert IsNearest(h.frames, near.value, h.S); }
    }
  }

  /** The last frame below the running function's that was entered at level `s`. */
  predicate IsNearest(frames: seq<nat>, i: nat, s: nat) {
    i < |frames| - 1 && frames[i] == s && forall j :: i < j < |frames| - 1 ==> frames[j] != s
  }

  /** Down to the ancestor's frame all tail calls come after it was entered. */
  ghost predicate After(frames: seq<nat>, x: Option<Escape>) {
    match x
    case None => true
    case Some(e) => e.after <= e.tails && (e.frame < |frames| ==> e.after == e.tails && frames[e.frame] == e.level)
  }

  lemma {:induction false} AllAfter(h: Host, fr: Frame, b: Body)
    requires 1 <= |h.frames| && |h.frames| + Depth(b) <= MAX_FRAMES
    ensures After(h.frames, Escaping(h, fr, b))
    decreases b, 0
  {
    match b
    case Push(v, rest) => AllAfter(Push8(h, v), fr, rest);
    case Pull(rest) => AllAfter(h.(S := Up(h.S, 1)), fr, rest);
    case Store(a, v, rest) => AllAfter(Write8(h, a, v), fr, rest);
    case Call(site, l, bank, callee, rest) =>
      AllAfterCall(h, site, l, bank, callee);
      CallRestores(h, site, l, bank, callee);
      AllAfter(Back(h, Invoke(AtCallee(h, site, l, bank), callee), l), fr, rest);
    case Tail(bank, callee) =>
      AllAfterTail(h, fr, bank, callee);
    case Ret(l) =>
      NearestIs(h.frames, |h.frames| - 1, h.S);
  }

  lemma AllAfterCall(h: Host, site: nat, l: bool, bank: nat, callee: Body)
    requires |h.frames| + Depth(callee) + 1 <= MAX_FRAMES
    ensures var h1 := AtCallee(h, site, l, bank);
            After(h.frames, Escaping(Enter(h1), Entered(h1), callee))
    decreases callee, 1
  {
    var h1 := AtCallee(h, site, l, bank);
    CallFrames(h, site, l, bank);
    PushThenPop(h.frames, Entered(h1).entryS);
    AllAfter(Enter(h1), Entered(h1), callee);
  }

  /** The same seen from the frame of a function that hands over by a tail call. */
  lemma AllAfterTail(h: Host, fr: Frame, bank: nat, callee: Body)
    requires 1 <= |h.frames| && |h.frames| + Depth(callee) + 1 <= MAX_FRAMES
    ensures var x := Escaping(Enter(h.(PB := bank, hrv := fr.hrv, slot := Some(fr))), fr, callee);
            After(h.frames + [fr.entryS], x) && After(h.frames, ThroughTail(x, |h.frames|))
    decreases callee, 1
  {
    var h1 := h.(PB := bank, hrv := fr.hrv, slot := Some(fr));
    PushThenPop(h.frames, fr.entryS);
    AllAfter(Enter(h1), fr, callee);
    AfterTail(h.frames, fr.entryS, Escaping(Enter(h1), fr, callee));
  }

  lemma AfterTail(frames: seq<nat>, s: nat, x: Option<Escape>)
    requires After(frames + [s], x)
    ensures After(frames, ThroughTail(x, |frames|))
  {
  }

  /** The frame is the running function's or one that it handed over to by tail calls alone. */
  predicate InOwnChain(n: nat, x: Escape) {
    n - 1 <= x.frame <= n - 1 + x.lead
  }

  /** An ancestor in the function's own tail chain has the function's entry level, and the tail calls
      before it was entered are the steps of the chain. */
  ghost predicate Chained(n: nat, s: nat, x: Option<Escape>) {
    match x
    case None => true
    case Some(e) => InOwnChain(n, e) ==> e.level == s && e.after == e.tails - (e.frame - (n - 1))
  }

  lemma ChainedTail(frames: seq<nat>, s: nat, x: Option<Escape>)
    requires frames != [] && frames[|frames| - 1] == s
    requires Chained(|frames| + 1, s, x) && After(frames + [s], x)
    ensures Chained(|frames|, s, ThroughTail(x, |frames|))
  {
  }

  lemma ChainedCall(frames: seq<nat>, s: nat, x: Option<Escape>)
    requires frames != [] && frames[|frames| - 1] == s && After(frames, x)
    ensures Chained(|frames|, s, ThroughCall(x))
  {
  }

  lemma {:induction false} OwnChain(h: Host, fr: Frame, b: Body)
    requires 1 <= |h.frames| && |h.frames| + Depth(b) <= MAX_FRAMES && h.frames[|h.frames| - 1] == fr.entryS
    ensures Chained(|h.frames|, fr.entryS, Escaping(h, fr, b))
    decreases b, 0
  {
    match b
    case Push(v, rest) => OwnChain(Push8(h, v), fr, rest);
    case Pull(rest) => OwnChain(h.(S := Up(h.S, 1)), fr, rest);
    case Store(a, v, rest) => OwnChain(Write8(h, a, v), fr, rest);
    case Call(site, l, bank, callee, rest) =>
      var h1 := AtCallee(h, site, l, bank);
      AllAfterCall(h, site, l, bank, callee);
      ChainedCall(h.frames, fr.entryS, Escaping(Enter(h1), Entered(h1), callee));
      CallRestores(h, site, l, bank, callee);
      OwnChain(Back(h, Invoke(h1, callee), l), fr, rest);
    case Tail(bank, callee) =>
      OwnChainTail(h, fr, bank, callee);
    case Ret(l) =>
      NearestIs(h.frames, |h.frames| - 1, h.S);
  }

  lemma OwnChainTail(h: Host, fr: Frame, bank: nat, callee: Body)
    requires 1 <= |h.frames| && |h.frames| + Depth(callee) + 1 <= MAX_FRAMES && h.frames[|h.frames| - 1] == fr.entryS
    ensures var x := Escaping(Enter(h.(PB := bank, hrv := fr.hrv, slot := Some(fr))), fr, callee);
            Chained(|h.frames|, fr.entryS, ThroughTail(x, |h.frames|))
    decreases callee, 1
  {
    var h1 := h.(PB := bank, hrv := fr.hrv, slot := Some(fr));
    PushThenPop(h.frames, fr.entryS);
    OwnChain(Enter(h1), fr, callee);
    AllAfterTail(h, fr, bank, callee);
    ChainedTail(h.frames, fr.entryS, Escaping(Enter(h1), fr, callee));
  }

  // ----- Who resumes -----

  /** The caller goes on after its call. */
  ghost predicate Resumes(h: Host, fr: Frame, site: nat, l: bool, bank: nat, callee: Body, rest: Body) {
    var o := Invoke(AtCallee(h, site, l, bank), callee);
    var r := Run(Back(h, o, l), fr, rest);
    Run(h, fr, Call(site, l, bank, callee, rest)) == r.(log := o.log + r.log) && Back(h, o, l).frames == h.frames
  }

  /** The caller returns early with one level less: it does the same whatever follows its call. */
  ghost predicate ReturnsEarly(h: Host, fr: Frame, site: nat, l: bool, bank: nat, callee: Body) {
    var o := Invoke(AtCallee(h, site, l, bank), callee);
    o.code > 0 && forall rest ::
      Run(h, fr, Call(site, l, bank, callee, rest)) == Outcome(Leave(Back(h, o, l)), o.code - 1, o.log)
  }

  /** Exactly who resumes when a callee ends with a return to an ancestor: the caller of frame number
      n = |h.frames| does iff the ancestor's frame is number n plus the tail calls passed; else it
      returns early. */
  lemma ResumesExactly(h: Host, fr: Frame, site: nat, l: bool, bank: nat, callee: Body, rest: Body, x: Escape)
    requires 1 <= |h.frames| && |h.frames| + Depth(callee) + 1 <= MAX_FRAMES
    requires var h1 := AtCallee(h, site, l, bank); Escaping(Enter(h1), Entered(h1), callee) == Some(x)
    ensures if x.frame == |h.frames| + x.tails then Resumes(h, fr, site, l, bank, callee, rest)
            else ReturnsEarly(h, fr, site, l, bank, callee)
    ensures Invoke(AtCallee(h, site, l, bank), callee).h.S == Up(x.level, Size(x.long))
  {
    EscapeCall(h, site, l, bank, callee);
    CallRestores(h, site, l, bank, callee);
    forall rest
      ensures var o := Invoke(AtCallee(h, site, l, bank), callee);
              var r := Run(h, fr, Call(site, l, bank, callee, rest));
              o.code != 0 ==> r == Outcome(Leave(Back(h, o, l)), o.code - 1, o.log)
    {
      RunCall(h, fr, site, l, bank, callee, rest);
    }
    RunCall(h, fr, site, l, bank, callee, rest);
  }

  /** Callers strictly below the ancestor, and the ancestor itself, return early. */
  lemma CallersReturnEarly(h: Host, fr: Frame, site: nat, l: bool, bank: nat, callee: Body, x: Escape)
    requires 1 <= |h.frames| && |h.frames| + Depth(callee) + 1 <= MAX_FRAMES
    requires var h1 := AtCallee(h, site, l, bank); Escaping(Enter(h1), Entered(h1), callee) == Some(x)
    requires x.frame < |h.frames|
    ensures ReturnsEarly(h, fr, site, l, bank, callee) && h.frames[x.frame] == x.level
    ensures Invoke(AtCallee(h, site, l, bank), callee).code == |h.frames| - x.frame + x.after
  {
    ResumesExactly(h, fr, site, l, bank, callee, Ret(false), x);
    AllAfterCall(h, site, l, bank, callee);
    EscapeCall(h, site, l, bank, callee);
  }

  /** The caller of the ancestor, or of the function whose tail calls led to it, resumes iff no tail call
      was made once the ancestor was entered, and then at the level before its call iff the return
      fits the call. */
  lemma AncestorCallerResumes(h: Host, fr: Frame, site: nat, l: bool, bank: nat, callee: Body, rest: Body, x: Escape)
    requires 1 <= |h.frames| && |h.frames| + Depth(callee) + 1 <= MAX_FRAMES &&
             Size(l) <= h.S < 0x10000 && h.slot == None
    requires var h1 := AtCallee(h, site, l, bank); Escaping(Enter(h1), Entered(h1), callee) == Some(x)
    requires InOwnChain(|h.frames| + 1, x)
    ensures if x.after == 0 then Resumes(h, fr, site, l, bank, callee, rest)
            else ReturnsEarly(h, fr, site, l, bank, callee)
    ensures Invoke(AtCallee(h, site, l, bank), callee).h.S == h.S <==> l == x.long
  {
    var h1 := AtCallee(h, site, l, bank);
    CallLevel(h, site, l, bank);
    PushThenPop(h.frames, h1.S);
    OwnChain(Enter(h1), Entered(h1), callee);
    ResumesExactly(h, fr, site, l, bank, callee, rest, x);
    LevelFits(h.S, l, x.long);
  }

  lemma LevelFits(s: nat, l: bool, long: bool)
    requires Size(l) <= s < 0x10000
    ensures Up(s - Size(l), Size(long)) == s <==> l == long
  {
  }

  // ----- Tail calls make the unwinding overshoot -----

  lemma EscapingCall(h: Host, fr: Frame, site: nat, l: bool, bank: nat, callee: Body, rest: Body, x: Escape)
    requires |h.frames| + Depth(callee) + 1 <= MAX_FRAMES
    requires var h1 := AtCallee(h, site, l, bank); Escaping(Enter(h1), Entered(h1), callee) == Some(x)
    requires x.frame != |h.frames| + x.tails
    ensures Escaping(h, fr, Call(site, l, bank, callee, rest)) == Some(x.(lead := 0))
  {
    EscapeCall(h, site, l, bank, callee);
  }

  /** A function just entered, with room for `depth` frames more. */
  predicate Fresh(h: Host, fr: Frame, depth: nat) {
    && 1 <= |h.frames| && |h.frames| + depth <= MAX_FRAMES && h.frames[|h.frames| - 1] == fr.entryS == h.S
    && 2 * depth <= h.S < 0xFFF0 && h.slot == None
  }

  /** Its caller was entered two bytes above. */
  predicate CalledShort(h: Host) {
    |h.frames| >= 2 && h.frames[|h.frames| - 2] == h.S + 2
  }

  /** A JSR enters its callee two bytes down. */
  lemma ShortCall(h: Host, site: nat, depth: nat)
    requires 2 * depth + 2 <= h.S < 0xFFF0 && h.slot == None && |h.frames| + 1 + depth <= MAX_FRAMES
    ensures var h1 := AtCallee(h, site, false, 0);
            Fresh(Enter(h1), Entered(h1), depth) && Enter(h1).S == h.S - 2 && Enter(h1).frames == h.frames + [h.S - 2]
  {
    CallLevel(h, site, false, 0);
    PushThenPop(h.frames, h.S - 2);
  }

  /** Where a body escapes to when just entered. */
  predicate EscapesTo(h: Host, fr: Frame, b: Body, frame: int, level: nat, tails: nat, after: nat, lead: nat) {
    frame >= 0 && Escaping(h, fr, b) == Some(Escape(frame, level, false, tails, after, lead))
  }

  /** Called from anywhere, the body returns at the level two frames up, its caller's own. */
  ghost predicate SkipsCaller(b: Body) {
    Depth(b) == 0 && forall h, fr, i ::
      Fresh(h, fr, 0) && Nearest(h.frames, |h.frames| - 1, h.S + 4) == Some(i) ==>
        EscapesTo(h, fr, b, i, h.S + 4, 0, 0, 0)
  }

  lemma UnwinderSkips()
    ensures SkipsCaller(Pull(Pull(Pull(Pull(Ret(false))))))
  {
    forall h: Host, fr, i | Fresh(h, fr, 0) && Nearest(h.frames, |h.frames| - 1, h.S + 4) == Some(i)
      ensures EscapesTo(h, fr, Pull(Pull(Pull(Pull(Ret(false))))), i, h.S + 4, 0, 0, 0)
    {
      assert Up(h.S, 1) == h.S + 1 && Up(h.S + 1, 1) == h.S + 2 &&
             Up(h.S + 2, 1) == h.S + 3 && Up(h.S + 3, 1) == h.S + 4;
      assert EscapesTo(h.(S := h.S + 4), fr, Ret(false), i, h.S + 4, 0, 0, 0);
    }
  }

  /** Tail-called by a function that a JSR entered, the body escapes to that function's caller. */
  ghost predicate SkipsFirst(b: Body) {
    Depth(b) <= 1 &&
    forall h, fr :: Fresh(h, fr, 1) && TailCalled(h) ==> EscapesTo(h, fr, b, |h.frames| - 3, h.S + 2, 0, 0, 0)
  }

  predicate TailCalled(h: Host) {
    |h.frames| >= 3 && h.frames[|h.frames| - 2] == h.S && h.frames[|h.frames| - 3] == h.S + 2
  }

  lemma CallSkipsFirst(b: Body)
    requires SkipsCaller(b)
    ensures SkipsFirst(Call(0x8300, false, 0, b, Ret(false)))
  {
    forall h: Host, fr | Fresh(h, fr, 1) && TailCalled(h)
      ensures EscapesTo(h, fr, Call(0x8300, false, 0, b, Ret(false)), |h.frames| - 3, h.S + 2, 0, 0, 0)
    {
      CallSkipsAt(h, fr, b);
    }
  }

  lemma SkipsCallerAt(h: Host, fr: Frame, b: Body, i: nat)
    requires SkipsCaller(b) && Fresh(h, fr, 0) && Nearest(h.frames, |h.frames| - 1, h.S + 4) == Some(i)
    ensures Depth(b) == 0 && EscapesTo(h, fr, b, i, h.S + 4, 0, 0, 0)
  {
  }

  lemma CallSkipsAt(h: Host, fr: Frame, b: Body)
    requires SkipsCaller(b) && Fresh(h, fr, 1) && TailCalled(h)
    ensures EscapesTo(h, fr, Call(0x8300, false, 0, b, Ret(false)), |h.frames| - 3, h.S + 2, 0, 0, 0)
  {
    ShortCall(h, 0x8300, 0);
    NearestThird(h);
    var n, h1 := |h.frames|, AtCallee(h, 0x8300, false, 0);
    SkipsCallerAt(Enter(h1), Entered(h1), b, n - 3);
    EscapingCall(h, fr, 0x8300, false, 0, b, Ret(false), Escape(n - 3, h.S + 2, false, 0, 0, 0));
  }

  lemma NearestThird(h: Host)
    requires TailCalled(h) && h.S >= 2 && h.frames[|h.frames| - 1] == h.S
    ensures Nearest(h.frames + [h.S - 2], |h.frames|, h.S + 2) == Some(|h.frames| - 3)
  {
    var n, f := |h.frames|, h.frames + [h.S - 2];
    assert Nearest(f, n - 2, h.S + 2) == Some(n - 3);
    assert Nearest(f, n - 1, h.S + 2) == Some(n - 3);
  }

  /** Called by a JSR, the body escapes to its caller after one tail call. */
  ghost predicate TailsPast(b: Body) {
    Depth(b) <= 2 &&
    forall h, fr :: Fresh(h, fr, 2) && CalledShort(h) ==> EscapesTo(h, fr, b, |h.frames| - 2, h.S + 2, 1, 1, 1)
  }

  lemma TailTailsPast(b: Body)
    requires SkipsFirst(b)
    ensures TailsPast(Tail(0, b))
  {
    forall h: Host, fr | Fresh(h, fr, 2) && CalledShort(h)
      ensures EscapesTo(h, fr, Tail(0, b), |h.frames| - 2, h.S + 2, 1, 1, 1)
    {
      PushThenPop(h.frames, fr.entryS);
      var second := Enter(h.(PB := 0, hrv := fr.hrv, slot := Some(fr)));
      assert Fresh(second, fr, 1) && TailCalled(second);
      assert EscapesTo(second, fr, b, |second.frames| - 3, second.S + 2, 0, 0, 0);
    }
  }

  /** However it is entered, the body escapes to itself after one tail call. */
  ghost predicate Overshoots(b: Body) {
    Depth(b) <= 3 && forall h, fr :: Fresh(h, fr, 3) ==> EscapesTo(h, fr, b, |h.frames| - 1, h.S, 1, 1, 0)
  }

  lemma CallOvershoots(b: Body)
    requires TailsPast(b)
    ensures Overshoots(Call(0x8100, false, 0, b, Ret(false)))
  {
    forall h: Host, fr | Fresh(h, fr, 3)
      ensures EscapesTo(h, fr, Call(0x8100, false, 0, b, Ret(false)), |h.frames| - 1, h.S, 1, 1, 0)
    {
      CallOvershootsAt(h, fr, b);
    }
  }

  lemma TailsPastAt(h: Host, fr: Frame, b: Body)
    requires TailsPast(b) && Fresh(h, fr, 2) && CalledShort(h)
    ensures Depth(b) <= 2 && EscapesTo(h, fr, b, |h.frames| - 2, h.S + 2, 1, 1, 1)
  {
  }

  lemma CallOvershootsAt(h: Host, fr: Frame, b: Body)
    requires TailsPast(b) && Fresh(h, fr, 3)
    ensures EscapesTo(h, fr, Call(0x8100, false, 0, b, Ret(false)), |h.frames| - 1, h.S, 1, 1, 0)
  {
    ShortCall(h, 0x8100, 2);
    var h1 := AtCallee(h, 0x8100, false, 0);
    TailsPastAt(Enter(h1), Entered(h1), b);
    EscapingCall(h, fr, 0x8100, false, 0, b, Ret(false), Escape(|h.frames| - 1, h.S, false, 1, 1, 1));
  }

  /** A function calls one that tail-calls a third, whose callee pulls both return frames and returns
      at the level of the first. */
  function Overshooting(): Body {
    Call(0x8100, false, 0, Tail(0, Call(0x8300, false, 0, Pull(Pull(Pull(Pull(Ret(false))))), Ret(false))), Ret(false))
  }

  lemma OvershootingExists()
    ensures Overshoots(Overshooting())
  {
    var unwinder := Pull(Pull(Pull(Pull(Ret(false)))));
    var third := Call(0x8300, false, 0, unwinder, Ret(false));
    UnwinderSkips();
    CallSkipsFirst(unwinder);
    TailTailsPast(third);
    CallOvershoots(Tail(0, third));
  }

  /** The caller of such a function returns early. */
  lemma OvershotReturnsEarly(h: Host, fr: Frame, b: Body)
    requires Overshoots(b) && 1 <= |h.frames| <= MAX_FRAMES - 4 && 8 <= h.S < 0xFFF0 && h.slot == None
    ensures ReturnsEarly(h, fr, 0x8000, false, 0, b)
  {
    ShortCall(h, 0x8000, 3);
    var h1 := AtCallee(h, 0x8000, false, 0);
    OvershootAt(Enter(h1), Entered(h1), b);
    ResumesExactly(h, fr, 0x8000, false, 0, b, Ret(false), Escape(|h.frames|, h.S - 2, false, 1, 1, 0));
  }

  /** The caller of `Overshooting` should resume, but is made to return early. */
  lemma TailOvershoots(h: Host, fr: Frame)
    requires 1 <= |h.frames| <= MAX_FRAMES - 4 && 8 <= h.S < 0xFFF0 && h.slot == None
    ensures ReturnsEarly(h, fr, 0x8000, false, 0, Overshooting())
  {
    OvershootingExists();
    OvershotReturnsEarly(h, fr, Overshooting());
  }

  /** A function cut short because a callee of it overshoots. */
  ghost predicate CutShort(b: Body) {
    Depth(b) <= 4 && forall h, fr :: Fresh(h, fr, 4) ==> EscapesTo(h, fr, b, |h.frames|, h.S - 2, 1, 1, 0)
  }

  lemma OvershootAt(h: Host, fr: Frame, b: Body)
    requires Overshoots(b) && Fresh(h, fr, 3)
    ensures Depth(b) <= 3 && EscapesTo(h, fr, b, |h.frames| - 1, h.S, 1, 1, 0)
  {
  }

  lemma CutShortAt(h: Host, fr: Frame, b: Body, middle: Body)
    requires Overshoots(b) && Fresh(h, fr, 4)
    ensures EscapesTo(h, fr, Call(0x8000, false, 0, b, middle), |h.frames|, h.S - 2, 1, 1, 0)
  {
    ShortCall(h, 0x8000, 3);
    var h1 := AtCallee(h, 0x8000, false, 0);
    OvershootAt(Enter(h1), Entered(h1), b);
    EscapingCall(h, fr, 0x8000, false, 0, b, middle, Escape(|h.frames|, h.S - 2, false, 1, 1, 0));
  }

  lemma CallerCutShort(b: Body, middle: Body)
    requires Overshoots(b) && Depth(middle) <= 4
    ensures CutShort(Call(0x8000, false, 0, b, middle))
  {
    forall h: Host, fr | Fresh(h, fr, 4)
      ensures EscapesTo(h, fr, Call(0x8000, false, 0, b, middle), |h.frames|, h.S - 2, 1, 1, 0)
    {
      CutShortAt(h, fr, b, middle);
    }
  }

  /** The caller of a function cut short resumes two bytes too low. */
  lemma CutShortResumes(h: Host, fr: Frame, b: Body, rest: Body)
    requires CutShort(b) && 1 <= |h.frames| <= MAX_FRAMES - 5 && 10 <= h.S < 0xFFF0 && h.slot == None
    ensures Resumes(h, fr, 0x7000, false, 0, b, rest)
    ensures Invoke(AtCallee(h, 0x7000, false, 0), b).h.S == h.S - 2
  {
    ShortCall(h, 0x7000, 4);
    var h1 := AtCallee(h, 0x7000, false, 0);
    assert EscapesTo(Enter(h1), Entered(h1), b, |Enter(h1).frames|, Enter(h1).S - 2, 1, 1, 0);
    var x := Escape(|h.frames| + 1, h.S - 4, false, 1, 1, 0);
    ResumesExactly(h, fr, 0x7000, false, 0, b, rest, x);
    TwoUp(h.S - 4);
  }

  /** The caller of a function that calls `Overshooting` resumes as if that function had returned, two
      bytes too low, although the ancestor lies in a callee of that function and not in its tail
      chain. */
  lemma OvershootResumesOuterCaller(h: Host, fr: Frame, middle: Body, rest: Body)
    requires 1 <= |h.frames| <= MAX_FRAMES - 5 && 10 <= h.S < 0xFFF0 && h.slot == None && Depth(middle) <= 4
    ensures Resumes(h, fr, 0x7000, false, 0, Call(0x8000, false, 0, Overshooting(), middle), rest)
    ensures Invoke(AtCallee(h, 0x7000, false, 0), Call(0x8000, false, 0, Overshooting(), middle)).h.S == h.S - 2
  {
    OvershootingExists();
    CallerCutShort(Overshooting(), middle);
    CutShortResumes(h, fr, Call(0x8000, false, 0, Overshooting(), middle), rest);
  }

  lemma TwoUp(s: nat)
    requires s + 2 < 0x10000
    ensures Up(s, Size(false)) == s + 2
  {
  }
}
