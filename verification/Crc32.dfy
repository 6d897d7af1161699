/** The table-driven CRC-32 of the runtime against the bit-serial reflected CRC of IEEE 802.3.
    A 32-bit word is its sequence of bits, bit 0 first. */
module Crc32 {

  type Word = w: seq<bool> | |w| == 32 witness Zeros(32)

  type Byte = n: nat | n < 0x100

  /** 0xEDB88320, least significant bit first. */
  const POLY: Word :=
    [false, false, false, false,  false, true, false, false,  true, true, false, false,  false, false, false, true,
     false, false, false, true,  true, true, false, true,  true, false, true, true,  false, true, true, true]

  const ONES: Word := Mask(i => true)

  /** The word with the bits at which `f` holds. */
  function Mask(f: int -> bool): (w: Word)
    ensures forall i :: 0 <= i < 32 ==> w[i] == f(i)
  {
    seq(32, f)
  }

  /** Bit `i`, and zero beyond the top. */
  function At(c: seq<bool>, i: int): bool {
    0 <= i < |c| && c[i]
  }

  function Xor(a: Word, b: Word): (w: Word)
    ensures forall i :: 0 <= i < 32 ==> w[i] == (At(a, i) != At(b, i))
  {
    Mask(i => At(a, i) != At(b, i))
  }

  function Shr(c: Word, k: nat): (w: Word)
    ensures forall i :: 0 <= i < 32 ==> w[i] == At(c, i + k)
  {
    Mask(i => At(c, i + k))
  }

  function Low(c: Word): (w: Word)
    ensures forall i :: 0 <= i < 32 ==> w[i] == (i < 8 && At(c, i))
  {
    Mask(i => i < 8 && At(c, i))
  }

  function Zeros(n: nat): (z: seq<bool>)
    ensures |z| == n && forall i :: 0 <= i < n ==> !z[i]
  {
    seq(n, i => false)
  }

  /** A byte as a word. */
  function Bits(n: Byte): Word {
    [n % 2 == 1, n / 2 % 2 == 1, n / 4 % 2 == 1, n / 8 % 2 == 1,
     n / 16 % 2 == 1, n / 32 % 2 == 1, n / 64 % 2 == 1, n / 128 % 2 == 1] + Zeros(24)
  }

  function Digit(bit: bool): nat {
    if bit then 1 else 0
  }

  /** The number in the low eight bits of a word. */
  function LowValue(c: Word): (n: Byte) {
    Digit(c[0]) + 2 * Digit(c[1]) + 4 * Digit(c[2]) + 8 * Digit(c[3])
    + 16 * Digit(c[4]) + 32 * Digit(c[5]) + 64 * Digit(c[6]) + 128 * Digit(c[7])
  }

  /** One step of the reflected register. */
  function Shift(c: Word): Word {
    if c[0] then Xor(POLY, Shr(c, 1)) else Shr(c, 1)
  }

  function Shifts(c: Word, n: nat): Word {
    Iterate(Shift, c, n)
  }

  function Iterate<T>(f: T -> T, t: T, n: nat): T
    decreases n
  {
    if n == 0 then t else Iterate(f, f(t), n - 1)
  }

  // ----- The bit-serial definition -----

  /** One message bit enters the register. */
  function FeedBit(c: Word, bit: bool): Word {
    if c[0] != bit then Xor(POLY, Shr(c, 1)) else Shr(c, 1)
  }

  /** The lowest bit of the second word enters the first and is used up. */
  function FeedNext(p: (Word, Word)): (Word, Word) {
    (FeedBit(p.0, p.1[0]), Shr(p.1, 1))
  }

  /** The eight bits of a byte enter one at a time, least significant first. */
  function FeedByte(c: Word, b: Byte): Word {
    Iterate(FeedNext, (c, Bits(b)), 8).0
  }

  function FeedBytes(c: Word, data: seq<Byte>): Word {
    Fold(FeedByte, c, data)
  }

  function Fold<T, B>(f: (T, B) -> T, t: T, data: seq<B>): T
    decreases |data|
  {
    if data == [] then t else Fold(f, f(t, data[0]), data[1..])
  }

  /** The CRC of a message. */
  function Reference(data: seq<Byte>): Word {
    Xor(FeedBytes(ONES, data), ONES)
  }

  // ----- Iteration -----

  lemma {:induction false} IterateAdd<T>(f: T -> T, t: T, m: nat, n: nat)
    ensures Iterate(f, t, m + n) == Iterate(f, Iterate(f, t, m), n)
    decreases m
  {
    if m > 0 { IterateAdd(f, f(t), m - 1, n); }
  }

  lemma {:induction false} IterateInjective<T(!new)>(f: T -> T, a: T, b: T, n: nat)
    requires forall a, b :: f(a) == f(b) ==> a == b
    requires Iterate(f, a, n) == Iterate(f, b, n)
    ensures a == b
    decreases n
  {
    if n > 0 { IterateInjective(f, f(a), f(b), n - 1); }
  }

  /** A map that carries one step of `g` to one step of `f` carries `n` steps to `n` steps. */
  lemma {:induction false} IterateCommutes<S(!new), T>(g: S -> S, f: T -> T, h: S -> T, s: S, n: nat)
    requires forall s :: h(g(s)) == f(h(s))
    ensures h(Iterate(g, s, n)) == Iterate(f, h(s), n)
    decreases n
  {
    if n > 0 { IterateCommutes(g, f, h, g(s), n - 1); }
  }

  lemma {:induction false} IterateLinear<T(!new)>(f: T -> T, x: (T, T) -> T, a: T, b: T, n: nat)
    requires forall a, b :: f(x(a, b)) == x(f(a), f(b))
    ensures Iterate(f, x(a, b), n) == x(Iterate(f, a, n), Iterate(f, b, n))
    decreases n
  {
    if n > 0 { IterateLinear(f, x, f(a), f(b), n - 1); }
  }

  // ----- Algebra of the register -----

  lemma XorRules(a: Word, b: Word, c: Word)
    ensures Xor(a, Xor(b, c)) == Xor(Xor(a, b), c)
    ensures Xor(a, b) == Xor(b, a)
    ensures Xor(Xor(a, b), b) == a
  {
  }

  lemma XorInjective(a: Word, b: Word, c: Word)
    requires Xor(a, c) == Xor(b, c)
    ensures a == b
  {
    XorRules(a, c, c);
    XorRules(b, c, c);
  }

  lemma ShiftXor(a: Word, b: Word)
    ensures Shift(Xor(a, b)) == Xor(Shift(a), Shift(b))
  {
  }

  lemma ShiftsXor(a: Word, b: Word, n: nat)
    ensures Shifts(Xor(a, b), n) == Xor(Shifts(a, n), Shifts(b, n))
  {
    forall a, b
      ensures Shift(Xor(a, b)) == Xor(Shift(a), Shift(b))
    {
      ShiftXor(a, b);
    }
    IterateLinear(Shift, Xor, a, b, n);
  }

  /** The top bit of a shifted register tells which way it went. */
  lemma ShiftInjective(a: Word, b: Word)
    requires Shift(a) == Shift(b)
    ensures a == b
  {
    assert Shift(a)[31] == a[0] && Shift(b)[31] == b[0];
    assert Shr(a, 1) == Shr(b, 1) by {
      if a[0] {
        XorRules(POLY, Shr(a, 1), Shr(a, 1));
        XorRules(POLY, Shr(b, 1), Shr(b, 1));
        XorInjective(Shr(a, 1), Shr(b, 1), POLY);
      }
    }
    forall i | 0 <= i < 32
      ensures a[i] == b[i]
    {
      assert i > 0 ==> Shr(a, 1)[i - 1] == a[i] && Shr(b, 1)[i - 1] == b[i];
    }
  }

  lemma ShiftsInjective(a: Word, b: Word, n: nat)
    requires Shifts(a, n) == Shifts(b, n)
    ensures a == b
  {
    forall a, b | Shift(a) == Shift(b)
      ensures a == b
    {
      ShiftInjective(a, b);
    }
    IterateInjective(Shift, a, b, n);
  }

  lemma ShrAdd(c: Word, m: nat, n: nat)
    ensures Shr(Shr(c, m), n) == Shr(c, m + n)
  {
    forall i | 0 <= i < 32
      ensures Shr(Shr(c, m), n)[i] == Shr(c, m + n)[i]
    {
      assert At(Shr(c, m), i + n) == At(c, i + n + m);
    }
  }

  lemma ShrNone(c: Word)
    ensures Shr(c, 0) == c
  {
    assert forall i :: 0 <= i < 32 ==> Shr(c, 0)[i] == At(c, i + 0);
  }

  /** A register whose low bits are clear just moves down. */
  lemma {:induction false} ShiftsClear(c: Word, n: nat)
    requires n <= 32 && forall i :: 0 <= i < n ==> !At(c, i)
    ensures Iterate(Shift, c, n) == Shr(c, n)
    decreases n
  {
    if n == 0 {
      ShrNone(c);
    } else {
      var d := Shr(c, 1);
      assert !At(c, 0) && Shift(c) == d;
      forall i | 0 <= i < n - 1
        ensures !At(d, i)
      {
        assert At(d, i) == At(c, i + 1);
      }
      ShiftsClear(d, n - 1);
      ShrAdd(c, 1, n - 1);
    }
  }

  lemma SplitLow(c: Word, hi: Word)
    requires hi == Mask(i => i >= 8 && At(c, i))
    ensures c == Xor(Low(c), hi) && Shr(hi, 8) == Shr(c, 8) && forall i :: 0 <= i < 8 ==> !At(hi, i)
  {
  }

  /** Eight steps by one table lookup. */
  lemma TableStep(c: Word)
    ensures Shifts(c, 8) == Xor(Shifts(Low(c), 8), Shr(c, 8))
  {
    var hi := Mask(i => i >= 8 && At(c, i));
    SplitLow(c, hi);
    ShiftsXor(Low(c), hi, 8);
    ShiftsClear(hi, 8);
  }

  // ----- The table form -----

  lemma BitStep(c: Word, w: Word)
    ensures Xor(FeedBit(c, w[0]), Shr(w, 1)) == Shift(Xor(c, w))
  {
  }

  function Combine(p: (Word, Word)): Word {
    Xor(p.0, p.1)
  }

  function Down(w: Word): Word {
    Shr(w, 1)
  }

  function Rest(p: (Word, Word)): Word {
    p.1
  }

  lemma {:induction false} DownRepeated(w: Word, n: nat)
    ensures Iterate(Down, w, n) == Shr(w, n)
    decreases n
  {
    if n == 0 {
      ShrNone(w);
    } else {
      DownRepeated(Shr(w, 1), n - 1);
      ShrAdd(w, 1, n - 1);
    }
  }

  /** Eight bits entered one at a time are the byte entered at once. */
  lemma FeedAtOnce(c: Word, b: Byte)
    ensures FeedByte(c, b) == Shifts(Xor(c, Bits(b)), 8)
  {
    var start := (c, Bits(b));
    var end := Iterate(FeedNext, start, 8);
    forall p
      ensures Combine(FeedNext(p)) == Shift(Combine(p)) && Rest(FeedNext(p)) == Down(Rest(p))
    {
      BitStep(p.0, p.1);
    }
    IterateCommutes(FeedNext, Shift, Combine, start, 8);
    IterateCommutes(FeedNext, Down, Rest, start, 8);
    DownRepeated(Bits(b), 8);
    NothingLeft(end.0, b);
  }

  lemma NothingLeft(c: Word, b: Byte)
    ensures Xor(c, Shr(Bits(b), 8)) == c
  {
    forall i | 0 <= i < 32
      ensures !Shr(Bits(b), 8)[i]
    {
      assert !At(Bits(b), i + 8);
    }
  }

  lemma LowValueDigits(n: nat, b: seq<nat>)
    requires |b| == 8 && forall i :: 0 <= i < 8 ==> b[i] < 2
    requires n == b[0] + 2 * b[1] + 4 * b[2] + 8 * b[3] + 16 * b[4] + 32 * b[5] + 64 * b[6] + 128 * b[7]
    ensures n % 2 == b[0] && n / 2 % 2 == b[1] && n / 4 % 2 == b[2] && n / 8 % 2 == b[3]
    ensures n / 16 % 2 == b[4] && n / 32 % 2 == b[5] && n / 64 % 2 == b[6] && n / 128 % 2 == b[7]
  {
    assert n / 2 == b[1] + 2 * b[2] + 4 * b[3] + 8 * b[4] + 16 * b[5] + 32 * b[6] + 64 * b[7];
    assert n / 4 == b[2] + 2 * b[3] + 4 * b[4] + 8 * b[5] + 16 * b[6] + 32 * b[7];
    assert n / 8 == b[3] + 2 * b[4] + 4 * b[5] + 8 * b[6] + 16 * b[7];
    assert n / 16 == b[4] + 2 * b[5] + 4 * b[6] + 8 * b[7];
    assert n / 32 == b[5] + 2 * b[6] + 4 * b[7];
    assert n / 64 == b[6] + 2 * b[7];
  }

  function LowDigits(c: Word): seq<nat> {
    [Digit(c[0]), Digit(c[1]), Digit(c[2]), Digit(c[3]), Digit(c[4]), Digit(c[5]), Digit(c[6]), Digit(c[7])]
  }

  lemma LowEight(c: Word)
    ensures Low(c) == [c[0], c[1], c[2], c[3], c[4], c[5], c[6], c[7]] + Zeros(24)
  {
  }

  /** The index of a register into the table stands for its low byte. */
  lemma LowBits(c: Word)
    ensures Bits(LowValue(c)) == Low(c)
  {
    LowValueDigits(LowValue(c), LowDigits(c));
    LowEight(c);
  }

  lemma {:induction false} FoldJoin<T, B>(f: (T, B) -> T, t: T, a: seq<B>, b: seq<B>)
    ensures Fold(f, t, a + b) == Fold(f, Fold(f, t, a), b)
    decreases |a|
  {
    if a == [] {
      assert a + b == b;
    } else {
      FoldJoin(f, f(t, a[0]), a[1..], b);
      assert (a + b)[1..] == a[1..] + b;
    }
  }

  lemma FoldNext<T, B>(f: (T, B) -> T, t: T, data: seq<B>, i: nat)
    requires i < |data|
    ensures Fold(f, t, data[..i + 1]) == f(Fold(f, t, data[..i]), data[i])
  {
    assert data[..i + 1] == data[..i] + [data[i]];
    FoldJoin(f, t, data[..i], [data[i]]);
  }

  /** One lookup enters one byte. */
  lemma LookupStep(c: Word, b: Byte, entry: Word)
    requires entry == Shifts(Bits(LowValue(Xor(c, Bits(b)))), 8)
    ensures Xor(entry, Shr(c, 8)) == FeedByte(c, b)
  {
    var mixed := Xor(c, Bits(b));
    FeedAtOnce(c, b);
    TableStep(mixed);
    LowBits(mixed);
    ShiftDropsByte(c, b);
  }

  predicate IsEntry(c: Word, k: Byte) {
    c == Shifts(Bits(k), 8)
  }

  /** The static table and its ready flag. */
  class Crc {
    const table: array<Word>
    var ready: bool

    ghost predicate Valid()
      reads this, table
    {
      table.Length == 256 && (ready ==> Built(256))
    }

    ghost predicate Built(n: nat)
      reads table
    {
      table.Length == 256 && n <= 256 && forall k :: 0 <= k < n ==> IsEntry(table[k], k)
    }

    constructor ()
      ensures Valid() && !ready && fresh(table)
    {
      table := new Word[256](i => Zeros(32));
      ready := false;
    }

    method InitTable()
      requires Valid()
      modifies this`ready, table
      ensures Valid() && ready
    {
      var i := 0;
      while i < 256
        invariant 0 <= i <= 256 && Built(i)
        modifies table
      {
        var c := Entry(i);
        StoreEntry(i, c);
        i := i + 1;
      }
      ready := true;
    }

    method StoreEntry(i: nat, c: Word)
      requires i < 256 && Built(i) && IsEntry(c, i)
      modifies table
      ensures Built(i + 1)
    {
      table[i] := c;
    }

    /** Builds the table on first use; the result is the bit-serial CRC either way. */
    method Compute(data: seq<Byte>) returns (r: Word)
      requires Valid()
      modifies this`ready, table
      ensures Valid() && ready && r == Reference(data)
    {
      if !ready {
        InitTable();
      }
      var crc := ONES;
      var i := 0;
      while i < |data|
        invariant 0 <= i <= |data| && Valid() && ready && crc == Fold(FeedByte, ONES, data[..i])
      {
        var k := LowValue(Xor(crc, Bits(data[i])));
        LookupStep(crc, data[i], table[k]);
        FoldNext(FeedByte, ONES, data, i);
        crc := Xor(table[k], Shr(crc, 8));
        i := i + 1;
      }
      assert data[..|data|] == data;
      r := Xor(crc, ONES);
    }
  }

  /** One table entry: eight steps of the register that starts as the index. */
  method Entry(i: Byte) returns (c: Word)
    ensures c == Shifts(Bits(i), 8)
  {
    c := Bits(i);
    var j := 0;
    while j < 8
      invariant 0 <= j <= 8 && c == Iterate(Shift, Bits(i), j)
    {
      IterateNext(Shift, Bits(i), j);
      c := Shift(c);
      j := j + 1;
    }
  }

  lemma IterateNext<T>(f: T -> T, t: T, n: nat)
    ensures Iterate(f, t, n + 1) == f(Iterate(f, t, n))
  {
    IterateAdd(f, t, n, 1);
  }

  lemma ShiftDropsByte(c: Word, b: Byte)
    ensures Shr(Xor(c, Bits(b)), 8) == Shr(c, 8)
  {
    forall i | 0 <= i < 32
      ensures Shr(Xor(c, Bits(b)), 8)[i] == Shr(c, 8)[i]
    {
      assert !At(Bits(b), i + 8);
    }
  }

  // ----- Burst errors -----

  function Shl(c: Word, k: nat): (w: Word)
    ensures forall i :: 0 <= i < 32 ==> w[i] == At(c, i - k)
  {
    Mask(i => At(c, i - k))
  }

  /** Every bit of `w` from position `n` on is zero. */
  predicate Fits(w: Word, n: nat) {
    forall i :: n <= i < 32 ==> !At(w, i)
  }

  /** Up to four bytes, each with the bits `bits` gives it, laid end to end, the first lowest. */
  function Pack<B>(bits: B -> Word, u: seq<B>): Word
    decreases |u|
  {
    if u == [] then Zeros(32) else Beside(bits(u[0]), Pack(bits, u[1..]))
  }

  function Beside(low: Word, rest: Word): Word {
    Xor(low, Shl(rest, 8))
  }

  lemma ByteFits(b: Byte)
    ensures Fits(Bits(b), 8)
  {
  }

  lemma BesideFits(low: Word, rest: Word, n: nat)
    requires Fits(low, 8) && Fits(rest, n)
    ensures Fits(Beside(low, rest), n + 8)
  {
    forall i | n + 8 <= i < 32
      ensures !At(Beside(low, rest), i)
    {
      assert !At(low, i) && !At(rest, i - 8);
    }
  }

  lemma {:induction false} PackFits<B(!new)>(bits: B -> Word, u: seq<B>)
    requires forall b :: Fits(bits(b), 8)
    ensures Fits(Pack(bits, u), 8 * |u|)
    decreases |u|
  {
    if u != [] {
      PackFits(bits, u[1..]);
      BesideFits(bits(u[0]), Pack(bits, u[1..]), 8 * |u[1..]|);
    }
  }

  lemma UpAndDown(w: Word)
    requires Fits(w, 24)
    ensures Shr(Shl(w, 8), 8) == w && forall i :: 0 <= i < 8 ==> !At(Shl(w, 8), i)
  {
    forall i | 0 <= i < 32
      ensures Shr(Shl(w, 8), 8)[i] == w[i]
    {
      assert Shr(Shl(w, 8), 8)[i] == At(Shl(w, 8), i + 8);
      assert i < 24 ==> At(Shl(w, 8), i + 8) == At(w, i);
      assert i >= 24 ==> !At(w, i);
    }
  }

  /** A word that enters eight steps later can enter now, eight bits higher. */
  lemma EnterLater(c: Word, w: Word)
    requires Fits(w, 24)
    ensures Shifts(Xor(c, Shl(w, 8)), 8) == Xor(Shifts(c, 8), w)
  {
    UpAndDown(w);
    ShiftsXor(c, Shl(w, 8), 8);
    ShiftsClear(Shl(w, 8), 8);
  }

  lemma XorZeros(c: Word)
    ensures Xor(c, Zeros(32)) == c
  {
  }

  /** `feed` enters the bits of a byte and turns the register by `turn`, and a word entered after
      the turn could have entered before it, eight bits higher. */
  ghost predicate Feeds<B(!new)>(bits: B -> Word, turn: Word -> Word, feed: (Word, B) -> Word) {
    && (forall b :: Fits(bits(b), 8))
    && (forall c, b :: feed(c, b) == turn(Xor(c, bits(b))))
    && (forall c, w :: EntersLater(turn, c, w))
  }

  predicate EntersLater(turn: Word -> Word, c: Word, w: Word) {
    Fits(w, 24) ==> turn(Xor(c, Shl(w, 8))) == Xor(turn(c), w)
  }

  lemma NextFits(w: Word, n: nat)
    requires n <= 3 && Fits(w, 8 * n)
    ensures Fits(w, 24)
  {
  }

  /** Up to four bytes enter the register as one word. */
  lemma {:induction false} FeedPacked<B(!new)>(
    bits: B -> Word, turn: Word -> Word, feed: (Word, B) -> Word, c: Word, u: seq<B>)
    requires |u| <= 4 && Feeds(bits, turn, feed)
    ensures Fold(feed, c, u) == Iterate(turn, Xor(c, Pack(bits, u)), |u|)
    decreases |u|
  {
    if u == [] {
      XorZeros(c);
    } else {
      var low, rest := bits(u[0]), Pack(bits, u[1..]);
      FeedPacked(bits, turn, feed, feed(c, u[0]), u[1..]);
      PackFits(bits, u[1..]);
      NextFits(rest, |u[1..]|);
      XorRules(c, low, Shl(rest, 8));
      assert EntersLater(turn, Xor(c, low), rest);
    }
  }

  /** Eight steps of the register. */
  function Turn(c: Word): Word {
    Shifts(c, 8)
  }

  lemma ByteFeeds()
    ensures Feeds(Bits, Turn, FeedByte)
  {
    forall b: Byte
      ensures Fits(Bits(b), 8)
    {
      ByteFits(b);
    }
    forall c, b
      ensures FeedByte(c, b) == Turn(Xor(c, Bits(b)))
    {
      FeedAtOnce(c, b);
    }
    forall c, w
      ensures EntersLater(Turn, c, w)
    {
      if Fits(w, 24) { EnterLater(c, w); }
    }
  }

  lemma BitsInjective(a: Byte, b: Byte)
    requires Bits(a) == Bits(b)
    ensures a == b
  {
    SameDigits(a, b);
    Recombine(a);
    Recombine(b);
  }

  lemma SameDigits(a: Byte, b: Byte)
    requires Bits(a) == Bits(b)
    ensures a % 2 == b % 2 && a / 2 % 2 == b / 2 % 2 && a / 4 % 2 == b / 4 % 2 && a / 8 % 2 == b / 8 % 2
    ensures a / 16 % 2 == b / 16 % 2 && a / 32 % 2 == b / 32 % 2
    ensures a / 64 % 2 == b / 64 % 2 && a / 128 % 2 == b / 128 % 2
  {
    var x, y := Bits(a), Bits(b);
    assert x[0] == y[0] && x[1] == y[1] && x[2] == y[2] && x[3] == y[3];
    assert x[4] == y[4] && x[5] == y[5] && x[6] == y[6] && x[7] == y[7];
  }

  lemma Recombine(n: nat)
    requires n < 256
    ensures n == n % 2 + 2 * (n / 2 % 2) + 4 * (n / 4 % 2) + 8 * (n / 8 % 2)
               + 16 * (n / 16 % 2) + 32 * (n / 32 % 2) + 64 * (n / 64 % 2) + 128 * (n / 128 % 2)
  {
    assert n / 4 == n / 2 / 2 && n / 8 == n / 4 / 2 && n / 16 == n / 8 / 2;
    assert n / 32 == n / 16 / 2 && n / 64 == n / 32 / 2 && n / 128 == n / 64 / 2;
  }

  lemma BesideInjective(low1: Word, rest1: Word, low2: Word, rest2: Word)
    requires Fits(low1, 8) && Fits(low2, 8) && Fits(rest1, 24) && Fits(rest2, 24)
    requires Beside(low1, rest1) == Beside(low2, rest2)
    ensures low1 == low2 && rest1 == rest2
  {
    forall i | 0 <= i < 32
      ensures low1[i] == low2[i]
    {
      assert i < 8 ==> Beside(low1, rest1)[i] == At(low1, i) && Beside(low2, rest2)[i] == At(low2, i);
      assert i >= 8 ==> !At(low1, i) && !At(low2, i);
    }
    XorRules(low1, Shl(rest1, 8), low1);
    XorRules(low1, Shl(rest2, 8), low1);
    XorInjective(Shl(rest1, 8), Shl(rest2, 8), low1);
    UpAndDown(rest1);
    UpAndDown(rest2);
  }

  lemma {:induction false} PackInjective<B(!new)>(bits: B -> Word, u: seq<B>, v: seq<B>)
    requires |u| == |v| <= 4 && Pack(bits, u) == Pack(bits, v)
    requires forall b :: Fits(bits(b), 8)
    requires forall a, b :: bits(a) == bits(b) ==> a == b
    ensures u == v
    decreases |u|
  {
    if u != [] {
      PackFits(bits, u[1..]);
      PackFits(bits, v[1..]);
      BesideInjective(bits(u[0]), Pack(bits, u[1..]), bits(v[0]), Pack(bits, v[1..]));
      PackInjective(bits, u[1..], v[1..]);
      assert u == [u[0]] + u[1..] && v == [v[0]] + v[1..];
    }
  }

  /** Feeding the same bytes keeps two different registers different. */
  lemma {:induction false} FeedInjective(c: Word, d: Word, data: seq<Byte>)
    requires FeedBytes(c, data) == FeedBytes(d, data)
    ensures c == d
    decreases |data|
  {
    if data != [] {
      var b := data[0];
      FeedInjective(FeedByte(c, b), FeedByte(d, b), data[1..]);
      FeedAtOnce(c, b);
      FeedAtOnce(d, b);
      ShiftsInjective(Xor(c, Bits(b)), Xor(d, Bits(b)), 8);
      XorInjective(c, d, Bits(b));
    }
  }

  lemma PackedInjective<B(!new)>(
    bits: B -> Word, turn: Word -> Word, feed: (Word, B) -> Word, c: Word, u: seq<B>, v: seq<B>)
    requires |u| == |v| <= 4 && Feeds(bits, turn, feed)
    requires forall a, b :: bits(a) == bits(b) ==> a == b
    requires forall c, d :: turn(c) == turn(d) ==> c == d
    requires Fold(feed, c, u) == Fold(feed, c, v)
    ensures u == v
  {
    var p, q := Pack(bits, u), Pack(bits, v);
    FeedPacked(bits, turn, feed, c, u);
    FeedPacked(bits, turn, feed, c, v);
    IterateInjective(turn, Xor(c, p), Xor(c, q), |u|);
    XorRules(c, p, c);
    XorRules(c, q, c);
    XorInjective(p, q, c);
    PackInjective(bits, u, v);
  }

  lemma WindowInjective(c: Word, u: seq<Byte>, v: seq<Byte>)
    requires |u| == |v| <= 4 && FeedBytes(c, u) == FeedBytes(c, v)
    ensures u == v
  {
    ByteFeeds();
    forall a: Byte, b: Byte | Bits(a) == Bits(b)
      ensures a == b
    {
      BitsInjective(a, b);
    }
    forall c, d | Turn(c) == Turn(d)
      ensures c == d
    {
      ShiftsInjective(c, d, 8);
    }
    PackedInjective(Bits, Turn, FeedByte, c, u, v);
  }

  lemma {:induction false} BurstDetected(pre: seq<Byte>, u: seq<Byte>, v: seq<Byte>, post: seq<Byte>)
    requires |u| == |v| <= 4 && Reference(pre + u + post) == Reference(pre + v + post)
    ensures u == v
  {
    XorInjective(FeedBytes(ONES, pre + u + post), FeedBytes(ONES, pre + v + post), ONES);
    var c := FeedBytes(ONES, pre);
    FoldJoin(FeedByte, ONES, pre + u, post);
    FoldJoin(FeedByte, ONES, pre + v, post);
    FoldJoin(FeedByte, ONES, pre, u);
    FoldJoin(FeedByte, ONES, pre, v);
    FeedInjective(FeedBytes(c, u), FeedBytes(c, v), post);
    WindowInjective(c, u, v);
  }

  /** Messages of one length that differ only inside four consecutive bytes have the same CRC
      only if they are the same message. */
  lemma BurstErrors(a: seq<Byte>, b: seq<Byte>, i: nat)
    requires |a| == |b|
    requires forall k :: 0 <= k < |a| && !(i <= k < i + 4) ==> a[k] == b[k]
    ensures Reference(a) == Reference(b) <==> a == b
  {
    if Reference(a) == Reference(b) {
      var lo := if i < |a| then i else |a|;
      var hi := if i + 4 < |a| then i + 4 else |a|;
      Split(a, b, lo, hi);
      BurstDetected(a[..lo], a[lo..hi], b[lo..hi], a[hi..]);
    }
  }

  lemma Split<B>(a: seq<B>, b: seq<B>, lo: nat, hi: nat)
    requires |a| == |b| && lo <= hi <= |a|
    requires forall k :: 0 <= k < |a| && !(lo <= k < hi) ==> a[k] == b[k]
    ensures a == a[..lo] + a[lo..hi] + a[hi..] && b == a[..lo] + b[lo..hi] + a[hi..]
  {
  }
}
