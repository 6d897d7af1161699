/** Decimal ADC and SBC as emitted, digit by digit, and packed-decimal numbers of any length. */
module Bcd {
  import opened Machine

  /** Hexadecimal digit number `i`: `x >> 4 * i & 0xf`. */
  function Digit(x: nat, i: nat): nat {
    if i == 0 then x % 0x10 else Digit(x / 0x10, i - 1)
  }

  function Power(base: nat, n: nat): (p: nat)
    ensures base > 0 ==> p > 0
  {
    if n == 0 then 1 else base * Power(base, n - 1)
  }

  /** The weight of digit number `i`. */
  function Weight(i: nat): (w: nat)
    ensures w > 0
  {
    Power(0x10, i)
  }

  /** `x & (m - 1)` for a power of two `m`; `%` is never negative, like masking a two's complement int. */
  function Low(x: int, m: nat): nat
    requires m > 0
  {
    x % m
  }

  // ----- The emitted arithmetic -----

  /** Decimal correction of a sum whose top digit, of weight `w`, is not the last: plus 6 and a carry
      when it is no decimal digit. */
  function FixSum(b: nat, w: nat): nat
    requires w > 0
  {
    if b > 10 * w - 1 then Low(b + 6 * w, 0x10 * w) + 0x10 * w else b
  }

  /** The same for the last digit, with the carry out. */
  function FixLastSum(b: nat, w: nat): (nat, nat)
    requires w > 0
  {
    var b := if b > 10 * w - 1 then b + 6 * w else b;
    (Low(b, 0x10 * w), if b > 0x10 * w - 1 then 1 else 0)
  }

  /** Decimal correction of a difference, formed by adding the complement: minus 6 on a borrow. */
  function FixDifference(b: nat, w: nat): nat
    requires w > 0
  {
    if b < 0x10 * w then Low(b - 6 * w, if b - 6 * w < 0 then 0x10 * w else 0x20 * w) else b
  }

  function FixLastDifference(b: nat, w: nat): (nat, nat)
    requires w > 0
  {
    var b := if b < 0x10 * w then b - 6 * w else b;
    (Low(b, 0x10 * w), if b > 0x10 * w - 1 then 1 else 0)
  }

  /** Digit `i` of two words, in place, on top of the lower ones. */
  function Sum(l: nat, r: nat, b: nat, i: nat): nat {
    Digit(l, i) * Weight(i) + Digit(r, i) * Weight(i) + b
  }

  /** The last `n` digits of an addition, from digit `i` on; `b` are the digits below with their
      carry. The result comes with the carry out. */
  function Add(l: nat, r: nat, b: nat, i: nat, n: nat): (nat, nat)
    requires n > 0
    decreases n
  {
    if n == 1 then FixLastSum(Sum(l, r, b, i), Weight(i))
    else Add(l, r, FixSum(Sum(l, r, b, i), Weight(i)), i + 1, n - 1)
  }

  /** The same for a subtraction, `v` being the complement of the subtrahend. */
  function Subtract(l: nat, v: nat, b: nat, i: nat, n: nat): (nat, nat)
    requires n > 0
    decreases n
  {
    if n == 1 then FixLastDifference(Sum(l, v, b, i), Weight(i))
    else Subtract(l, v, FixDifference(Sum(l, v, b, i), Weight(i)), i + 1, n - 1)
  }

  /** Two digits for an 8-bit accumulator, four for a 16-bit one. */
  function Adc(l: nat, r: nat, c: nat, n: nat): (nat, nat)
    requires n > 0
  {
    Add(l, r, c, 0, n)
  }

  function Sbc(l: nat, r: nat, c: nat, n: nat): (nat, nat)
    requires n > 0 && r < Power(0x10, n)
  {
    Subtract(l, Power(0x10, n) - 1 - r, c, 0, n)
  }

  // ----- Packed decimal -----

  /** The `n` digits from digit `i` on are decimal. */
  predicate Decimal(x: nat, i: nat, n: nat)
    decreases n
  {
    n > 0 ==> Digit(x, i) < 10 && Decimal(x, i + 1, n - 1)
  }

  /** Their value. */
  function Value(x: nat, i: nat, n: nat): nat
    decreases n
  {
    if n == 0 then 0 else Digit(x, i) + 10 * Value(x, i + 1, n - 1)
  }

  // ----- One digit -----

  lemma Remainder(x: nat, m: nat)
    requires x < m
    ensures x % m == x && (x + m) % m == x
  {
    assert (x + m) % m == x % m;
  }

  /** A digit sum `s` of weight `w` above correct lower digits gives a digit and a carry. */
  lemma FixSumIs(w: nat, low: nat, s: nat) returns (d: nat, k: nat)
    requires low < w && s < 20
    ensures s == d + 10 * k && d < 10 && k <= 1 && low + d * w < 0x10 * w
    ensures FixSum(s * w + low, w) == low + d * w + k * (0x10 * w) && FixLastSum(s * w + low, w) == (low + d * w, k)
  {
    if s > 9 {
      d, k := s - 10, 1;
      Spread(w, s - 10, 10);
      Carries(w, low, d);
    } else {
      d, k := s, 0;
      Fits(w, low, d);
    }
  }

  lemma Carries(w: nat, low: nat, d: nat)
    requires low < w && d < 10
    ensures var b := d * w + low + 10 * w;
            low + d * w < 0x10 * w && FixSum(b, w) == low + d * w + 0x10 * w && FixLastSum(b, w) == (low + d * w, 1)
  {
    assert d * w >= 0 && (9 - d) * w >= 0;
    Remainder(d * w + low, 0x10 * w);
  }

  lemma Fits(w: nat, low: nat, d: nat)
    requires low < w && d < 10
    ensures var b := d * w + low; b < 0x10 * w && FixSum(b, w) == b && FixLastSum(b, w) == (b, 0)
  {
    assert d * w >= 0 && (9 - d) * w >= 0;
    Remainder(d * w + low, 0x10 * w);
  }

  lemma FixDifferenceIs(w: nat, low: nat, t: nat) returns (d: nat, k: nat)
    requires low < w && t < 20
    ensures t == d + 10 * k && d < 10 && k <= 1 && low + d * w < 0x10 * w
    ensures FixDifference((t + 6) * w + low, w) == low + d * w + k * (0x10 * w)
    ensures FixLastDifference((t + 6) * w + low, w) == (low + d * w, k)
  {
    if t > 9 {
      d, k := t - 10, 1;
      Spread(w, t - 10, 0x10);
      NoBorrow(w, low, d);
    } else {
      d, k := t, 0;
      Spread(w, t, 6);
      Borrow(w, low, d);
    }
  }

  lemma Spread(w: nat, d: nat, m: nat)
    ensures (d + m) * w == d * w + m * w
  {
  }

  lemma NoBorrow(w: nat, low: nat, d: nat)
    requires low < w && d < 10
    ensures var b := d * w + low + 0x10 * w;
            low + d * w < 0x10 * w && FixDifference(b, w) == b && FixLastDifference(b, w) == (low + d * w, 1)
  {
    assert d * w >= 0 && (9 - d) * w >= 0;
    Remainder(d * w + low, 0x10 * w);
  }

  lemma Borrow(w: nat, low: nat, d: nat)
    requires low < w && d < 10
    ensures var b := d * w + low + 6 * w;
            low + d * w < 0x10 * w && FixDifference(b, w) == low + d * w && FixLastDifference(b, w) == (low + d * w, 0)
  {
    assert d * w >= 0 && (9 - d) * w >= 0;
    Remainder(d * w + low, 0x10 * w);
    Remainder(d * w + low, 0x20 * w);
  }

  /** One more digit: `low` are the lower digits of the result and `c` their carry. */
  lemma AddDigit(w: nat, low: nat, a: nat, b: nat, c: nat, sum: nat) returns (d: nat, k: nat)
    requires low < w && a < 10 && b < 10 && c <= 1 && sum == a * w + b * w + (low + c * w)
    ensures a + b + c == d + 10 * k && d < 10 && k <= 1 && low + d * w < 0x10 * w
    ensures FixSum(sum, w) == low + d * w + k * (0x10 * w) && FixLastSum(sum, w) == (low + d * w, k)
  {
    assert sum == (a + b + c) * w + low;
    d, k := FixSumIs(w, low, a + b + c);
  }

  /** The same with `v` the complement of the digit `b` to 15: `a - b`, borrowing when `k` is 0. */
  lemma SubDigit(w: nat, low: nat, a: nat, b: nat, v: nat, c: nat, sum: nat) returns (d: nat, k: nat)
    requires low < w && a < 10 && b < 10 && v == 0xF - b && c <= 1 && sum == a * w + v * w + (low + c * w)
    ensures a + 9 - b + c == d + 10 * k && d < 10 && k <= 1 && low + d * w < 0x10 * w
    ensures FixDifference(sum, w) == low + d * w + k * (0x10 * w) && FixLastDifference(sum, w) == (low + d * w, k)
  {
    assert sum == (a + v + c) * w + low;
    d, k := FixDifferenceIs(w, low, a + 9 - b + c);
  }

  // ----- Digits of a result -----

  lemma ShiftDigit(d: nat, x: nat, i: nat)
    requires d < 0x10
    ensures Digit(d + 0x10 * x, i + 1) == Digit(x, i)
  {
    assert (d + 0x10 * x) / 0x10 == x;
  }

  lemma {:induction false} ShiftValue(d: nat, x: nat, i: nat, n: nat)
    requires d < 0x10
    ensures Value(d + 0x10 * x, i + 1, n) == Value(x, i, n)
    ensures Decimal(d + 0x10 * x, i + 1, n) == Decimal(x, i, n)
    decreases n
  {
    if n > 0 {
      ShiftDigit(d, x, i);
      ShiftValue(d, x, i + 1, n - 1);
    }
  }

  /** A word of `n` packed decimal digits. */
  predicate Valid(x: nat, n: nat) {
    x < Power(0x10, n) && Decimal(x, 0, n)
  }

  function Number(x: nat, n: nat): nat {
    Value(x, 0, n)
  }

  lemma PutDigit(d: nat, x: nat, n: nat)
    requires d < 10 && Valid(x, n)
    ensures Valid(d + 0x10 * x, n + 1) && Number(d + 0x10 * x, n + 1) == d + 10 * Number(x, n)
  {
    ShiftValue(d, x, 0, n);
    assert Digit(d + 0x10 * x, 0) == d;
  }

  lemma TakeDigit(x: nat, n: nat)
    requires Valid(x, n + 1)
    ensures x % 0x10 < 10 && Valid(x / 0x10, n) && Number(x, n + 1) == x % 0x10 + 10 * Number(x / 0x10, n)
  {
    ShiftValue(x % 0x10, x / 0x10, 0, n);
    assert x == x % 0x10 + 0x10 * (x / 0x10) && Digit(x, 0) == x % 0x10;
  }

  lemma {:induction false} NumberBound(x: nat, n: nat)
    requires Valid(x, n)
    ensures Number(x, n) < Power(10, n)
    decreases n
  {
    if n > 0 {
      TakeDigit(x, n - 1);
      NumberBound(x / 0x10, n - 1);
    }
  }

  lemma {:induction false} NumberInjective(x: nat, y: nat, n: nat)
    requires Valid(x, n) && Valid(y, n) && Number(x, n) == Number(y, n)
    ensures x == y
    decreases n
  {
    if n > 0 {
      TakeDigit(x, n - 1);
      TakeDigit(y, n - 1);
      NumberInjective(x / 0x10, y / 0x10, n - 1);
    }
  }

  // ----- One word -----

  /** `res` is the digits of `x` on top of `low`, with carry `k`. */
  predicate Gives(res: (nat, nat), low: nat, w: nat, x: nat, k: nat) {
    res == (low + w * x, k)
  }

  lemma GivesMore(res: (nat, nat), low: nat, low': nat, w: nat, w': nat, d: nat, x: nat, k: nat)
    requires low' == low + d * w && w' == 0x10 * w && Gives(res, low', w', x, k)
    ensures Gives(res, low, w, d + 0x10 * x, k)
  {
    assert w * (d + 0x10 * x) == w * d + w * (0x10 * x);
  }

  /** `b` are the digits `low` below digit `i` with their carry `c`. */
  predicate Carry(b: nat, low: nat, c: nat, i: nat) {
    b == low + c * Weight(i) && low < Weight(i) && c <= 1
  }

  lemma {:induction false} AddIs(l: nat, r: nat, b: nat, low: nat, c: nat, i: nat, n: nat) returns (x: nat, k: nat)
    requires Carry(b, low, c, i) && n > 0 && Decimal(l, i, n) && Decimal(r, i, n)
    ensures Gives(Add(l, r, b, i, n), low, Weight(i), x, k) && k <= 1 && Valid(x, n)
    ensures Number(x, n) + Power(10, n) * k == Value(l, i, n) + Value(r, i, n) + c
    decreases n
  {
    if n == 1 {
      x, k := AddLast(l, r, b, low, c, i);
    } else {
      var d, k0, low' := NextSum(l, r, b, low, c, i);
      var rest;
      rest, k := AddIs(l, r, FixSum(Sum(l, r, b, i), Weight(i)), low', k0, i + 1, n - 1);
      x := d + 0x10 * rest;
      PutDigit(d, rest, n - 1);
      GivesMore(Add(l, r, b, i, n), low, low', Weight(i), Weight(i + 1), d, rest, k);
      SumGrows(l, r, i, n, d, k0, c, Number(rest, n - 1), k);
    }
  }

  lemma AddLast(l: nat, r: nat, b: nat, low: nat, c: nat, i: nat) returns (x: nat, k: nat)
    requires Carry(b, low, c, i) && Digit(l, i) < 10 && Digit(r, i) < 10
    ensures Gives(Add(l, r, b, i, 1), low, Weight(i), x, k) && k <= 1 && Valid(x, 1)
    ensures Number(x, 1) + Power(10, 1) * k == Value(l, i, 1) + Value(r, i, 1) + c
  {
    x, k := AddDigit(Weight(i), low, Digit(l, i), Digit(r, i), c, Sum(l, r, b, i));
    Commutes(x, Weight(i));
    PutDigit(x, 0, 0);
    OneDigit(l, r, i);
  }

  lemma Commutes(a: nat, b: nat)
    ensures a * b == b * a
  {
  }

  /** One digit further. */
  lemma NextSum(l: nat, r: nat, b: nat, low: nat, c: nat, i: nat) returns (d: nat, k: nat, low': nat)
    requires Carry(b, low, c, i) && Digit(l, i) < 10 && Digit(r, i) < 10
    ensures Digit(l, i) + Digit(r, i) + c == d + 10 * k && d < 10 && low' == low + d * Weight(i)
    ensures Carry(FixSum(Sum(l, r, b, i), Weight(i)), low', k, i + 1)
  {
    d, k := AddDigit(Weight(i), low, Digit(l, i), Digit(r, i), c, Sum(l, r, b, i));
    low' := low + d * Weight(i);
    assert Weight(i + 1) == 0x10 * Weight(i);
  }

  lemma OneDigit(l: nat, r: nat, i: nat)
    ensures Value(l, i, 1) == Digit(l, i) && Value(r, i, 1) == Digit(r, i) && Power(10, 1) == 10
  {
    assert Value(l, i + 1, 0) == 0 && Value(r, i + 1, 0) == 0 && Power(10, 0) == 1;
  }

  lemma Scale(p: nat, k: nat)
    ensures (10 * p) * k == 10 * (p * k)
  {
  }

  lemma SumGrows(l: nat, r: nat, i: nat, n: nat, d: nat, k0: nat, c: nat, rest: nat, k: nat)
    requires n > 1 && Digit(l, i) + Digit(r, i) + c == d + 10 * k0
    requires rest + Power(10, n - 1) * k == Value(l, i + 1, n - 1) + Value(r, i + 1, n - 1) + k0
    ensures d + 10 * rest + Power(10, n) * k == Value(l, i, n) + Value(r, i, n) + c
  {
    Scale(Power(10, n - 1), k);
  }

  /** The digits of `v` are those of `r` complemented. */
  predicate Complements(v: nat, r: nat, i: nat, n: nat)
    decreases n
  {
    n > 0 ==> Digit(v, i) == 15 - Digit(r, i) && Complements(v, r, i + 1, n - 1)
  }

  lemma {:induction false} ShiftComplements(d: nat, v: nat, e: nat, r: nat, i: nat, n: nat)
    requires d < 0x10 && e < 0x10 && Complements(v, r, i, n)
    ensures Complements(d + 0x10 * v, e + 0x10 * r, i + 1, n)
    decreases n
  {
    if n > 0 {
      ShiftDigit(d, v, i);
      ShiftDigit(e, r, i);
      ShiftComplements(d, v, e, r, i + 1, n - 1);
    }
  }

  lemma {:induction false} ComplementIs(r: nat, n: nat)
    requires r < Power(0x10, n)
    ensures Complements(Power(0x10, n) - 1 - r, r, 0, n)
    decreases n
  {
    if n > 0 {
      var d, rest := r % 0x10, r / 0x10;
      ComplementIs(rest, n - 1);
      var v := Power(0x10, n - 1) - 1 - rest;
      ShiftComplements(15 - d, v, d, rest, 0, n - 1);
      assert Power(0x10, n) - 1 - r == (15 - d) + 0x10 * v && r == d + 0x10 * rest;
      assert Digit(r, 0) == d && Digit((15 - d) + 0x10 * v, 0) == 15 - d;
    }
  }

  lemma {:induction false} SubtractIs(l: nat, r: nat, v: nat, b: nat, low: nat, c: nat, i: nat, n: nat)
    returns (x: nat, k: nat)
    requires Carry(b, low, c, i) && n > 0 && Decimal(l, i, n) && Decimal(r, i, n) && Complements(v, r, i, n)
    ensures Gives(Subtract(l, v, b, i, n), low, Weight(i), x, k) && k <= 1 && Valid(x, n)
    ensures Number(x, n) + Power(10, n) * k == Value(l, i, n) + Power(10, n) - 1 - Value(r, i, n) + c
    decreases n
  {
    if n == 1 {
      x, k := SubtractLast(l, r, v, b, low, c, i);
    } else {
      var d, k0, low' := NextDifference(l, r, v, b, low, c, i);
      var rest;
      rest, k := SubtractIs(l, r, v, FixDifference(Sum(l, v, b, i), Weight(i)), low', k0, i + 1, n - 1);
      x := d + 0x10 * rest;
      PutDigit(d, rest, n - 1);
      GivesMore(Subtract(l, v, b, i, n), low, low', Weight(i), Weight(i + 1), d, rest, k);
      DifferenceGrows(l, r, i, n, d, k0, c, Number(rest, n - 1), k);
    }
  }

  lemma SubtractLast(l: nat, r: nat, v: nat, b: nat, low: nat, c: nat, i: nat) returns (x: nat, k: nat)
    requires Carry(b, low, c, i) && Digit(l, i) < 10 && Digit(r, i) < 10 && Digit(v, i) == 15 - Digit(r, i)
    ensures Gives(Subtract(l, v, b, i, 1), low, Weight(i), x, k) && k <= 1 && Valid(x, 1)
    ensures Number(x, 1) + Power(10, 1) * k == Value(l, i, 1) + Power(10, 1) - 1 - Value(r, i, 1) + c
  {
    x, k := SubDigit(Weight(i), low, Digit(l, i), Digit(r, i), Digit(v, i), c, Sum(l, v, b, i));
    Commutes(x, Weight(i));
    PutDigit(x, 0, 0);
    OneDigit(l, r, i);
  }

  lemma NextDifference(l: nat, r: nat, v: nat, b: nat, low: nat, c: nat, i: nat) returns (d: nat, k: nat, low': nat)
    requires Carry(b, low, c, i) && Digit(l, i) < 10 && Digit(r, i) < 10 && Digit(v, i) == 15 - Digit(r, i)
    ensures Digit(l, i) + 9 - Digit(r, i) + c == d + 10 * k && d < 10 && low' == low + d * Weight(i)
    ensures Carry(FixDifference(Sum(l, v, b, i), Weight(i)), low', k, i + 1)
  {
    d, k := SubDigit(Weight(i), low, Digit(l, i), Digit(r, i), Digit(v, i), c, Sum(l, v, b, i));
    low' := low + d * Weight(i);
    assert Weight(i + 1) == 0x10 * Weight(i);
  }

  lemma DifferenceGrows(l: nat, r: nat, i: nat, n: nat, d: nat, k0: nat, c: nat, rest: nat, k: nat)
    requires n > 1 && Digit(l, i) + 9 - Digit(r, i) + c == d + 10 * k0
    requires rest + Power(10, n - 1) * k == Value(l, i + 1, n - 1) + Power(10, n - 1) - 1 - Value(r, i + 1, n - 1) + k0
    ensures d + 10 * rest + Power(10, n) * k == Value(l, i, n) + Power(10, n) - 1 - Value(r, i, n) + c
  {
    Scale(Power(10, n - 1), k);
  }

  /** Decimal ADC gives valid digits: the sum of the operands and the carry, with a carry out. */
  lemma AdcIsDecimalSum(l: nat, r: nat, c: nat, n: nat)
    requires Valid(l, n) && Valid(r, n) && c <= 1 && n > 0
    ensures Valid(Adc(l, r, c, n).0, n) && Adc(l, r, c, n).1 <= 1
    ensures Number(Adc(l, r, c, n).0, n) + Power(10, n) * Adc(l, r, c, n).1 == Number(l, n) + Number(r, n) + c
  {
    assert Weight(0) == 1;
    var x, k := AddIs(l, r, c, 0, c, 0, n);
  }

  /** Decimal SBC gives valid digits: the difference less the borrow, carry out meaning no borrow. */
  lemma SbcIsDecimalDifference(l: nat, r: nat, c: nat, n: nat)
    requires Valid(l, n) && Valid(r, n) && c <= 1 && n > 0
    ensures Valid(Sbc(l, r, c, n).0, n) && Sbc(l, r, c, n).1 <= 1
    ensures Number(Sbc(l, r, c, n).0, n) == Number(l, n) - Number(r, n) - (1 - c)
          + Power(10, n) * (1 - Sbc(l, r, c, n).1)
  {
    assert Weight(0) == 1;
    ComplementIs(r, n);
    var x, k := SubtractIs(l, r, Power(0x10, n) - 1 - r, c, 0, c, 0, n);
    NoCarry(Power(10, n), k);
  }

  lemma NoCarry(p: nat, k: nat)
    requires k <= 1
    ensures p * (1 - k) == p - p * k
  {
  }

  // ----- The V flag -----

  /** The sum that V is taken from: the last one, before its decimal correction. */
  function LastSum(l: nat, r: nat, b: nat, i: nat, n: nat): nat
    requires n > 0
    decreases n
  {
    if n == 1 then Sum(l, r, b, i) else LastSum(l, r, FixSum(Sum(l, r, b, i), Weight(i)), i + 1, n - 1)
  }

  function LastDifference(l: nat, v: nat, b: nat, i: nat, n: nat): nat
    requires n > 0
    decreases n
  {
    if n == 1 then Sum(l, v, b, i) else LastDifference(l, v, FixDifference(Sum(l, v, b, i), Weight(i)), i + 1, n - 1)
  }

  /** The bit of weight `w`. */
  predicate HasBit(x: nat, w: nat)
    requires w > 0
  {
    x / w % 2 == 1
  }

  /** Both operands have the same sign bit, in digit `i`, and the sum `b` has the other. */
  predicate Overflow(l: nat, r: nat, b: nat, i: nat) {
    (Digit(l, i) >= 8) == (Digit(r, i) >= 8) && (Digit(r, i) >= 8) != HasBit(b, 8 * Weight(i))
  }

  predicate AdcV(l: nat, r: nat, c: nat, n: nat)
    requires n > 0
  {
    Overflow(l, r, LastSum(l, r, c, 0, n), n - 1)
  }

  predicate SbcV(l: nat, r: nat, c: nat, n: nat)
    requires n > 0 && r < Power(0x10, n)
  {
    var v := Power(0x10, n) - 1 - r;
    Overflow(l, v, LastDifference(l, v, c, 0, n), n - 1)
  }

  /** The decimal sum of the `n` digits from digit `i` on and the carry `c` carries. */
  predicate CarriesOut(l: nat, r: nat, c: nat, i: nat, n: nat) {
    Value(l, i, n) + Value(r, i, n) + c >= Power(10, n)
  }

  /** Their difference, less the borrow that `c` 0 stands for, does not borrow. */
  predicate NoBorrowFrom(l: nat, r: nat, c: nat, i: nat, n: nat) {
    Value(l, i, n) + c > Value(r, i, n)
  }

  /** The last sum is that of the top digits and the decimal carry `k` of the lower ones. */
  lemma {:induction false} LastSumIs(l: nat, r: nat, b: nat, low: nat, c: nat, i: nat, n: nat, t: nat)
    returns (b': nat, rest: nat, k: nat)
    requires Carry(b, low, c, i) && n > 0 && Decimal(l, i, n) && Decimal(r, i, n) && t == i + n - 1
    ensures Carry(b', rest, k, t) && Digit(l, t) < 10 && Digit(r, t) < 10
    ensures LastSum(l, r, b, i, n) == Sum(l, r, b', t)
    ensures CarriesOut(l, r, c, i, n - 1) <==> k == 1
    decreases n
  {
    if n == 1 {
      b', rest, k := b, low, c;
    } else {
      var d, k0, low' := NextSum(l, r, b, low, c, i);
      b', rest, k := LastSumIs(l, r, FixSum(Sum(l, r, b, i), Weight(i)), low', k0, i + 1, n - 1, t);
      SumCarries(l, r, i, n - 1, d, k0, c, k);
    }
  }

  lemma SumCarries(l: nat, r: nat, i: nat, n: nat, d: nat, k0: nat, c: nat, k: nat)
    requires n > 0 && Digit(l, i) + Digit(r, i) + c == d + 10 * k0 && d < 10
    requires CarriesOut(l, r, k0, i + 1, n - 1) <==> k == 1
    ensures CarriesOut(l, r, c, i, n) <==> k == 1
  {
  }

  lemma {:induction false} LastDifferenceIs(l: nat, r: nat, v: nat, b: nat, low: nat, c: nat, i: nat, n: nat, t: nat)
    returns (b': nat, rest: nat, k: nat)
    requires Carry(b, low, c, i) && n > 0 && t == i + n - 1
    requires Decimal(l, i, n) && Decimal(r, i, n) && Complements(v, r, i, n)
    ensures Carry(b', rest, k, t) && Digit(l, t) < 10 && Digit(r, t) < 10 && Digit(v, t) == 15 - Digit(r, t)
    ensures LastDifference(l, v, b, i, n) == Sum(l, v, b', t)
    ensures NoBorrowFrom(l, r, c, i, n - 1) <==> k == 1
    decreases n
  {
    if n == 1 {
      b', rest, k := b, low, c;
    } else {
      var d, k0, low' := NextDifference(l, r, v, b, low, c, i);
      b', rest, k := LastDifferenceIs(l, r, v, FixDifference(Sum(l, v, b, i), Weight(i)), low', k0, i + 1, n - 1, t);
      DifferenceBorrows(l, r, i, n - 1, d, k0, c, k);
    }
  }

  lemma DifferenceBorrows(l: nat, r: nat, i: nat, n: nat, d: nat, k0: nat, c: nat, k: nat)
    requires n > 0 && Digit(l, i) + 9 - Digit(r, i) + c == d + 10 * k0 && d < 10
    requires NoBorrowFrom(l, r, k0, i + 1, n - 1) <==> k == 1
    ensures NoBorrowFrom(l, r, c, i, n) <==> k == 1
  {
  }

  /** V of a decimal ADC: the top digits, with the carry `k` of the decimal sum of the lower digits,
      overflow as signed hexadecimal digits. */
  lemma AdcOverflow(l: nat, r: nat, c: nat, n: nat)
    requires Valid(l, n) && Valid(r, n) && c <= 1 && n > 0
    ensures var a, b := Digit(l, n - 1), Digit(r, n - 1);
            var k := if CarriesOut(l, r, c, 0, n - 1) then 1 else 0;
            AdcV(l, r, c, n) <==> !(-8 <= Signed(a) + Signed(b) + k < 8)
  {
    assert Weight(0) == 1;
    var b, rest, k := LastSumIs(l, r, c, 0, c, 0, n, n - 1);
    SumTop(l, r, n - 1, b, rest, k);
  }

  /** V of a decimal SBC: the same for the difference, `k` being 0 when the lower digits borrow. */
  lemma SbcOverflow(l: nat, r: nat, c: nat, n: nat)
    requires Valid(l, n) && Valid(r, n) && c <= 1 && n > 0
    ensures var a, b := Digit(l, n - 1), Digit(r, n - 1);
            var k := if NoBorrowFrom(l, r, c, 0, n - 1) then 1 else 0;
            SbcV(l, r, c, n) <==> !(-8 <= Signed(a) - Signed(b) - (1 - k) < 8)
  {
    assert Weight(0) == 1;
    ComplementIs(r, n);
    var v := Power(0x10, n) - 1 - r;
    var b, rest, k := LastDifferenceIs(l, r, v, c, 0, c, 0, n, n - 1);
    SumTop(l, v, n - 1, b, rest, k);
  }

  /** A hexadecimal digit as a signed number. */
  function Signed(d: nat): int {
    if d >= 8 then d - 0x10 else d
  }

  /** A sum overflows exactly when its signed top digits and their carry do. */
  lemma SumTop(l: nat, r: nat, i: nat, b: nat, rest: nat, k: nat)
    requires Carry(b, rest, k, i) && Digit(l, i) < 0x10 && Digit(r, i) < 0x10
    ensures Overflow(l, r, Sum(l, r, b, i), i)
       <==> !(-8 <= Signed(Digit(l, i)) + Signed(Digit(r, i)) + k < 8)
  {
    var x, y, w := Digit(l, i), Digit(r, i), Weight(i);
    SumParts(x, y, k, w, rest);
    TopBit(x + y + k, w, rest);
    SignedSum(x, y, k);
  }

  lemma SignedSum(a: nat, b: nat, k: nat)
    requires a < 0x10 && b < 0x10 && k <= 1
    ensures (a >= 8) == (b >= 8) && (b >= 8) != ((a + b + k) % 0x10 >= 8) <==> !(-8 <= Signed(a) + Signed(b) + k < 8)
  {
  }

  lemma SumParts(a: nat, b: nat, k: nat, w: nat, rest: nat)
    ensures a * w + b * w + (rest + k * w) == (a + b + k) * w + rest
  {
  }

  lemma TopBit(s: nat, w: nat, rest: nat)
    requires rest < w && s < 0x20
    ensures HasBit(s * w + rest, 8 * w) <==> s % 0x10 >= 8
  {
    var q, m := s / 8, s % 8;
    AtLeastOne(m, w, rest);
    Parts(q, m, w);
    DivIs(s * w + rest, 8 * w, q, m * w + rest);
  }

  lemma Parts(q: nat, m: nat, w: nat)
    ensures (8 * q + m) * w == q * (8 * w) + m * w
  {
  }

  lemma AtLeastOne(m: nat, w: nat, rest: nat)
    requires m < 8 && rest < w
    ensures m * w + rest < 8 * w
  {
    assert (7 - m) * w >= 0;
  }

  // ----- The emitted statements, unrolled -----

  /** `x & (0xf * w)` for digit `i` of weight `w`. */
  function Field(x: nat, i: nat, w: nat): nat {
    Digit(x, i) * w
  }

  /** The statement for V: the sign bits, of weight `w`, of both operands are equal and differ from that of `b`. */
  predicate EmittedV(l: nat, r: nat, b: nat, w: nat)
    requires w > 0
  {
    HasBit(l, w) == HasBit(r, w) && HasBit(r, w) != HasBit(b, w)
  }

  /** The result, the carry and V. */
  function EmittedAdc8(l: nat, r: nat, c: nat): (nat, nat, bool) {
    var b := Field(l, 0, 1) + Field(r, 0, 1) + c;
    var b := if b > 0x9 then Low(b + 0x6, 0x10) + 0x10 else b;
    var b := Field(l, 1, 0x10) + Field(r, 1, 0x10) + b;
    var v := EmittedV(l, r, b, 0x80);
    var b := if b > 0x9F then b + 0x60 else b;
    (Low(b, 0x100), if b > 0xFF then 1 else 0, v)
  }

  function EmittedAdc16(l: nat, r: nat, c: nat): (nat, nat, bool) {
    var b := Field(l, 0, 1) + Field(r, 0, 1) + c;
    var b := if b > 0x9 then Low(b + 0x6, 0x10) + 0x10 else b;
    var b := Field(l, 1, 0x10) + Field(r, 1, 0x10) + b;
    var b := if b > 0x9F then Low(b + 0x60, 0x100) + 0x100 else b;
    var b := Field(l, 2, 0x100) + Field(r, 2, 0x100) + b;
    var b := if b > 0x9FF then Low(b + 0x600, 0x1000) + 0x1000 else b;
    var b := Field(l, 3, 0x1000) + Field(r, 3, 0x1000) + b;
    var v := EmittedV(l, r, b, 0x8000);
    var b := if b > 0x9FFF then b + 0x6000 else b;
    (Low(b, 0x10000), if b > 0xFFFF then 1 else 0, v)
  }

  function EmittedSbc8(l: nat, r: nat, c: nat): (nat, nat, bool)
    requires r < 0x100
  {
    var u := 0xFF - r;
    var b := Field(l, 0, 1) + Field(u, 0, 1) + c;
    var b := if b < 0x10 then Low(b - 0x6, if b - 0x6 < 0 then 0x10 else 0x20) else b;
    var b := Field(l, 1, 0x10) + Field(u, 1, 0x10) + b;
    var v := EmittedV(l, u, b, 0x80);
    var b := if b < 0x100 then b - 0x60 else b;
    (Low(b, 0x100), if b > 0xFF then 1 else 0, v)
  }

  /** The four digit sums of the 16-bit SBC, the last one not yet corrected. */
  function Sbc16(l: nat, u: nat, c: nat): nat {
    var b := Field(l, 0, 1) + Field(u, 0, 1) + c;
    var b := if b < 0x10 then Low(b - 0x6, if b - 0x6 < 0 then 0x10 else 0x20) else b;
    var b := Field(l, 1, 0x10) + Field(u, 1, 0x10) + b;
    var b := if b < 0x100 then Low(b - 0x60, if b - 0x60 < 0 then 0x100 else 0x200) else b;
    var b := Field(l, 2, 0x100) + Field(u, 2, 0x100) + b;
    var b := if b < 0x1000 then Low(b - 0x600, if b - 0x600 < 0 then 0x1000 else 0x2000) else b;
    Field(l, 3, 0x1000) + Field(u, 3, 0x1000) + b
  }

  function EmittedSbc16(l: nat, r: nat, c: nat): (nat, nat, bool)
    requires r < 0x10000
  {
    var u := 0xFFFF - r;
    var b := Sbc16(l, u, c);
    var v := EmittedV(l, u, b, 0x8000);
    var b := if b < 0x10000 then b - 0x6000 else b;
    (Low(b, 0x10000), if b > 0xFFFF then 1 else 0, v)
  }

  lemma Weights()
    ensures Weight(0) == 1 && Weight(1) == 0x10 && Weight(2) == 0x100 && Weight(3) == 0x1000
    ensures Power(0x10, 2) == 0x100 && Power(0x10, 4) == 0x10000
  {
  }

  lemma SignBits(x: nat)
    ensures HasBit(x, 0x80) <==> Digit(x, 1) >= 8
    ensures HasBit(x, 0x8000) <==> Digit(x, 3) >= 8
  {
    var y := x / 0x10;
    TopOf(y);
    assert x / 0x80 == y / 8;
    SignBit8(y / 0x10);
    assert x / 0x8000 == y / 0x10 / 0x80 && Digit(x, 3) == Digit(y, 2) == Digit(y / 0x10, 1);
  }

  lemma SignBit8(x: nat)
    ensures x / 0x80 % 2 == 1 <==> Digit(x, 1) >= 8
  {
    var y := x / 0x10;
    TopOf(y);
    assert x / 0x80 == y / 8;
  }

  lemma TopOf(y: nat)
    ensures y / 8 % 2 == 1 <==> y % 0x10 >= 8
  {
  }

  /** `res` is a result with its carry, and V. */
  predicate Emits(res: (nat, nat, bool), word: (nat, nat), v: bool) {
    res == (word.0, word.1, v)
  }

  /** The digit-by-digit definitions are the emitted statements. */
  lemma EmittedAdd8(l: nat, r: nat, c: nat)
    ensures Emits(EmittedAdc8(l, r, c), Adc(l, r, c, 2), AdcV(l, r, c, 2))
  {
    Weights();
    SignBits(l);
    SignBits(r);
  }

  lemma EmittedAdd16(l: nat, r: nat, c: nat)
    ensures Emits(EmittedAdc16(l, r, c), Adc(l, r, c, 4), AdcV(l, r, c, 4))
  {
    Weights();
    SignBits(l);
    SignBits(r);
  }

  lemma EmittedSubtract8(l: nat, r: nat, c: nat)
    requires r < 0x100
    ensures Power(0x10, 2) == 0x100 && Emits(EmittedSbc8(l, r, c), Sbc(l, r, c, 2), SbcV(l, r, c, 2))
  {
    Weights();
    SignBits(l);
    SignBits(0xFF - r);
  }

  lemma EmittedSubtract16(l: nat, r: nat, c: nat)
    requires r < 0x10000
    ensures Power(0x10, 4) == 0x10000 && Emits(EmittedSbc16(l, r, c), Sbc(l, r, c, 4), SbcV(l, r, c, 4))
  {
    Weights();
    SubtractWord(l, 0xFFFF - r, c);
    SubtractV(l, r, c);
  }

  lemma SubtractWord(l: nat, u: nat, c: nat)
    requires u < 0x10000
    ensures Subtract(l, u, c, 0, 4) == (EmittedSbc16(l, 0xFFFF - u, c).0, EmittedSbc16(l, 0xFFFF - u, c).1)
  {
    Weights();
  }

  lemma SubtractV(l: nat, r: nat, c: nat)
    requires r < 0x10000
    ensures Power(0x10, 4) == 0x10000 && SbcV(l, r, c, 4) == EmittedSbc16(l, r, c).2
  {
    Weights();
    LastWord(l, 0xFFFF - r, c);
    SignsOnly(l, 0xFFFF - r, Sbc16(l, 0xFFFF - r, c));
  }

  lemma LastWord(l: nat, u: nat, c: nat)
    ensures LastDifference(l, u, c, 0, 4) == Sbc16(l, u, c)
  {
    Weights();
  }

  lemma SignsOnly(l: nat, u: nat, b: nat)
    ensures EmittedV(l, u, b, 0x8000) == Overflow(l, u, b, 3)
  {
    Weights();
    SignBits(l);
    SignBits(u);
  }

  // ----- Numbers of several words -----

  /** The value of words of `n` digits each, least significant first. */
  function Total(a: seq<nat>, n: nat): nat {
    if a == [] then 0 else Number(a[0], n) + Power(10, n) * Total(a[1..], n)
  }

  predicate AllValid(a: seq<nat>, n: nat) {
    forall x :: x in a ==> Valid(x, n)
  }

  /** ADC word by word, the carry threaded through. */
  function AdcAll(a: seq<nat>, b: seq<nat>, c: nat, n: nat): (seq<nat>, nat)
    requires n > 0 && |a| == |b|
  {
    if a == [] then ([], c) else
      var (x, k) := Adc(a[0], b[0], c, n);
      var (rest, carry) := AdcAll(a[1..], b[1..], k, n);
      ([x] + rest, carry)
  }

  function SbcAll(a: seq<nat>, b: seq<nat>, c: nat, n: nat): (seq<nat>, nat)
    requires n > 0 && |a| == |b| && AllValid(b, n)
  {
    if a == [] then ([], c) else
      assert b[0] in b;
      var (x, k) := Sbc(a[0], b[0], c, n);
      var (rest, carry) := SbcAll(a[1..], b[1..], k, n);
      ([x] + rest, carry)
  }

  /** One word below the rest. */
  lemma Carried(p: nat, q: nat, rest: nat, carry: nat, ra: nat, rb: nat, k: nat)
    requires rest + q * carry == ra + rb + k
    ensures p * rest + (p * q) * carry == p * ra + p * rb + p * k
  {
    calc {
      p * rest + (p * q) * carry;
      { assert (p * q) * carry == p * (q * carry); }
      p * rest + p * (q * carry);
      { assert p * (rest + q * carry) == p * rest + p * (q * carry); }
      p * (ra + rb + k);
      { assert p * (ra + rb + k) == p * ra + p * rb + p * k; }
      p * ra + p * rb + p * k;
    }
  }

  /** Adding numbers of any length word by word gives valid words: the sum modulo the range, with
      the carry out. */
  lemma {:induction false} AdcAllIs(a: seq<nat>, b: seq<nat>, c: nat, n: nat)
    requires n > 0 && |a| == |b| && c <= 1 && AllValid(a, n) && AllValid(b, n)
    ensures var (s, carry) := AdcAll(a, b, c, n);
            |s| == |a| && AllValid(s, n) && carry <= 1 &&
            Total(s, n) + Power(Power(10, n), |a|) * carry == Total(a, n) + Total(b, n) + c
    decreases |a|
  {
    if a != [] {
      AdcIsDecimalSum(a[0], b[0], c, n);
      var (x, k) := Adc(a[0], b[0], c, n);
      AdcAllIs(a[1..], b[1..], k, n);
      var (rest, carry) := AdcAll(a[1..], b[1..], k, n);
      TotalOf(x, rest, n);
      Carried(Power(10, n), Power(Power(10, n), |a| - 1), Total(rest, n), carry, Total(a[1..], n), Total(b[1..], n), k);
    }
  }

  lemma TotalOf(x: nat, rest: seq<nat>, n: nat)
    ensures Total([x] + rest, n) == Number(x, n) + Power(10, n) * Total(rest, n)
  {
    assert ([x] + rest)[1..] == rest;
  }

  lemma Borrowed(p: nat, q: nat, rest: nat, carry: nat, ra: nat, rb: nat, k: nat)
    requires rest + q * carry == ra + q - 1 - rb + k
    ensures p * rest + (p * q) * carry == p * ra + p * q - p - p * rb + p * k
  {
    calc {
      p * rest + (p * q) * carry;
      { assert (p * q) * carry == p * (q * carry); }
      p * rest + p * (q * carry);
      { assert p * (rest + q * carry) == p * rest + p * (q * carry); }
      p * (ra + q - 1 - rb + k);
      { assert p * (ra + q - 1 - rb + k) == p * ra + p * q - p - p * rb + p * k; }
      p * ra + p * q - p - p * rb + p * k;
    }
  }

  /** Subtracting word by word gives valid words: the difference modulo the range, a final carry
      meaning that nothing was borrowed. */
  lemma {:induction false} SbcAllIs(a: seq<nat>, b: seq<nat>, c: nat, n: nat)
    requires n > 0 && |a| == |b| && c <= 1 && AllValid(a, n) && AllValid(b, n)
    ensures var (s, carry) := SbcAll(a, b, c, n);
            |s| == |a| && AllValid(s, n) && carry <= 1 &&
            Total(s, n) + Power(Power(10, n), |a|) * carry ==
              Total(a, n) + Power(Power(10, n), |a|) - 1 - Total(b, n) + c
    decreases |a|
  {
    if a != [] {
      assert a[0] in a && b[0] in b;
      SbcIsDecimalDifference(a[0], b[0], c, n);
      var (x, k) := Sbc(a[0], b[0], c, n);
      NoCarry(Power(10, n), k);
      SbcAllIs(a[1..], b[1..], k, n);
      var (rest, carry) := SbcAll(a[1..], b[1..], k, n);
      TotalOf(x, rest, n);
      Borrowed(Power(10, n), Power(Power(10, n), |a| - 1), Total(rest, n), carry,
               Total(a[1..], n), Total(b[1..], n), k);
    }
  }

  // ----- Subtraction undoes addition -----

  /** A value below `p` with a carry of weight `p` is split in one way. */
  lemma SplitCarry(p: nat, x: nat, k: nat, y: nat, j: nat)
    requires x < p && y < p && k <= 1 && j <= 1 && x + p * k == y + p * j
    ensures x == y && k == j
  {
    assert k == 0 || k == 1;
    assert j == 0 || j == 1;
  }

  lemma WordUndone(l: nat, r: nat, c: nat, n: nat)
    requires Valid(l, n) && Valid(r, n) && c <= 1 && n > 0
    ensures Adc(l, r, c, n).1 <= 1 && Sbc(Adc(l, r, c, n).0, r, 1 - c, n) == (l, 1 - Adc(l, r, c, n).1)
  {
    AdcIsDecimalSum(l, r, c, n);
    var (s, k) := Adc(l, r, c, n);
    SbcIsDecimalDifference(s, r, 1 - c, n);
    var (d, j) := Sbc(s, r, 1 - c, n);
    var p := Power(10, n);
    NumberBound(l, n);
    NumberBound(d, n);
    NoCarry(p, j);
    NoCarry(p, k);
    SplitCarry(p, Number(d, n), j, Number(l, n), 1 - k);
    NumberInjective(d, l, n);
  }

  /** Taking away what was added, with the opposite initial carry, gives the number back; it borrows
      exactly when the addition carried. */
  lemma {:induction false} SubtractionUndoes(a: seq<nat>, b: seq<nat>, c: nat, n: nat)
    requires n > 0 && |a| == |b| && c <= 1 && AllValid(a, n) && AllValid(b, n)
    ensures var (s, carry) := AdcAll(a, b, c, n);
            |s| == |a| && SbcAll(s, b, 1 - c, n) == (a, 1 - carry)
    decreases |a|
  {
    if a != [] {
      assert a[0] in a && b[0] in b;
      WordUndone(a[0], b[0], c, n);
      var (x, k) := Adc(a[0], b[0], c, n);
      SubtractionUndoes(a[1..], b[1..], k, n);
      var (rest, carry) := AdcAll(a[1..], b[1..], k, n);
      assert ([x] + rest)[1..] == rest && a == [a[0]] + a[1..];
    }
  }
}
