/** The CRC as polynomial division: polynomials over GF(2) are the sets of their exponents. */
module CrcPolynomial {
  import opened Crc32

  type Poly = set<nat>

  function Add(p: Poly, q: Poly): (r: Poly)
    ensures forall e :: e in r <==> (e in p) != (e in q)
  {
    (p - q) + (q - p)
  }

  /** The product with x^n. */
  function Times(p: Poly, n: nat): (r: Poly)
    ensures forall e :: e in r <==> e >= n && e - n in p
  {
    set e | e in p :: e + n
  }

  /** The generator of IEEE 802.3. */
  const G: Poly := {32, 26, 23, 22, 16, 12, 11, 10, 8, 7, 5, 4, 2, 1, 0}

  /** Bit 0 of a register is the coefficient of x^31. */
  predicate Coefficient(c: Word, e: nat) {
    At(c, 31 - e)
  }

  /** A register is a polynomial of degree at most 31. */
  function PolyOf(c: Word): (p: Poly)
    ensures forall e :: e in p <==> e < 32 && At(c, 31 - e)
  {
    set e | 0 <= e < 32 && Coefficient(c, e)
  }

  lemma XorAdds(a: Word, b: Word)
    ensures PolyOf(Xor(a, b)) == Add(PolyOf(a), PolyOf(b))
  {
  }

  /** The constant of the source is the generator without its leading term. */
  lemma GeneratorIs()
    ensures PolyOf(POLY) == G - {32}
  {
  }

  lemma ShrTimes(c: Word)
    ensures PolyOf(Shr(c, 1)) == Times(PolyOf(c) - {31}, 1)
  {
  }

  /** One message bit: it is added to the leading term, and the sum is multiplied by x and reduced. */
  function Entering(c: Word, bit: bool): Poly {
    Add(PolyOf(c), Times(Unit(bit), 31))
  }

  lemma FeedDivides(c: Word, bit: bool)
    ensures var p := Times(Entering(c, bit), 1);
            PolyOf(FeedBit(c, bit)) == if c[0] != bit then Add(p, G) else p
  {
    ShrTimes(c);
    GeneratorIs();
    XorAdds(POLY, Shr(c, 1));
    assert 31 in Entering(c, bit) <==> c[0] != bit;
    var p, q := Times(Entering(c, bit), 1), Times(PolyOf(c) - {31}, 1);
    assert p == if c[0] != bit then q + {32} else q;
  }

  // ----- Multiples of a polynomial -----

  /** The sum of x^k g over a list. */
  function SumOf(g: Poly, ks: seq<nat>): Poly {
    if ks == [] then {} else Add(SumOf(g, ks[..|ks| - 1]), Times(g, ks[|ks| - 1]))
  }

  ghost predicate IsMultiple(g: Poly, p: Poly) {
    exists ks :: p == SumOf(g, ks)
  }

  lemma OneMore(g: Poly, p: Poly)
    requires IsMultiple(g, p)
    ensures IsMultiple(g, Add(p, g))
  {
    var ks :| p == SumOf(g, ks);
    var more := ks + [0];
    assert more[..|ks|] == ks && Times(g, 0) == g;
    assert SumOf(g, more) == Add(p, g);
  }

  lemma TimesAdds(p: Poly, q: Poly, n: nat)
    ensures Times(Add(p, q), n) == Add(Times(p, n), Times(q, n))
  {
  }

  lemma TimesTwice(p: Poly, m: nat, n: nat)
    ensures Times(Times(p, m), n) == Times(p, m + n)
  {
  }

  lemma {:induction false} SumShifted(g: Poly, ks: seq<nat>) returns (more: seq<nat>)
    ensures Times(SumOf(g, ks), 1) == SumOf(g, more)
    decreases |ks|
  {
    if ks == [] {
      more := [];
    } else {
      var n := |ks| - 1;
      var front := SumShifted(g, ks[..n]);
      more := front + [ks[n] + 1];
      assert more[..|front|] == front;
      TimesTwice(g, ks[n], 1);
      TimesAdds(SumOf(g, ks[..n]), Times(g, ks[n]), 1);
    }
  }

  lemma MultipleShifted(g: Poly, p: Poly)
    requires IsMultiple(g, p)
    ensures IsMultiple(g, Times(p, 1))
  {
    var ks :| p == SumOf(g, ks);
    var more := SumShifted(g, ks);
  }

  // ----- A message -----

  function Unit(bit: bool): Poly {
    if bit then {0} else {}
  }

  /** The first bit is the leading one. */
  function Message(bits: seq<bool>): Poly {
    if bits == [] then {} else Add(Times(Message(bits[..|bits| - 1]), 1), Unit(bits[|bits| - 1]))
  }

  function FeedAll(c: Word, bits: seq<bool>): Word {
    if bits == [] then c else FeedBit(FeedAll(c, bits[..|bits| - 1]), bits[|bits| - 1])
  }

  /** What a register, the initial one and the message add up to. */
  function Total(register: Poly, initial: Poly, message: Poly, n: nat): Poly {
    Add(register, Add(Times(initial, n), Times(message, 32)))
  }

  /** One more bit multiplies the total by x, up to the reduction. */
  lemma TotalSteps(register: Poly, initial: Poly, message: Poly, n: nat, bit: Poly)
    ensures var entering := Add(register, Times(bit, 31));
            Total(Times(entering, 1), initial, Add(Times(message, 1), bit), n + 1) ==
            Times(Total(register, initial, message, n), 1)
  {
    TimesAdds(register, Times(bit, 31), 1);
    TimesTwice(bit, 31, 1);
    TimesTwice(initial, n, 1);
    TimesAdds(Times(message, 1), bit, 32);
    TimesTwice(message, 1, 32);
    TimesTwice(message, 32, 1);
    TimesAdds(register, Add(Times(initial, n), Times(message, 32)), 1);
    TimesAdds(Times(initial, n), Times(message, 32), 1);
    Cancels(Times(register, 1), Times(initial, n + 1), Times(message, 33), Times(bit, 32));
  }

  lemma Cancels(r: Poly, i: Poly, m: Poly, b: Poly)
    ensures Add(Add(r, b), Add(i, Add(m, b))) == Add(r, Add(i, m))
  {
  }

  lemma Regroups(r: Poly, g: Poly, rest: Poly)
    ensures Add(Add(r, g), rest) == Add(Add(r, rest), g)
  {
  }

  /** After a message of n bits the register, x^n times its initial value and x^32 times the message add
      up to a multiple of the generator: the register is the remainder. */
  lemma {:induction false} IsRemainder(c: Word, bits: seq<bool>)
    ensures IsMultiple(G, Total(PolyOf(FeedAll(c, bits)), PolyOf(c), Message(bits), |bits|))
    decreases |bits|
  {
    if bits == [] {
      assert SumOf(G, []) == {};
      assert Total(PolyOf(c), PolyOf(c), {}, 0) == {};
    } else {
      IsRemainder(c, bits[..|bits| - 1]);
      OneBitMore(G, c, bits);
    }
  }

  lemma OneBitMore(g: Poly, c: Word, bits: seq<bool>)
    requires bits != [] && g == G
    requires var front := bits[..|bits| - 1];
             IsMultiple(g, Total(PolyOf(FeedAll(c, front)), PolyOf(c), Message(front), |front|))
    ensures IsMultiple(g, Total(PolyOf(FeedAll(c, bits)), PolyOf(c), Message(bits), |bits|))
  {
    var n := |bits| - 1;
    var front, bit := bits[..n], Unit(bits[n]);
    var r := FeedAll(c, front);
    var before := Total(PolyOf(r), PolyOf(c), Message(front), n);
    MultipleShifted(g, before);
    OneMore(g, Times(before, 1));
    TotalSteps(PolyOf(r), PolyOf(c), Message(front), n, bit);
    FeedDivides(r, bits[n]);
    var p := Times(Entering(r, bits[n]), 1);
    Regroups(p, g, Add(Times(PolyOf(c), n + 1), Times(Message(bits), 32)));
  }

  // ----- There is only one remainder -----

  lemma {:induction false} Joined(g: Poly, ks: seq<nat>, more: seq<nat>)
    ensures SumOf(g, ks + more) == Add(SumOf(g, ks), SumOf(g, more))
    decreases |more|
  {
    if more == [] {
      assert ks + more == ks;
    } else {
      var n := |more| - 1;
      assert (ks + more)[..|ks| + n] == ks + more[..n];
      Joined(g, ks, more[..n]);
    }
  }

  /** A term may be taken out anywhere. */
  lemma Without(g: Poly, ks: seq<nat>, i: nat)
    requires i < |ks|
    ensures SumOf(g, ks) == Add(SumOf(g, ks[..i] + ks[i + 1..]), Times(g, ks[i]))
  {
    var a, b := ks[..i], ks[i + 1..];
    assert ks == (a + [ks[i]]) + b;
    Joined(g, a + [ks[i]], b);
    Joined(g, a, b);
    Joined(g, a, [ks[i]]);
    assert [ks[i]][..0] == [] && SumOf(g, []) == {};
    Swaps(SumOf(g, a), Times(g, ks[i]), SumOf(g, b));
  }

  lemma Swaps(a: Poly, k: Poly, b: Poly)
    ensures Add(Add(a, Add({}, k)), b) == Add(Add(a, b), k)
  {
  }

  /** Terms below x^m g add up to something of degree below m + 32. */
  lemma {:induction false} Below(g: Poly, ks: seq<nat>, m: nat)
    requires (forall e :: e in g ==> e <= 32) && forall i :: 0 <= i < |ks| ==> ks[i] < m
    ensures forall e :: e in SumOf(g, ks) ==> e < m + 32
    decreases |ks|
  {
    if ks != [] { Below(g, ks[..|ks| - 1], m); }
  }

  lemma {:induction false} Largest(ks: seq<nat>) returns (i: nat)
    requires ks != []
    ensures i < |ks| && forall j :: 0 <= j < |ks| ==> ks[j] <= ks[i]
    decreases |ks|
  {
    var n := |ks| - 1;
    i := n;
    if n > 0 {
      var j := Largest(ks[..n]);
      if ks[j] > ks[n] { i := j; }
    }
  }

  /** A multiple of a polynomial of degree 32 is zero or has a term of degree 32 or more. */
  lemma {:induction false} HighTerm(g: Poly, ks: seq<nat>)
    requires 32 in g && forall e :: e in g ==> e <= 32
    ensures SumOf(g, ks) == {} || exists e :: e in SumOf(g, ks) && e >= 32
    decreases |ks|
  {
    if ks != [] {
      var i := Largest(ks);
      var m, rest := ks[i], ks[..i] + ks[i + 1..];
      Without(g, ks, i);
      if m in rest {
        var j :| 0 <= j < |rest| && rest[j] == m;
        Without(g, rest, j);
        HighTerm(g, rest[..j] + rest[j + 1..]);
        Twice(SumOf(g, rest[..j] + rest[j + 1..]), Times(g, m));
      } else {
        AllLower(ks, i, rest);
        Below(g, rest, m);
        assert m + 32 in Times(g, m) && m + 32 in SumOf(g, ks);
      }
    }
  }

  lemma Twice(a: Poly, k: Poly)
    ensures Add(Add(a, k), k) == a
  {
  }

  lemma AllLower(ks: seq<nat>, i: nat, rest: seq<nat>)
    requires i < |ks| && (forall j :: 0 <= j < |ks| ==> ks[j] <= ks[i])
    requires rest == ks[..i] + ks[i + 1..] && ks[i] !in rest
    ensures forall j :: 0 <= j < |rest| ==> rest[j] < ks[i]
  {
    forall j | 0 <= j < |rest|
      ensures rest[j] < ks[i]
    {
      assert rest[j] in rest;
      assert rest[j] == ks[if j < i then j else j + 1];
    }
  }

  /** A polynomial of degree at most 31 that is left over from a division by one of degree 32, like the
      generator, is the only one. */
  lemma OneRemainder(g: Poly, r: Poly, s: Poly, rest: Poly)
    requires 32 in g && (forall e :: e in g ==> e <= 32)
    requires (forall e :: e in r ==> e < 32) && (forall e :: e in s ==> e < 32)
    requires IsMultiple(g, Add(r, rest)) && IsMultiple(g, Add(s, rest))
    ensures r == s
  {
    var a :| Add(r, rest) == SumOf(g, a);
    var b :| Add(s, rest) == SumOf(g, b);
    Joined(g, a, b);
    Apart(r, s, rest);
    HighTerm(g, a + b);
  }

  lemma Apart(r: Poly, s: Poly, rest: Poly)
    ensures Add(Add(r, rest), Add(s, rest)) == Add(r, s)
    ensures Add(r, s) == {} ==> r == s
  {
    if Add(r, s) == {} {
      assert forall e :: e in r <==> e in s;
    }
  }

  // ----- Bytes -----

  /** The message bit by bit, the lowest bit of each byte first. */
  function AllBits(data: seq<Byte>): (bits: seq<bool>)
    ensures |bits| == 8 * |data|
  {
    if data == [] then [] else Bits(data[0])[..8] + AllBits(data[1..])
  }

  lemma {:induction false} FedOneByOne(c: Word, w: Word, n: nat)
    requires n <= 32
    ensures Iterate(FeedNext, (c, w), n) == (FeedAll(c, w[..n]), Shr(w, n))
    decreases n
  {
    if n == 0 {
      ShrNone(w);
    } else {
      FedOneByOne(c, w, n - 1);
      IterateNext(FeedNext, (c, w), n - 1);
      ShrAdd(w, n - 1, 1);
      assert w[..n][..n - 1] == w[..n - 1] && w[..n][n - 1] == w[n - 1];
      assert Shr(w, n - 1)[0] == At(w, n - 1);
    }
  }

  lemma {:induction false} FedTogether(c: Word, a: seq<bool>, b: seq<bool>)
    ensures FeedAll(c, a + b) == FeedAll(FeedAll(c, a), b)
    decreases |b|
  {
    if b == [] {
      assert a + b == a;
    } else {
      assert (a + b)[..|a + b| - 1] == a + b[..|b| - 1];
      FedTogether(c, a, b[..|b| - 1]);
    }
  }

  lemma {:induction false} BytesAreBits(c: Word, data: seq<Byte>)
    ensures FeedBytes(c, data) == FeedAll(c, AllBits(data))
    decreases |data|
  {
    if data != [] {
      FedOneByOne(c, Bits(data[0]), 8);
      BytesAreBits(FeedByte(c, data[0]), data[1..]);
      FedTogether(c, Bits(data[0])[..8], AllBits(data[1..]));
    }
  }

  /** All terms below x^n. */
  function Terms(n: nat): (p: Poly)
    ensures forall e: nat :: e in p <==> e < n
  {
    if n == 0 then {} else Terms(n - 1) + {n - 1}
  }

  lemma OnesAre()
    ensures PolyOf(ONES) == Terms(32)
  {
  }

  /** What is added to a remainder of a message: x^n times the initial value, and x^32 times the message. */
  function Dividend(data: seq<Byte>): Poly {
    Add(Times(Terms(32), 8 * |data|), Times(Message(AllBits(data)), 32))
  }

  lemma RegisterIsRemainder(data: seq<Byte>)
    ensures IsMultiple(G, Add(PolyOf(FeedBytes(ONES, data)), Dividend(data)))
  {
    OnesAre();
    BytesAreBits(ONES, data);
    IsRemainder(ONES, AllBits(data));
  }

  lemma ComplementIs(data: seq<Byte>)
    ensures Add(PolyOf(Reference(data)), Terms(32)) == PolyOf(FeedBytes(ONES, data))
  {
    OnesAre();
    XorAdds(FeedBytes(ONES, data), ONES);
    Twice(PolyOf(FeedBytes(ONES, data)), Terms(32));
  }

  lemma GeneratorDegree()
    ensures 32 in G && forall e :: e in G ==> e <= 32
  {
  }

  /** The complement of the CRC of a message is the remainder of x^32 times the message, with the first 32
      bits complemented, divided by the generator; no other polynomial of degree at most 31 is. */
  lemma CrcIsRemainder(data: seq<Byte>, r: Poly)
    requires forall e :: e in r ==> e < 32
    ensures IsMultiple(G, Add(r, Dividend(data))) <==> r == Add(PolyOf(Reference(data)), Terms(32))
  {
    RegisterIsRemainder(data);
    ComplementIs(data);
    GeneratorDegree();
    SameRemainder(G, r, PolyOf(FeedBytes(ONES, data)), Dividend(data));
  }

  lemma SameRemainder(g: Poly, r: Poly, s: Poly, rest: Poly)
    requires 32 in g && (forall e :: e in g ==> e <= 32)
    requires (forall e :: e in r ==> e < 32) && (forall e :: e in s ==> e < 32) && IsMultiple(g, Add(s, rest))
    ensures IsMultiple(g, Add(r, rest)) <==> r == s
  {
    if IsMultiple(g, Add(r, rest)) { OneRemainder(g, r, s, rest); }
  }
}
