/** The values every pass of the recompiler shares: operand widths, decode keys and
    decoded instructions of the 65816. */
module Machine {

  /** The M and X status bits; `true` is the 8-bit width. */
  datatype Width = Width(m: bool, x: bool)

  /** Identity of a decoded instruction: 24-bit address, the widths in force when it is reached
      and the widths saved by PHPs that this function has not pulled back yet (top last). */
  datatype Key = Key(pc: nat, width: Width, pstack: seq<Width>)

  /** The mnemonics some pass distinguishes; all others behave as `Plain`. */
  datatype Mnem =
    | REP | SEP | PHP | PLP
    | BRA | BRL
    | BPL | BMI | BVC | BVS | BCC | BCS | BNE | BEQ
    | JMP | JSR | JSL
    | RTS | RTL | RTI | STP | WAI | BRK
    | LDA | LDX | LDY
    | PEA | PEI | PER | PHD | PHB | PHK | PHA | PHX | PHY
    | PLD | PLB | PLA | PLX | PLY
    | TCS | TXS | XCE
    | Plain(opcode: nat)

  datatype AddrMode = IMM | ABS | LONG | OtherMode

  datatype Insn = Insn(mnem: Mnem, mode: AddrMode, operand: nat, length: nat)

  datatype Option<+T> = None | Some(value: T)

  predicate IsReturn(mnem: Mnem) {
    mnem in {RTS, RTL, RTI}
  }

  predicate IsTerminator(mnem: Mnem) {
    mnem in {RTS, RTL, RTI, STP, WAI, BRK}
  }

  predicate IsCondBranch(mnem: Mnem) {
    mnem in {BPL, BMI, BVC, BVS, BCC, BCS, BNE, BEQ}
  }

  predicate EndsBlock(mnem: Mnem) {
    IsTerminator(mnem) || mnem in {BRA, BRL} || IsCondBranch(mnem) || mnem in {JMP, JSR, JSL}
  }

  /** Pack a bank and a 16-bit address into 24 bits. */
  function Addr24(bank: nat, pc: nat): nat {
    (bank % 0x100) * 0x10000 + pc % 0x10000
  }

  function Bank(addr: nat): nat {
    addr / 0x10000 % 0x100
  }

  const ALL_WIDTHS: seq<Width> :=
    [Width(false, false), Width(false, true), Width(true, false), Width(true, true)]

  const WIDE := Width(false, false)
  const NARROW := Width(true, true)

  /** Where a width stands in `ALL_WIDTHS`. */
  function WidthIndex(w: Width): (d: nat)
    ensures d < 4 && ALL_WIDTHS[d] == w
  {
    (if w.m then 2 else 0) + (if w.x then 1 else 0)
  }

  /** LoROM banks $00-$3F and $80-$BF hold the same bytes. */
  function Mirror(a: nat): nat
    requires a < 0x1000000
  {
    if a < 0x800000 then a + 0x800000 else a - 0x800000
  }

  predicate HasMirror(a: nat) {
    var bank := Bank(a);
    bank < 0x40 || 0x80 <= bank < 0xC0
  }

  /** The same in terms of the addresses: they differ in their top bit, in the banks that are mirrored. */
  predicate MirrorsOf(a: nat, b: nat) {
    a < 0x1000000 && b < 0x1000000 && a != b && a % 0x800000 == b % 0x800000 && a / 0x10000 % 0x80 < 0x40
  }

  lemma MirrorIs(a: nat, b: nat)
    requires a < 0x1000000
    ensures HasMirror(a) && b == Mirror(a) <==> MirrorsOf(a, b)
  {
    var bank := a / 0x10000;
    assert bank < 0x100 && bank % 0x80 == if bank < 0x80 then bank else bank - 0x80;
    assert bank < 0x80 <==> a < 0x800000;
    TopBitOff(a);
    if b < 0x1000000 { TopBitOff(b); }
  }

  lemma TopBitOff(a: nat)
    requires a < 0x1000000
    ensures a % 0x800000 == if a < 0x800000 then a else a - 0x800000
  {
  }

  /** A 16-bit value is its two bytes. */
  lemma TwoBytes(v: nat)
    ensures v % 0x10000 == 0x100 * (v / 0x100 % 0x100) + v % 0x100
  {
    var q := v / 0x100;
    DivIs(v, 0x10000, q / 0x100, 0x100 * (q % 0x100) + v % 0x100);
  }

  /** Quotient and remainder are unique. */
  lemma DivIs(x: nat, m: nat, q: nat, r: nat)
    requires m > 0 && x == q * m + r && r < m
    ensures x / m == q && x % m == r
  {
    DivUnique(m, x / m, x % m, q, r);
  }

  lemma DivUnique(m: nat, q: int, r: nat, q': int, r': nat)
    requires m > 0 && q * m + r == q' * m + r' && r < m && r' < m
    ensures q == q' && r == r'
  {
    if q > q' {
      AtLeast(q - q', m);
    } else if q < q' {
      AtLeast(q' - q, m);
    }
  }

  lemma AtLeast(k: int, m: nat)
    requires k >= 1
    ensures k * m >= m
  {
    assert (k - 1) * m >= 0;
  }

  /** `order` lists the keys of a table, each once, in the order in which they were added. */
  ghost predicate Lists<K(!new), V>(order: seq<K>, table: map<K, V>) {
    && (forall k :: k in order <==> k in table)
    && (forall i, j :: 0 <= i < j < |order| ==> order[i] != order[j])
  }

  lemma ListsGrow<K(!new), V>(order: seq<K>, table: map<K, V>, k: K, v: V)
    requires Lists(order, table) && k !in table
    ensures Lists(order + [k], table[k := v])
  {
  }
}
