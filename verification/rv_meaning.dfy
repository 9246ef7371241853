// What the instructions of the machine of tools/rvsim.c mean: immediates against their encoding,
// bitwise operations and shifts against single bits, and control registers read back.
module RvMeaning {
  import opened Binary
  import opened MachineInts
  import opened MultiplyDivide
  import opened Options
  import opened Powers
  import opened RvMachine
  import opened RvTraps

  // Encodings, by chapter 2 of the RISC-V Unprivileged ISA 20191213

  // An immediate as a field of bits
  function Field(imm: int, size: nat): nat
    requires size > 0
  {
    imm % size
  }

  function EncodeI(op: nat, rd: Index, func3: nat, rs1: Index, imm: int): U32
    requires op < 0x80 && func3 < 8
  {
    op + rd * 0x80 + func3 * 0x1000 + rs1 * 0x8000 + Field(imm, 0x1000) * 0x10_0000
  }

  function EncodeR(op: nat, rd: nat, func3: nat, rs1: Index, rs2: Index, func7: nat): U32
    requires op < 0x80 && func3 < 8 && func7 < 0x80 && rd < 32
  {
    op + rd * 0x80 + func3 * 0x1000 + rs1 * 0x8000 + rs2 * 0x10_0000 + func7 * 0x200_0000
  }

  // imm[11:5] and imm[4:0]
  function EncodeS(op: nat, func3: nat, rs1: Index, rs2: Index, imm: int): U32
    requires op < 0x80 && func3 < 8
  {
    var u := Field(imm, 0x1000);
    EncodeR(op, u % 0x20, func3, rs1, rs2, u / 0x20)
  }

  // imm[12|10:5] and imm[4:1|11]
  function EncodeB(op: nat, func3: nat, rs1: Index, rs2: Index, imm: int): U32
    requires op < 0x80 && func3 < 8
  {
    var u := Field(imm, 0x2000);
    EncodeR(op, u / 2 % 0x10 * 2 + u / 0x800 % 2, func3, rs1, rs2, u / 0x1000 * 0x40 + u / 0x20 % 0x40)
  }

  function EncodeU(op: nat, rd: Index, imm: nat): U32
    requires op < 0x80 && imm < 0x10_0000
  {
    op + rd * 0x80 + imm * 0x1000
  }

  // imm[20|10:1|11|19:12]
  function EncodeJ(op: nat, rd: Index, imm: int): U32
    requires op < 0x80
  {
    var u := Field(imm, 0x20_0000);
    EncodeU(op, rd, u / 0x10_0000 * 0x8_0000 + u / 2 % 0x400 * 0x200 + u / 0x800 % 2 * 0x100 + u / 0x1000 % 0x100)
  }

  // x cut into q and r by a division
  lemma Cut(x: nat, m: nat, q: nat, r: nat)
    requires m > 0 && r < m && x == m * q + r
    ensures x / m == q && x % m == r
  {
    DivMod(x, m, q, r);
  }

  lemma DecodeR(op: nat, rd: nat, func3: nat, rs1: Index, rs2: Index, func7: nat)
    requires op < 0x80 && func3 < 8 && func7 < 0x80 && rd < 32
    ensures var i := EncodeR(op, rd, func3, rs1, rs2, func7);
      Opcode(i) == op && Rd(i) == rd && Func3(i) == func3 && Rs1(i) == rs1 && Rs2(i) == rs2 && Func7(i) == func7
  {
    var i := EncodeR(op, rd, func3, rs1, rs2, func7);
    var t4: nat := rs2 + 32 * func7;
    var t3: nat := rs1 + 32 * t4;
    var t2: nat := func3 + 8 * t3;
    var t1: nat := rd + 32 * t2;
    Cut(i, 0x80, t1, op);
    Cut(i, 0x1000, t2, op + 0x80 * rd);
    Cut(i, 0x8000, t3, op + 0x80 * rd + 0x1000 * func3);
    Cut(i, 0x10_0000, t4, op + 0x80 * rd + 0x1000 * func3 + 0x8000 * rs1);
    Cut(i, 0x200_0000, func7, op + 0x80 * rd + 0x1000 * func3 + 0x8000 * rs1 + 0x10_0000 * rs2);
    Cut(t1, 32, t2, rd);
    Cut(t2, 8, t3, func3);
    Cut(t3, 32, t4, rs1);
    Cut(t4, 32, func7, rs2);
  }

  lemma DecodeI(op: nat, rd: Index, func3: nat, rs1: Index, imm: int)
    requires op < 0x80 && func3 < 8 && -0x800 <= imm < 0x800
    ensures var i := EncodeI(op, rd, func3, rs1, imm);
      Opcode(i) == op && Rd(i) == rd && Func3(i) == func3 && Rs1(i) == rs1 && ImmI(i) == imm
  {
    var u := Field(imm, 0x1000);
    Cut(u, 0x20, u / 0x20, u % 0x20);
    DecodeR(op, rd, func3, rs1, u % 0x20, u / 0x20);
    var i := EncodeI(op, rd, func3, rs1, imm);
    assert i == EncodeR(op, rd, func3, rs1, u % 0x20, u / 0x20);
    Cut(i, 0x10_0000, u, op + 0x80 * rd + 0x1000 * func3 + 0x8000 * rs1);
    hide EncodeR, EncodeI, Opcode, Rd, Func3, Rs1, Rs2, Func7;
  }

  lemma DecodeS(op: nat, func3: nat, rs1: Index, rs2: Index, imm: int)
    requires op < 0x80 && func3 < 8 && -0x800 <= imm < 0x800
    ensures var i := EncodeS(op, func3, rs1, rs2, imm);
      Opcode(i) == op && Func3(i) == func3 && Rs1(i) == rs1 && Rs2(i) == rs2 && ImmS(i) == imm
  {
    var u := Field(imm, 0x1000);
    DecodeR(op, u % 0x20, func3, rs1, rs2, u / 0x20);
    hide EncodeR, Opcode, Rd, Func3, Rs1, Rs2, Func7;
  }

  // A branch offset and its bits: sign, bit 11, bits 10 to 5, bits 4 to 1
  lemma CutB(u: nat) returns (s: nat, b: nat, h: nat, l: nat)
    requires u < 0x2000 && u % 2 == 0
    ensures u == 0x1000 * s + 0x800 * b + 0x20 * h + 2 * l && s < 2 && b < 2 && h < 0x40 && l < 0x10
    ensures u / 0x1000 == s && u / 0x800 % 2 == b && u / 0x20 % 0x40 == h && u / 2 % 0x10 == l
  {
    var q1 := u / 2;
    var q2 := q1 / 0x10;
    var q3 := q2 / 0x40;
    s, b, h, l := q3 / 2, q3 % 2, q2 % 0x40, q1 % 0x10;
    Cut(u, 0x20, q2, 2 * l);
    Cut(u, 0x800, q3, 0x20 * h + 2 * l);
    Cut(u, 0x1000, s, 0x800 * b + 0x20 * h + 2 * l);
  }

  lemma DecodeB(op: nat, func3: nat, rs1: Index, rs2: Index, imm: int)
    requires op < 0x80 && func3 < 8 && -0x1000 <= imm < 0x1000 && imm % 2 == 0
    ensures var i := EncodeB(op, func3, rs1, rs2, imm);
      Opcode(i) == op && Func3(i) == func3 && Rs1(i) == rs1 && Rs2(i) == rs2 && ImmB(i) == imm
  {
    hide *;
    var i := EncodeB(op, func3, rs1, rs2, imm);
    var s, b, h, l := EncodeBIs(op, func3, rs1, rs2, imm);
    DecodeR(op, l * 2 + b, func3, rs1, rs2, s * 0x40 + h);
    ImmBIs(i, s, b, h, l);
  }

  lemma EncodeBIs(op: nat, func3: nat, rs1: Index, rs2: Index, imm: int) returns (s: nat, b: nat, h: nat, l: nat)
    requires op < 0x80 && func3 < 8 && -0x1000 <= imm < 0x1000 && imm % 2 == 0
    ensures s < 2 && b < 2 && h < 0x40 && l < 0x10
    ensures EncodeB(op, func3, rs1, rs2, imm) == EncodeR(op, l * 2 + b, func3, rs1, rs2, s * 0x40 + h)
    ensures imm == 0x800 * b + 0x20 * h + 2 * l - if s == 1 then 0x1000 else 0
  {
    hide EncodeR;
    var u := Field(imm, 0x2000);
    s, b, h, l := CutB(u);
  }

  lemma ImmBIs(i: U32, s: nat, b: nat, h: nat, l: nat)
    requires s < 2 && b < 2 && h < 0x40 && l < 0x10 && Rd(i) == l * 2 + b && Func7(i) == s * 0x40 + h
    ensures ImmB(i) == 0x800 * b + 0x20 * h + 2 * l - (if s == 1 then 0x1000 else 0)
  {
    hide Rd, Func7;
    CutN(s, b, h, l);
  }

  lemma CutN(s: nat, b: nat, h: nat, l: nat)
    requires s < 2 && b < 2 && h < 0x40 && l < 0x10
    ensures var n := 0x800 * s + 0x20 * h + 2 * l + b;
        n / 0x20 % 0x40 == h && n / 2 % 0x10 == l && n % 2 == b && n / 0x800 % 2 == s
  {
    var n := 0x800 * s + 0x20 * h + 2 * l + b;
    Cut(n, 0x800, s, 0x20 * h + 2 * l + b);
    Cut(n, 0x20, 0x40 * s + h, 2 * l + b);
    Cut(n, 2, 0x400 * s + 0x10 * h + l, b);
    Cut(0x40 * s + h, 0x40, s, h);
    Cut(0x400 * s + 0x10 * h + l, 0x10, 0x40 * s + h, l);
  }

  // A jump offset and its bits: sign, bits 19 to 12, bit 11, bits 10 to 1
  lemma CutJ(u: nat) returns (s: nat, h: nat, b: nat, l: nat)
    requires u < 0x20_0000 && u % 2 == 0
    ensures u == 0x10_0000 * s + 0x1000 * h + 0x800 * b + 2 * l && s < 2 && h < 0x100 && b < 2 && l < 0x400
    ensures u / 0x10_0000 == s && u / 0x1000 % 0x100 == h && u / 0x800 % 2 == b && u / 2 % 0x400 == l
  {
    var q1 := u / 2;
    var q2 := q1 / 0x400;
    var q3 := q2 / 2;
    s, h, b, l := q3 / 0x100, q3 % 0x100, q2 % 2, q1 % 0x400;
    Cut(u, 0x800, q2, 2 * l);
    Cut(u, 0x1000, q3, 0x800 * b + 2 * l);
    Cut(u, 0x10_0000, s, 0x1000 * h + 0x800 * b + 2 * l);
  }

  lemma CutM(s: nat, h: nat, b: nat, l: nat)
    requires s < 2 && h < 0x100 && b < 2 && l < 0x400
    ensures var n := 0x8_0000 * s + 0x200 * l + 0x100 * b + h;
      n / 0x200 % 0x400 == l && n / 0x100 % 2 == b && n % 0x100 == h && n / 0x8_0000 % 2 == s
  {
    var n := 0x8_0000 * s + 0x200 * l + 0x100 * b + h;
    Cut(n, 0x8_0000, s, 0x200 * l + 0x100 * b + h);
    Cut(n, 0x200, 0x400 * s + l, 0x100 * b + h);
    Cut(n, 0x100, 0x800 * s + 2 * l + b, h);
    Cut(0x400 * s + l, 0x400, s, l);
    Cut(0x800 * s + 2 * l + b, 2, 0x400 * s + l, b);
  }

  lemma DecodeJ(op: nat, rd: Index, imm: int)
    requires op < 0x80 && -0x10_0000 <= imm < 0x10_0000 && imm % 2 == 0
    ensures var i := EncodeJ(op, rd, imm); Opcode(i) == op && Rd(i) == rd && ImmJ(i) == imm
  {
    hide *;
    var i := EncodeJ(op, rd, imm);
    var s, h, b, l := EncodeJIs(op, rd, imm);
    DecodeU(op, rd, 0x8_0000 * s + 0x200 * l + 0x100 * b + h);
    ImmJIs(i, s, h, b, l);
  }

  lemma EncodeJIs(op: nat, rd: Index, imm: int) returns (s: nat, h: nat, b: nat, l: nat)
    requires op < 0x80 && -0x10_0000 <= imm < 0x10_0000 && imm % 2 == 0
    ensures s < 2 && h < 0x100 && b < 2 && l < 0x400
    ensures EncodeJ(op, rd, imm) == EncodeU(op, rd, 0x8_0000 * s + 0x200 * l + 0x100 * b + h)
    ensures imm == 0x1000 * h + 0x800 * b + 2 * l - if s == 1 then 0x10_0000 else 0
  {
    hide EncodeU;
    var u := Field(imm, 0x20_0000);
    s, h, b, l := CutJ(u);
  }

  lemma ImmJIs(i: U32, s: nat, h: nat, b: nat, l: nat)
    requires s < 2 && h < 0x100 && b < 2 && l < 0x400 && i / 0x1000 == 0x8_0000 * s + 0x200 * l + 0x100 * b + h
    ensures ImmJ(i) == 0x1000 * h + 0x800 * b + 2 * l - if s == 1 then 0x10_0000 else 0
  {
    CutM(s, h, b, l);
  }

  lemma DecodeU(op: nat, rd: Index, imm: nat)
    requires op < 0x80 && imm < 0x10_0000
    ensures var i := EncodeU(op, rd, imm);
        Opcode(i) == op && Rd(i) == rd && i / 0x1000 == imm && ImmU(i) == Wrap(imm * 0x1000)
  {
    var i := EncodeU(op, rd, imm);
    Cut(i, 0x80, rd + 32 * imm, op);
    Cut(i, 0x1000, imm, op + 0x80 * rd);
    Cut(rd + 32 * imm, 32, imm, rd);
  }

  // Bits of results

  lemma WrapBits(x: int, k: nat)
    ensures Has(Wrap(x), k) == Bit(x % WORD, k)
  {
    assert Unsigned(Wrap(x)) == x % WORD;
    hide Bit, Wrap, Unsigned;
  }

  lemma LogicalBits(a: Int32, b: Int32, k: nat)
    requires k < 32
    ensures Has(Basic(4, false, a, b), k) == (Has(a, k) != Has(b, k))
    ensures Has(Basic(6, false, a, b), k) == (Has(a, k) || Has(b, k))
    ensures Has(Basic(7, false, a, b), k) == (Has(a, k) && Has(b, k))
  {
    hide Xor, Or, And, Bit, Wrap, Pow2;
    var x, y := Unsigned(a), Unsigned(b);
    Pow2Values();
    XorInRange(x, y, 32);
    OrInRange(x, y, 32);
    WrapBits(Xor(x, y, 32), k);
    WrapBits(Or(x, y, 32), k);
    WrapBits(And(x, y, 32), k);
    XorBit(x, y, 32, k);
    OrBit(x, y, 32, k);
    AndBit(x, y, 32, k);
  }

  lemma ShlBits(a: Int32, n: nat, k: nat)
    requires n < 32 && k < 32
    ensures Has(Shl(a, n), k) == (k >= n && Has(a, k - n))
  {
    hide Bit, Wrap, Pow2, ShiftUp, LowPart;
    var x := Unsigned(a);
    Pow2Values();
    ShiftUpIs(x, n);
    PartsAre(ShiftUp(x, n), 32, WORD);
    WrapBits(ShiftUp(x, n), k);
    LowBit(ShiftUp(x, n), 32, k);
    ShiftUpBit(x, n, k);
  }

  lemma ShrBits(a: Int32, n: nat, k: nat)
    requires n < 32 && k < 32
    ensures Has(Shr(a, n), k) == (n + k < 32 && Has(a, n + k))
  {
    ShiftedDown(Unsigned(a), n, k);
    hide Bit, Wrap, Pow2;
    WrapBits(Unsigned(a) / Pow2(n), k);
  }

  lemma ShiftedDown(x: U32, n: nat, k: nat)
    ensures 0 <= x / Pow2(n) < WORD && Bit(x / Pow2(n), k) == (n + k < 32 && Bit(x, n + k))
  {
    hide Bit, Pow2, HighPart;
    Pow2Values();
    PartsAre(x, n, Pow2(n));
    HighBit(x, n, k);
    if n + k >= 32 {
      NoBit(x, 32, n + k);
    }
    QuotientSmall(x, Pow2(n));
  }

  lemma QuotientSmall(x: nat, p: nat)
    requires p > 0
    ensures 0 <= x / p <= x
  {
    QuotientAtMost(x, p);
  }

  // The sign fills the places that an arithmetic shift frees
  lemma SarBits(a: Int32, n: nat, k: nat)
    requires n < 32 && k < 32
    ensures Has(Sar(a, n), k) == if n + k < 32 then Has(a, n + k) else a < 0
  {
    if a >= 0 {
      SarOfPositive(a, n, k);
    } else {
      SarOfNegative(a, n, k);
    }
  }

  lemma SarOfPositive(a: Int32, n: nat, k: nat)
    requires n < 32 && k < 32 && a >= 0
    ensures Has(Sar(a, n), k) == (n + k < 32 && Has(a, n + k))
  {
    hide Bit, Wrap, Pow2;
    ShiftedDown(a, n, k);
    WrapBits(a / Pow2(n), k);
  }

  // The complement is shifted instead
  lemma SarOfNegative(a: Int32, n: nat, k: nat)
    requires n < 32 && k < 32 && a < 0
    ensures Has(Sar(a, n), k) == (n + k < 32 ==> Has(a, n + k))
  {
    hide Bit, Pow2, Wrap, Unsigned;
    var c: U32 := -1 - (a as int);
    var q := c / Pow2(n);
    Negative(c, Pow2(n));
    ShiftedDown(c, n, k);
    ComplementBit(q, k);
    assert Sar(a, n) == Wrap(-1 - q);
    if n + k < 32 {
      ComplementBit(c, n + k);
      WrapBackSigned(a);
    }
  }

  lemma ComplementBit(c: U32, k: nat)
    requires k < 32
    ensures Has(Wrap(-1 - c), k) == !Bit(c, k)
  {
    hide Bit, Pow2, Wrap;
    Pow2Values();
    WrapBits(-1 - c, k);
    NotBit(c, 32, k);
  }

  lemma Negative(c: nat, p: int)
    requires p > 0
    ensures (-1 - (c as int)) / p == -1 - (c / p)
  {
    var q, r := c / p, c % p;
    assert c == p * q + r;
    assert -1 - (c as int) == p * (-1 - q) + (p - 1 - r) by {
      assert p * (-1 - q) == -(p * q) - p;
    }
    FloorIs(-1 - (c as int), p, -1 - q, p - 1 - r);
  }

  lemma FloorIs(x: int, p: int, q: int, r: int)
    requires p > 0 && 0 <= r < p && x == p * q + r
    ensures x / p == q
  {
    Multiple(p, x / p - q);
    assert p * (x / p - q) == p * (x / p) - p * q;
  }

  // Control registers

  predicate Writable(n: nat) {
    n in {0x300, 0x301, 0x304, 0x305, 0x310, 0x340, 0x341, 0x342, 0x343, 0x344}
  }

  // A register reads as what was last written to it, and a write changes no other
  lemma CsrReadBack(csr: Csr, n: nat, m: nat, v: Int32)
    ensures CsrRead(CsrWrite(csr, n, v), m) == if m == n && Writable(n) then Some(v) else CsrRead(csr, m)
  {
  }

  // csrrs sets the bits of its operand and csrrc clears them
  lemma UpdatedBits(was: Int32, val: Int32, k: nat)
    requires k < 32
    ensures Has(Updated(2, was, val), k) == (Has(was, k) || Has(val, k))
    ensures Has(Updated(3, was, val), k) == (Has(was, k) && !Has(val, k))
  {
    hide Or, And, Bit, Wrap, Pow2;
    var x, y := Unsigned(was), Unsigned(val);
    Pow2Values();
    OrInRange(x, y, 32);
    OrInRange(x, WORD - 1 - y, 32);
    WrapBits(Or(x, y, 32), k);
    WrapBits(And(x, WORD - 1 - y, 32), k);
    OrBit(x, y, 32, k);
    AndBit(x, WORD - 1 - y, 32, k);
    NotBit(y, 32, k);
  }
}
