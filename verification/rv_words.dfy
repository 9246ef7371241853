// The fields of an instruction word as tools/rvsim.c cuts them out of bits, against the numbers that
// the machine works with.
module RvWords {
  import opened Binary
  import I = Instructions
  import opened MachineInts
  import M = RvMachine
  import opened MultiplyDivide
  import opened Powers
  import opened Words

  lemma FieldValue(w: bv32, s: bv32, n: nat, m: bv32, k: nat)
    requires s <= 32 && Counts(s, n) && IsMask(m, k) && k <= 32
    ensures Value((w >> s) & m) == Value(w) / Pow2(n) % Pow2(k)
  {
    hide *;
    ShiftedValue(w, s, n);
    MaskedValue(w >> s, m, k);
  }

  lemma PowerValues()
    ensures Pow2(1) == 2 && Pow2(2) == 4 && Pow2(3) == 8 && Pow2(4) == 0x10 && Pow2(5) == 0x20 && Pow2(6) == 0x40
    ensures Pow2(7) == 0x80 && Pow2(8) == 0x100 && Pow2(9) == 0x200 && Pow2(10) == 0x400 && Pow2(11) == 0x800
    ensures Pow2(12) == 0x1000 && Pow2(13) == 0x2000 && Pow2(15) == 0x8000 && Pow2(19) == 0x8_0000
    ensures Pow2(20) == 0x10_0000 && Pow2(25) == 0x200_0000
  {
  }

  lemma OpcodeValue(w: bv32)
    ensures Value(I.Opcode(w)) == Value(w) % 0x80
  {
    hide Value, IsMask, Pow2;
    Masks();
    PowerValues();
    MaskedValue(w, 0x7f, 7);
  }

  lemma RdValue(w: bv32)
    ensures Value(I.Rd(w)) == Value(w) / 0x80 % 0x20
  {
    hide Value, IsMask, Pow2, Counts;
    Masks();
    Amounts();
    PowerValues();
    FieldValue(w, 7, 7, 0x1f, 5);
  }

  lemma Func3Value(w: bv32)
    ensures Value(I.Func3(w)) == Value(w) / 0x1000 % 8
  {
    hide Value, IsMask, Pow2, Counts;
    Masks();
    Amounts();
    PowerValues();
    FieldValue(w, 12, 12, 7, 3);
  }

  lemma Rs1Value(w: bv32)
    ensures Value(I.Rs1(w)) == Value(w) / 0x8000 % 0x20
  {
    hide Value, IsMask, Pow2, Counts;
    Masks();
    Amounts();
    PowerValues();
    FieldValue(w, 15, 15, 0x1f, 5);
  }

  lemma Rs2Value(w: bv32)
    ensures Value(I.Rs2(w)) == Value(w) / 0x10_0000 % 0x20
  {
    hide Value, IsMask, Pow2, Counts;
    Masks();
    Amounts();
    PowerValues();
    FieldValue(w, 20, 20, 0x1f, 5);
  }

  lemma TopSeven(w: bv32)
    ensures (w >> 25) & 0x7f == w >> 25
  {
  }

  lemma Func7Value(w: bv32)
    ensures Value(I.Func7(w)) == Value(w >> 25) == Value(w) / 0x200_0000
  {
    hide Value, Pow2, Counts;
    Amounts();
    PowerValues();
    TopSeven(w);
    ShiftedValue(w, 25, 25);
  }

  lemma Upper20Value(w: bv32)
    ensures Value(w >> 12) == Value(w) / 0x1000
  {
    hide Value, Pow2, Counts;
    Amounts();
    PowerValues();
    ShiftedValue(w, 12, 12);
  }

  lemma Upper12Value(w: bv32)
    ensures Value(w >> 20) == Value(w) / 0x10_0000
  {
    hide Value, Pow2, Counts;
    Amounts();
    PowerValues();
    ShiftedValue(w, 20, 20);
  }

  // The bits that a negative immediate is filled with
  lemma Fillings()
    ensures Value(0xfffff000) == 0xfffff000 && Value(0xfff00000) == 0xfff00000
  {
    hide Value, Pow2, Counts;
    AllOnes(0xffff_ffff);
    Amounts();
    PowerValues();
    ShiftedValue(0xffff_ffff, 12, 12);
    ShiftedValue(0xffff_ffff, 20, 20);
    UpValue(0xfffff000, 0xfffff, 12, 12, 0x1000);
    UpValue(0xfff00000, 0xfff, 20, 20, 0x10_0000);
  }

  // Bit 0 of v
  lemma BitValue(v: bv32)
    ensures Value(v & 1) == if v & 1 == 1 then 1 else 0
  {
    hide Value;
    Constants();
    ZeroOrOne(v);
  }

  lemma ZeroOrOne(v: bv32)
    ensures v & 1 == 0 || v & 1 == 1
  {
  }

  // I-Type

  lemma Sign12(n: bv32)
    requires n <= 0xfff
    ensures n & 0x800 != 0 <==> (n >> 11) & 1 == 1
    ensures IsJoin(n | 0xfffff000, n, 0xfffff000) && n & 0xfff == n
  {
  }

  lemma TwelveBits(n: bv32)
    requires n & 0xfff == n
    ensures Value(n) < 0x1000
  {
    hide Value, IsMask, Pow2;
    Masks();
    PowerValues();
    MaskedValue(n, 0xfff, 12);
  }

  lemma SignValue(n: bv32)
    requires Value(n) < 0x1000
    ensures (n >> 11) & 1 == 1 <==> Value(n) >= 0x800
  {
    hide Value, IsMask, Pow2, Counts;
    Masks();
    Amounts();
    PowerValues();
    FieldValue(n, 11, 11, 1, 1);
    BitValue(n >> 11);
  }

  lemma ToImmIValue(n: bv32)
    requires n <= 0xfff
    ensures Value(n) < 0x1000 && Value(I.ToImmI(n)) == Unsigned(M.ToImmI(Value(n)))
  {
    hide Value, IsJoin;
    Sign12(n);
    TwelveBits(n);
    SignValue(n);
    if n & 0x800 != 0 {
      Fillings();
      JoinValue(n | 0xfffff000, n, 0xfffff000);
    }
  }

  lemma ShiftFits(w: bv32)
    ensures w >> 20 <= 0xfff && w >> 25 <= 0x7f && I.Rd(w) <= 0x1f
  {
  }

  lemma ImmIValue(w: bv32)
    ensures Value(I.ToImmI(w >> 20)) == Unsigned(M.ImmI(Value(w)))
  {
    hide Value, I.ToImmI, M.ToImmI, Unsigned;
    Upper12Value(w);
    ShiftFits(w);
    ToImmIValue(w >> 20);
  }

  // S-Type and B-Type: the field of two parts

  lemma JoinedParts(a: bv32, b: bv32, n: bv32) returns (u: bv32)
    requires a <= 0x7f && b <= 0x1f && n == (a << 5) + b
    ensures IsUp(u, a, 5) && IsJoin(n, u, b) && n <= 0xfff
  {
    u := a << 5;
  }

  lemma JoinedValue(a: bv32, b: bv32, n: bv32, u: bv32)
    requires Value(a) < 0x80 && Value(b) < 0x20 && IsUp(u, a, 5) && IsJoin(n, u, b)
    ensures Value(n) == 32 * Value(a) + Value(b)
  {
    hide *;
    Amounts();
    PowerValues();
    UpValue(u, a, 5, 5, 0x20);
    JoinValue(n, u, b);
  }

  // The two parts of an S-Type or B-Type immediate
  lemma PartsValue(w: bv32) returns (n: bv32)
    ensures n == (w >> 25 << 5) + I.Rd(w) && n <= 0xfff
    ensures Value(n) == M.Func7(Value(w)) * 32 + M.Rd(Value(w))
  {
    hide Value, M.Rd, M.Func7, I.Rd;
    n := (w >> 25 << 5) + I.Rd(w);
    Func7Value(w);
    RdValue(w);
    ShiftFits(w);
    PartsRange(Value(w));
    var u := JoinedParts(w >> 25, I.Rd(w), n);
    JoinedValue(w >> 25, I.Rd(w), n, u);
  }

  lemma PartsRange(i: U32)
    ensures M.Func7(i) == i / 0x200_0000 < 0x80 && M.Rd(i) == i / 0x80 % 0x20
  {
  }

  lemma ImmSValue(w: bv32)
    ensures Value(I.ToImmS(w >> 25, I.Rd(w))) == Unsigned(M.ImmS(Value(w)))
  {
    hide Value, I.ToImmI, M.ToImmI, Unsigned, M.Rd, M.Func7, I.Rd;
    var n := PartsValue(w);
    ToImmIValue(n);
  }

  // The pieces of a branch offset

  // r is b, c and d, moved up by 5, 1 and 11 places
  predicate IsOffsetB(r: bv32, b: bv32, c: bv32, d: bv32) { r == (b << 5) | (c << 1) | (d << 11) }

  lemma DisjointB(b: bv32, c: bv32, d: bv32, x: bv32, y: bv32, z: bv32)
    requires b <= 0x3f && c <= 0xf && d <= 1 && x == b << 5 && y == c << 1 && z == d << 11
    ensures x & y == 0 && (x | y) & z == 0 && (x | y | z) & 0xfffff000 == 0
  {
  }

  lemma IsOffsetBOf(b: bv32, c: bv32, d: bv32, x: bv32, y: bv32, z: bv32)
    requires x == b << 5 && y == c << 1 && z == d << 11
    ensures IsOffsetB(x | y | z, b, c, d)
  {
  }

  lemma PiecesB(b: bv32, c: bv32, d: bv32, x: bv32, y: bv32, z: bv32)
    requires b <= 0x3f && c <= 0xf && d <= 1 && x == b << 5 && y == c << 1 && z == d << 11
    ensures IsJoin(x | y, x, y) && IsJoin(x | y | z, x | y, z)
  {
    hide IsJoin;
    DisjointB(b, c, d, x, y, z);
    IsJoinOf(x, y);
    IsJoinOf(x | y, z);
  }

  lemma PieceSumB(b: bv32, c: bv32, d: bv32, x: bv32, y: bv32, z: bv32, p: bv32, r: bv32)
    requires IsUp(x, b, 5) && IsUp(y, c, 1) && IsUp(z, d, 11) && IsJoin(p, x, y) && IsJoin(r, p, z)
    requires Value(b) < 0x40 && Value(c) < 0x10 && Value(d) < 2
    ensures Value(r) == Value(b) * 0x20 + Value(c) * 0x2 + Value(d) * 0x800
  {
    hide *;
    Amounts();
    PowerValues();
    UpValue(x, b, 5, 5, 0x20);
    UpValue(y, c, 1, 1, 0x2);
    UpValue(z, d, 11, 11, 0x800);
    JoinValue(p, x, y);
    JoinValue(r, p, z);
  }

  lemma SumOfB(b: bv32, c: bv32, d: bv32) returns (r: bv32)
    requires b <= 0x3f && c <= 0xf && d <= 1
    requires Value(b) < 0x40 && Value(c) < 0x10 && Value(d) < 2
    ensures IsOffsetB(r, b, c, d) && Value(r) == Value(b) * 0x20 + Value(c) * 0x2 + Value(d) * 0x800
  {
    hide *;
    var x, y, z := b << 5, c << 1, d << 11;
    r := x | y | z;
    IsUpOf(x, b, 5);
    IsUpOf(y, c, 1);
    IsUpOf(z, d, 11);
    IsOffsetBOf(b, c, d, x, y, z);
    PiecesB(b, c, d, x, y, z);
    PieceSumB(b, c, d, x, y, z, x | y, r);
  }

  lemma PiecesFit(n: bv32)
    ensures (n >> 11) & 1 <= 1 && (n >> 5) & 0x3f <= 0x3f && (n >> 1) & 0xf <= 0xf && n & 1 <= 1
  {
  }

  lemma PieceValues(n: bv32)
    ensures Value((n >> 5) & 0x3f) == Value(n) / 0x20 % 0x40 && Value((n >> 1) & 0xf) == Value(n) / 2 % 0x10
    ensures Value(n & 1) == Value(n) % 2
  {
    hide Value, IsMask, Pow2, Counts;
    Masks();
    Amounts();
    PowerValues();
    FieldValue(n, 5, 5, 0x3f, 6);
    FieldValue(n, 1, 1, 0xf, 4);
    MaskedValue(n, 1, 1);
  }

  lemma TopPieceValue(n: bv32)
    ensures (n >> 11) & 1 == 1 <==> Value(n) / 0x800 % 2 == 1
  {
    hide Value, IsMask, Pow2, Counts;
    Masks();
    Amounts();
    PowerValues();
    FieldValue(n, 11, 11, 1, 1);
    BitValue(n >> 11);
  }

  function OffsetB(u: nat): int {
    u / 0x20 % 0x40 * 0x20 + u / 2 % 0x10 * 2 + u % 2 * 0x800 - (if u / 0x800 % 2 == 1 then 0x1000 else 0)
  }

  lemma NegativeB(n1: bv32, n2: bv32, n: bv32, b: bv32, c: bv32, d: bv32)
    requires n == (n1 << 5) + n2 && (n >> 5) & 0x3f == b && (n >> 1) & 0xf == c && n & 1 == d && (n >> 11) & 1 == 1
    ensures I.ToImmB(n1, n2) == (b << 5) | (c << 1) | (d << 11) | 0xfffff000
  {
  }

  lemma PositiveB(n1: bv32, n2: bv32, n: bv32, b: bv32, c: bv32, d: bv32)
    requires n == (n1 << 5) + n2 && (n >> 5) & 0x3f == b && (n >> 1) & 0xf == c && n & 1 == d && (n >> 11) & 1 == 0
    ensures I.ToImmB(n1, n2) == (b << 5) | (c << 1) | (d << 11)
  {
  }

  lemma FilledOffsetB(b: bv32, c: bv32, d: bv32, r: bv32, v: bv32)
    requires b <= 0x3f && c <= 0xf && d <= 1 && IsOffsetB(r, b, c, d)
        && v == (b << 5) | (c << 1) | (d << 11) | 0xfffff000
    ensures IsJoin(v, r, 0xfffff000)
  {
    DisjointB(b, c, d, b << 5, c << 1, d << 11);
  }

  lemma ToImmBIs(n1: bv32, n2: bv32, n: bv32, b: bv32, c: bv32, d: bv32, r: bv32)
    requires n == (n1 << 5) + n2 && b == (n >> 5) & 0x3f && c == (n >> 1) & 0xf && d == n & 1 && IsOffsetB(r, b, c, d)
    ensures if (n >> 11) & 1 == 1 then IsJoin(I.ToImmB(n1, n2), r, 0xfffff000) else I.ToImmB(n1, n2) == r
  {
    hide I.ToImmB, IsJoin;
    PiecesFit(n);
    ZeroOrOne(n >> 11);
    if (n >> 11) & 1 == 1 {
      NegativeB(n1, n2, n, b, c, d);
      FilledOffsetB(b, c, d, r, I.ToImmB(n1, n2));
    } else {
      PositiveB(n1, n2, n, b, c, d);
    }
  }

  lemma ToImmBValue(n1: bv32, n2: bv32, n: bv32)
    requires n == (n1 << 5) + n2
    ensures Value(I.ToImmB(n1, n2)) == OffsetB(Value(n)) + if OffsetB(Value(n)) < 0 then 0x1_0000_0000 else 0
  {
    hide Value, I.ToImmB, IsJoin, IsOffsetB;
    var b, c, d := (n >> 5) & 0x3f, (n >> 1) & 0xf, n & 1;
    PiecesFit(n);
    PieceValues(n);
    TopPieceValue(n);
    var r := SumOfB(b, c, d);
    ToImmBIs(n1, n2, n, b, c, d, r);
    if (n >> 11) & 1 == 1 {
      Fillings();
      JoinValue(I.ToImmB(n1, n2), r, 0xfffff000);
    }
  }

  lemma OffsetBIs(i: U32)
    ensures M.ImmB(i) == OffsetB(M.Func7(i) * 32 + M.Rd(i))
  {
    hide M.Func7, M.Rd;
  }

  lemma ImmBValue(w: bv32)
    ensures Value(I.ToImmB(w >> 25, I.Rd(w))) == Unsigned(M.ImmB(Value(w)))
  {
    hide Value, I.ToImmB, M.ImmB, OffsetB, M.Rd, M.Func7, I.Rd;
    var n := PartsValue(w);
    ToImmBValue(w >> 25, I.Rd(w), n);
    OffsetBIs(Value(w));
  }

  // J-Type and U-Type

  // r is b, c and d, moved up by 1, 11 and 12 places
  predicate IsOffsetJ(r: bv32, b: bv32, c: bv32, d: bv32) { r == (b << 1) | (c << 11) | (d << 12) }

  lemma DisjointJ(b: bv32, c: bv32, d: bv32, x: bv32, y: bv32, z: bv32)
    requires b <= 0x3ff && c <= 1 && d <= 0xff && x == b << 1 && y == c << 11 && z == d << 12
    ensures x & y == 0 && (x | y) & z == 0 && (x | y | z) & 0xfff00000 == 0
  {
  }

  lemma IsOffsetJOf(b: bv32, c: bv32, d: bv32, x: bv32, y: bv32, z: bv32)
    requires x == b << 1 && y == c << 11 && z == d << 12
    ensures IsOffsetJ(x | y | z, b, c, d)
  {
  }

  lemma PiecesJ(b: bv32, c: bv32, d: bv32, x: bv32, y: bv32, z: bv32)
    requires b <= 0x3ff && c <= 1 && d <= 0xff && x == b << 1 && y == c << 11 && z == d << 12
    ensures IsJoin(x | y, x, y) && IsJoin(x | y | z, x | y, z)
  {
    hide IsJoin;
    DisjointJ(b, c, d, x, y, z);
    IsJoinOf(x, y);
    IsJoinOf(x | y, z);
  }

  lemma PieceSumJ(b: bv32, c: bv32, d: bv32, x: bv32, y: bv32, z: bv32, p: bv32, r: bv32)
    requires IsUp(x, b, 1) && IsUp(y, c, 11) && IsUp(z, d, 12) && IsJoin(p, x, y) && IsJoin(r, p, z)
    requires Value(b) < 0x400 && Value(c) < 2 && Value(d) < 0x100
    ensures Value(r) == Value(b) * 0x2 + Value(c) * 0x800 + Value(d) * 0x1000
  {
    hide *;
    Amounts();
    PowerValues();
    UpValue(x, b, 1, 1, 0x2);
    UpValue(y, c, 11, 11, 0x800);
    UpValue(z, d, 12, 12, 0x1000);
    JoinValue(p, x, y);
    JoinValue(r, p, z);
  }

  lemma SumOfJ(b: bv32, c: bv32, d: bv32) returns (r: bv32)
    requires b <= 0x3ff && c <= 1 && d <= 0xff
    requires Value(b) < 0x400 && Value(c) < 2 && Value(d) < 0x100
    ensures IsOffsetJ(r, b, c, d) && Value(r) == Value(b) * 0x2 + Value(c) * 0x800 + Value(d) * 0x1000
  {
    hide *;
    var x, y, z := b << 1, c << 11, d << 12;
    r := x | y | z;
    IsUpOf(x, b, 1);
    IsUpOf(y, c, 11);
    IsUpOf(z, d, 12);
    IsOffsetJOf(b, c, d, x, y, z);
    PiecesJ(b, c, d, x, y, z);
    PieceSumJ(b, c, d, x, y, z, x | y, r);
  }

  lemma LongPiecesFit(n: bv32)
    ensures (n >> 19) & 1 <= 1 && (n >> 9) & 0x3ff <= 0x3ff && (n >> 8) & 1 <= 1 && n & 0xff <= 0xff
  {
  }

  lemma LongPieceValues(n: bv32)
    ensures Value((n >> 9) & 0x3ff) == Value(n) / 0x200 % 0x400 && Value((n >> 8) & 1) == Value(n) / 0x100 % 2
    ensures Value(n & 0xff) == Value(n) % 0x100
  {
    hide Value, IsMask, Pow2, Counts;
    Masks();
    Amounts();
    PowerValues();
    FieldValue(n, 9, 9, 0x3ff, 10);
    FieldValue(n, 8, 8, 1, 1);
    MaskedValue(n, 0xff, 8);
  }

  lemma LongTopPieceValue(n: bv32)
    ensures (n >> 19) & 1 == 1 <==> Value(n) / 0x8_0000 % 2 == 1
  {
    hide Value, IsMask, Pow2, Counts;
    Masks();
    Amounts();
    PowerValues();
    FieldValue(n, 19, 19, 1, 1);
    BitValue(n >> 19);
  }

  function OffsetJ(u: nat): int {
    u / 0x200 % 0x400 * 2 + u / 0x100 % 2 * 0x800 + u % 0x100 * 0x1000
    - (if u / 0x8_0000 % 2 == 1 then 0x10_0000 else 0)
  }

  lemma NegativeJ(n: bv32, b: bv32, c: bv32, d: bv32)
    requires (n >> 9) & 0x3ff == b && (n >> 8) & 1 == c && n & 0xff == d && (n >> 19) & 1 == 1
    ensures I.ToImmJ(n) == (b << 1) | (c << 11) | (d << 12) | 0xfff00000
  {
  }

  lemma PositiveJ(n: bv32, b: bv32, c: bv32, d: bv32)
    requires (n >> 9) & 0x3ff == b && (n >> 8) & 1 == c && n & 0xff == d && (n >> 19) & 1 == 0
    ensures I.ToImmJ(n) == (b << 1) | (c << 11) | (d << 12)
  {
  }

  lemma FilledOffsetJ(b: bv32, c: bv32, d: bv32, r: bv32, v: bv32)
    requires b <= 0x3ff && c <= 1 && d <= 0xff && IsOffsetJ(r, b, c, d)
        && v == (b << 1) | (c << 11) | (d << 12) | 0xfff00000
    ensures IsJoin(v, r, 0xfff00000)
  {
    DisjointJ(b, c, d, b << 1, c << 11, d << 12);
  }

  lemma ToImmJIs(n: bv32, b: bv32, c: bv32, d: bv32, r: bv32)
    requires b == (n >> 9) & 0x3ff && c == (n >> 8) & 1 && d == n & 0xff && IsOffsetJ(r, b, c, d)
    ensures if (n >> 19) & 1 == 1 then IsJoin(I.ToImmJ(n), r, 0xfff00000) else I.ToImmJ(n) == r
  {
    hide I.ToImmJ, IsJoin;
    LongPiecesFit(n);
    ZeroOrOne(n >> 19);
    if (n >> 19) & 1 == 1 {
      NegativeJ(n, b, c, d);
      FilledOffsetJ(b, c, d, r, I.ToImmJ(n));
    } else {
      PositiveJ(n, b, c, d);
    }
  }

  lemma ToImmJValue(n: bv32)
    ensures Value(I.ToImmJ(n)) == OffsetJ(Value(n)) + if OffsetJ(Value(n)) < 0 then 0x1_0000_0000 else 0
  {
    hide Value, I.ToImmJ, IsJoin, IsOffsetJ;
    var b, c, d := (n >> 9) & 0x3ff, (n >> 8) & 1, n & 0xff;
    LongPiecesFit(n);
    LongPieceValues(n);
    LongTopPieceValue(n);
    var r := SumOfJ(b, c, d);
    ToImmJIs(n, b, c, d, r);
    if (n >> 19) & 1 == 1 {
      Fillings();
      JoinValue(I.ToImmJ(n), r, 0xfff00000);
    }
  }

  lemma ImmJValue(w: bv32)
    ensures Value(I.ToImmJ(w >> 12)) == Unsigned(M.ImmJ(Value(w)))
  {
    hide Value, I.ToImmJ;
    Upper20Value(w);
    ToImmJValue(w >> 12);
  }

  lemma ImmUIs(i: U32, v: nat)
    requires v == i / 0x1000 * 0x1000
    ensures v < 0x1_0000_0000 && v == Unsigned(M.ImmU(i))
  {
  }

  lemma ImmUValue(w: bv32)
    ensures Value(I.ToImmU(w >> 12)) == Unsigned(M.ImmU(Value(w)))
  {
    hide Value, Pow2, Counts, IsUp, M.ImmU, Unsigned;
    Upper20Value(w);
    ImmUIs(Value(w), Value(w) / 0x1000 * 0x1000);
    Amounts();
    PowerValues();
    IsUpOf(I.ToImmU(w >> 12), w >> 12, 12);
    UpValue(I.ToImmU(w >> 12), w >> 12, 12, 12, 0x1000);
  }
}
