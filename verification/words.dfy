// 32-bit words as numbers: the operations on bits against arithmetic.
module Words {
  import opened Binary
  import opened MachineInts
  import opened Powers

  function Low(w: bv32): nat { if w & 1 == 1 then 1 else 0 }

  // The number that the low n bits of w hold
  function Number(w: bv32, n: nat): nat
    decreases n
  {
    if n == 0 then 0 else Low(w) + 2 * Number(w >> 1, n - 1)
  }

  lemma LowIs(w: bv32)
    ensures Low(w) <= 1
  {
  }

  lemma NumberStep(w: bv32, n: nat)
    requires n > 0
    ensures Number(w, n) == Low(w) + 2 * Number(w >> 1, n - 1) && Low(w) <= 1
  {
  }

  lemma NoNumber(w: bv32)
    ensures Number(w, 0) == 0
  {
  }

  lemma DoublePow2(n: nat)
    requires n > 0
    ensures Pow2(n) == 2 * Pow2(n - 1)
  {
  }

  lemma {:induction false} NumberInRange(w: bv32, n: nat)
    ensures Number(w, n) < Pow2(n)
  {
    hide *;
    if n == 0 {
      NoNumber(w);
    } else {
      NumberStep(w, n);
      DoublePow2(n);
      NumberInRange(w >> 1, n - 1);
    }
  }

  lemma WholeInRange(w: bv32)
    ensures Number(w, 32) < 0x1_0000_0000
  {
    hide Number, Pow2;
    Pow2Values();
    NumberInRange(w, 32);
  }

  function Value(w: bv32): U32 {
    WholeInRange(w);
    Number(w, 32)
  }

  // Words that n bits hold
  predicate Fits(w: bv32, n: nat)
    decreases n
  {
    if n == 0 then w == 0 else Fits(w >> 1, n - 1)
  }

  lemma FitsStep(w: bv32, n: nat)
    ensures Fits(w, n) <==> if n == 0 then w == 0 else Fits(w >> 1, n - 1)
  {
  }

  lemma SameHalves(v: bv32, w: bv32)
    requires v >> 1 == w >> 1 && Low(v) == Low(w)
    ensures v == w
  {
  }

  lemma {:induction false} NumberFixes(v: bv32, w: bv32, n: nat)
    requires Fits(v, n) && Fits(w, n) && Number(v, n) == Number(w, n)
    ensures v == w
    decreases n
  {
    hide *;
    FitsStep(v, n);
    FitsStep(w, n);
    if n > 0 {
      NumberStep(v, n);
      NumberStep(w, n);
      NumberFixes(v >> 1, w >> 1, n - 1);
      SameHalves(v, w);
    }
  }

  // Shift amounts as numbers
  predicate Counts(s: bv32, n: nat)
    decreases n
  {
    if n == 0 then s == 0 else s != 0 && Counts(s - 1, n - 1)
  }

  lemma ShiftStep(w: bv32, s: bv32)
    requires 0 < s <= 32
    ensures w >> s == (w >> 1) >> (s - 1)
  {
  }

  lemma NoShift(w: bv32)
    ensures w >> 0 == w
  {
  }

  lemma CountsStep(s: bv32, n: nat)
    ensures Counts(s, n) <==> if n == 0 then s == 0 else s != 0 && Counts(s - 1, n - 1)
  {
  }

  lemma {:induction false} NumberSplit(w: bv32, s: bv32, n: nat, k: nat)
    requires s <= 32 && Counts(s, n)
    ensures Number(w, n + k) == Number(w, n) + Pow2(n) * Number(w >> s, k)
    decreases n
  {
    hide *;
    CountsStep(s, n);
    if n == 0 {
      NoNumber(w);
      NoShift(w);
      PowZero();
    } else {
      NumberStep(w, n);
      NumberStep(w, n + k);
      ShiftStep(w, s);
      DoublePow2(n);
      NumberSplit(w >> 1, s - 1, n - 1, k);
      Twice(Pow2(n - 1), Number(w >> s, k));
      assert (n + k) - 1 == (n - 1) + k;
    }
  }

  lemma NoTimes(p: nat)
    ensures Times(p, 0) == 0 && Times(1, p) == p && Times(p, 1) == p
  {
  }

  lemma PowZero()
    ensures Pow2(0) == 1
  {
  }

  lemma Twice(p: nat, x: nat)
    ensures 2 * p * x == 2 * (p * x)
  {
  }

  lemma {:induction false} ShiftedFits(w: bv32, s: bv32, n: nat)
    requires s <= 32 && Counts(s, n) && w >> s == 0
    ensures Fits(w, n)
    decreases n
  {
    hide *;
    CountsStep(s, n);
    FitsStep(w, n);
    if n == 0 {
      NoShift(w);
    } else {
      ShiftStep(w, s);
      ShiftedFits(w >> 1, s - 1, n - 1);
    }
  }

  lemma Amounts()
    ensures Counts(1, 1) && Counts(5, 5) && Counts(7, 7) && Counts(8, 8) && Counts(9, 9) && Counts(11, 11)
    ensures Counts(12, 12) && Counts(15, 15) && Counts(19, 19) && Counts(20, 20) && Counts(25, 25) && Counts(32, 32)
  {
    assert Counts(4, 4);
    assert Counts(8, 8);
    assert Counts(12, 12);
    assert Counts(16, 16);
    assert Counts(20, 20);
    assert Counts(24, 24);
    assert Counts(28, 28);
  }

  lemma NothingLeft(w: bv32)
    ensures w >> 32 == 0
  {
  }

  lemma ValueFixes(v: bv32, w: bv32)
    requires Value(v) == Value(w)
    ensures v == w
  {
    hide Number, Fits, Counts;
    Amounts();
    NothingLeft(v);
    NothingLeft(w);
    ShiftedFits(v, 32, 32);
    ShiftedFits(w, 32, 32);
    NumberFixes(v, w, 32);
  }

  // Masks

  // m has ones in its low n places and nowhere else
  predicate IsMask(m: bv32, n: nat)
    decreases n
  {
    if n == 0 then m == 0 else Low(m) == 1 && IsMask(m >> 1, n - 1)
  }

  lemma MaskStep(m: bv32, n: nat)
    ensures IsMask(m, n) <==> if n == 0 then m == 0 else Low(m) == 1 && IsMask(m >> 1, n - 1)
  {
  }

  lemma AndHalves(u: bv32, v: bv32, w: bv32)
    requires u == v & w
    ensures u >> 1 == (v >> 1) & (w >> 1)
  {
  }

  lemma LowOfAnd(v: bv32, w: bv32)
    ensures Low(v & w) == if Low(v) == 1 && Low(w) == 1 then 1 else 0
  {
  }

  lemma OrHalves(u: bv32, v: bv32, w: bv32)
    requires u == v | w
    ensures u >> 1 == (v >> 1) | (w >> 1)
  {
  }

  lemma XorHalves(u: bv32, v: bv32, w: bv32)
    requires u == v ^ w
    ensures u >> 1 == (v >> 1) ^ (w >> 1)
  {
  }

  lemma {:induction false} ZeroNumber(w: bv32, n: nat)
    requires w == 0
    ensures Number(w, n) == 0
    decreases n
  {
    if n > 0 {
      ZeroNumber(w >> 1, n - 1);
    }
  }

  lemma AndNone(w: bv32, m: bv32)
    requires m == 0
    ensures w & m == 0
  {
  }

  lemma {:induction false} Masked(w: bv32, m: bv32, n: nat, k: nat)
    requires IsMask(m, n) && n <= k
    ensures Number(w & m, k) == Number(w, n)
    decreases k
  {
    hide *;
    MaskStep(m, n);
    if n == 0 {
      AndNone(w, m);
      ZeroNumber(w & m, k);
      NoNumber(w);
    } else {
      AndHalves(w & m, w, m);
      LowOfAnd(w, m);
      NumberStep(w & m, k);
      NumberStep(w, n);
      Masked(w >> 1, m >> 1, n - 1, k - 1);
    }
  }

  // The low n bits are what the division by 2^n leaves
  lemma {:induction false} LowNumber(w: bv32, n: nat, k: nat)
    ensures exists q: nat :: Number(w, n + k) == Number(w, n) + Pow2(n) * q
    decreases n
  {
    hide *;
    if n == 0 {
      NoNumber(w);
      PowZero();
      assert Number(w, n + k) == Number(w, n) + Pow2(n) * Number(w, k);
    } else {
      NumberStep(w, n);
      NumberStep(w, n + k);
      DoublePow2(n);
      LowNumber(w >> 1, n - 1, k);
      assert (n + k) - 1 == (n - 1) + k;
      var q: nat :| Number(w >> 1, n - 1 + k) == Number(w >> 1, n - 1) + Pow2(n - 1) * q;
      Twice(Pow2(n - 1), q);
      assert Number(w, n + k) == Number(w, n) + Pow2(n) * q;
    }
  }

  lemma Masks()
    ensures IsMask(1, 1) && IsMask(3, 2) && IsMask(7, 3) && IsMask(0xf, 4) && IsMask(0x1f, 5) && IsMask(0x3f, 6)
    ensures IsMask(0x7f, 7) && IsMask(0xff, 8) && IsMask(0x3ff, 10) && IsMask(0xfff, 12)
    ensures IsMask(0x7fff_ffff, 31)
  {
    assert IsMask(0x7, 3);
    assert IsMask(0x7f, 7);
    assert IsMask(0x7ff, 11);
    assert IsMask(0x7fff, 15);
    assert IsMask(0x7_ffff, 19);
    assert IsMask(0x7f_ffff, 23);
    assert IsMask(0x7ff_ffff, 27);
  }

  // Fields

  lemma {:induction false} FitsNumber(w: bv32, n: nat, k: nat)
    requires Fits(w, n)
    ensures Number(w, n + k) == Number(w, n)
    decreases n
  {
    hide *;
    FitsStep(w, n);
    if n == 0 {
      ZeroNumber(w, n + k);
      ZeroNumber(w, n);
    } else {
      NumberStep(w, n);
      NumberStep(w, n + k);
      FitsNumber(w >> 1, n - 1, k);
      assert (n + k) - 1 == (n - 1) + k;
    }
  }

  lemma ShiftedValue(w: bv32, s: bv32, n: nat)
    requires s <= 32 && Counts(s, n)
    ensures Value(w >> s) == Value(w) / Pow2(n)
  {
    hide Number, Counts, Fits, Pow2;
    NumberSplit(w, s, n, 32);
    Amounts();
    NothingLeft(w);
    ShiftedFits(w, 32, 32);
    FitsNumber(w, 32, n);
    NumberInRange(w, n);
    DivMod(Value(w), Pow2(n), Value(w >> s), Number(w, n));
  }

  lemma MaskedValue(w: bv32, m: bv32, n: nat)
    requires IsMask(m, n) && n <= 32
    ensures Value(w & m) == Value(w) % Pow2(n)
  {
    hide Number, IsMask, Pow2;
    Masked(w, m, n, 32);
    LowNumber(w, n, 32 - n);
    NumberInRange(w, n);
    var q: nat :| Number(w, n + (32 - n)) == Number(w, n) + Pow2(n) * q;
    DivMod(Value(w), Pow2(n), q, Number(w, n));
  }

  // Sums

  predicate IsSum(p: bv32, a: bv32, b: bv32) { p == a + b }

  predicate IsNext(p: bv32, a: bv32) { p == a + 1 }

  predicate IsHalf(e: bv32, w: bv32) { e == w >> 1 }

  // p without its lowest bit, but for the highest bit of t
  predicate Above(p: bv32, t: bv32) { p >> 1 == t & 0x7fff_ffff }

  lemma {:induction false} MaskedLow(w: bv32, m: bv32, k: nat, n: nat)
    requires IsMask(m, k) && n <= k
    ensures Number(w & m, n) == Number(w, n)
    decreases n
  {
    hide *;
    MaskStep(m, k);
    if n == 0 {
      NoNumber(w & m);
      NoNumber(w);
    } else {
      AndHalves(w & m, w, m);
      LowOfAnd(w, m);
      NumberStep(w & m, n);
      NumberStep(w, n);
      MaskedLow(w >> 1, m >> 1, k - 1, n - 1);
    }
  }

  lemma LowerNumber(w: bv32, m: bv32, n: nat)
    requires n <= 31 && m == w & 0x7fff_ffff
    ensures Number(m, n) == Number(w, n)
  {
    hide *;
    Masks();
    MaskedLow(w, 0x7fff_ffff, 31, n);
  }

  // Two words

  lemma HalfOfSum(a: bv32, b: bv32, p: bv32, h: bv32, t: bv32)
    requires p == a + b && h == (a >> 1) + (b >> 1) && t == h + (a & b & 1)
    ensures (p ^ (t << 1)) & 0xffff_fffe == 0
  {
  }

  lemma SameAbove(p: bv32, t: bv32)
    requires (p ^ (t << 1)) & 0xffff_fffe == 0
    ensures p >> 1 == t & 0x7fff_ffff
  {
  }

  lemma HalvesOfSum(a: bv32, b: bv32, p: bv32) returns (h: bv32, t: bv32)
    requires p == a + b
    ensures h == (a >> 1) + (b >> 1) && t == h + (a & b & 1) && p >> 1 == t & 0x7fff_ffff
  {
    h := (a >> 1) + (b >> 1);
    t := h + (a & b & 1);
    HalfOfSum(a, b, p, h, t);
    SameAbove(p, t);
  }

  predicate IsCarried(t: bv32, h: bv32, a: bv32, b: bv32) { t == h + (a & b & 1) }

  lemma CarryOfSum(a: bv32, b: bv32, p: bv32, h: bv32, t: bv32)
    requires p == a + b && t == h + (a & b & 1) && a & 1 == 1 && b & 1 == 1
    ensures p & 1 == 0 && t == h + 1
  {
  }

  lemma NoCarryOfSum(a: bv32, b: bv32, p: bv32, h: bv32, t: bv32)
    requires p == a + b && t == h + (a & b & 1) && (a & 1 == 0 || b & 1 == 0)
    ensures t == h && p & 1 == (a & 1) | (b & 1)
  {
  }

  lemma SumHalves(a: bv32, b: bv32, p: bv32) returns (e: bv32, f: bv32, h: bv32, t: bv32)
    requires IsSum(p, a, b)
    ensures IsSum(h, e, f) && IsHalf(e, a) && IsHalf(f, b) && Above(p, t) && IsCarried(t, h, a, b)
  {
    h, t := HalvesOfSum(a, b, p);
    e, f := a >> 1, b >> 1;
  }

  lemma Carries(a: bv32, b: bv32, p: bv32, h: bv32, t: bv32) returns (d: nat)
    requires IsSum(p, a, b) && IsCarried(t, h, a, b)
    ensures Low(a) + Low(b) == Low(p) + 2 * d && d <= 1
    ensures if d == 1 then IsNext(t, h) else t == h
  {
    if Low(a) == 1 && Low(b) == 1 {
      CarryOfSum(a, b, p, h, t);
      d := 1;
    } else {
      NoCarryOfSum(a, b, p, h, t);
      d := 0;
    }
  }

  function Times(p: nat, q: nat): nat { p * q }

  // One more
  lemma NumberOfHalf(e: bv32, w: bv32, n: nat)
    requires IsHalf(e, w) && n > 0
    ensures Number(w, n) == Low(w) + 2 * Number(e, n - 1)
  {
    NumberStep(w, n);
    hide Number, Low;
  }

  lemma NumberAbove(p: bv32, t: bv32, n: nat)
    requires Above(p, t) && 0 < n <= 32
    ensures Number(p, n) == Low(p) + 2 * Number(t, n - 1)
  {
    hide Number, Low;
    NumberStep(p, n);
    LowerNumber(t, p >> 1, n - 1);
  }

  lemma NextBits(w: bv32, p: bv32) returns (h: bv32, t: bv32, d: nat)
    requires IsNext(p, w)
    ensures IsHalf(h, w) && Above(p, t)
    ensures Low(w) + 1 == Low(p) + 2 * d && d <= 1 && if d == 1 then IsNext(t, h) else t == h
  {
    hide *;
    NextIsSum(w, p);
    var e, f;
    e, f, h, t := SumHalves(w, 1, p);
    d := Carries(w, 1, p, h, t);
    HalfNext(w, e, f, h);
  }

  lemma {:induction false} NextNumber(w: bv32, p: bv32, n: nat) returns (q: nat)
    requires IsNext(p, w) && n <= 32
    ensures Number(p, n) + Times(Pow2(n), q) == Number(w, n) + 1
    decreases n
  {
    hide *;
    if n == 0 {
      NoNumber(w);
      NoNumber(p);
      PowZero();
      q := 1;
      NoTimes(q);
    } else {
      NoTimes(Pow2(n - 1));
      var h, t, d := NextBits(w, p);
      NumberOfHalf(h, w, n);
      NumberAbove(p, t, n);
      q := 0;
      if d == 1 {
        q := NextNumber(h, t, n - 1);
      }
      DoublePow2(n);
      SumStep(Pow2(n), Pow2(n - 1), q, 0, q, d, Number(p, n), Number(w, n), 1, Number(h, n - 1), Number(h, n - 1), 0,
              Number(t, n - 1), Low(p), Low(w), 1);
    }
  }

  lemma NextIsSum(w: bv32, p: bv32)
    requires IsNext(p, w)
    ensures IsSum(p, w, 1)
  {
  }

  lemma HalfNext(w: bv32, e: bv32, f: bv32, h: bv32)
    requires IsHalf(e, w) && IsHalf(f, 1) && IsSum(h, e, f)
    ensures IsHalf(h, w) && Low(1) == 1
  {
  }

  // The columns of a sum, the lowest and the others
  lemma SumStep(pp: nat, p: nat, q: nat, i: nat, j: nat, d: nat, s: nat, a: nat, b: nat, sh: nat, ah: nat, bh: nat,
                th: nat, sl: nat, al: nat, bl: nat)
    requires pp == 2 * p && q == i + j && al + bl == sl + 2 * d
    requires s == sl + 2 * th && a == al + 2 * ah && b == bl + 2 * bh
    requires sh + Times(p, i) == ah + bh && th + Times(p, j) == sh + d
    ensures s + Times(pp, q) == a + b
  {
    assert (2 * p) * (i + j) == 2 * (p * i) + 2 * (p * j);
  }

  function Carry(a: bv32, b: bv32): nat { if Low(a) == 1 && Low(b) == 1 then 1 else 0 }

  lemma LowOfSum(a: bv32, b: bv32, p: bv32)
    requires IsSum(p, a, b)
    ensures Low(a) + Low(b) == Low(p) + 2 * Carry(a, b)
  {
    var t := 0 + (a & b & 1);
    var d := Carries(a, b, p, 0, t);
    hide IsSum, IsNext;
  }

  lemma CarriedNumber(a: bv32, b: bv32, h: bv32, t: bv32, n: nat) returns (j: nat)
    requires IsCarried(t, h, a, b) && n <= 32
    ensures Number(t, n) + Times(Pow2(n), j) == Number(h, n) + Carry(a, b)
  {
    hide Number, Times, Pow2, IsNext, IsSum, Low;
    var p := a + b;
    assert IsSum(p, a, b) by {
      IsSumOf(a, b);
    }
    var d := Carries(a, b, p, h, t);
    LowOfSum(a, b, p);
    j := 0;
    if d == 1 {
      j := NextNumber(h, t, n);
    } else {
      NoTimes(Pow2(n));
    }
  }

  lemma IsSumOf(a: bv32, b: bv32)
    ensures IsSum(a + b, a, b)
  {
  }

  lemma SumFrom(a: bv32, b: bv32, p: bv32, e: bv32, f: bv32, t: bv32, n: nat, i: nat, j: nat, x: nat)
    requires IsSum(p, a, b) && IsHalf(e, a) && IsHalf(f, b) && Above(p, t) && 0 < n <= 32
    requires x + Times(Pow2(n - 1), i) == Number(e, n - 1) + Number(f, n - 1)
    requires Number(t, n - 1) + Times(Pow2(n - 1), j) == x + Carry(a, b)
    ensures Number(p, n) + Times(Pow2(n), i + j) == Number(a, n) + Number(b, n)
  {
    hide *;
    LowOfSum(a, b, p);
    NumberOfHalf(e, a, n);
    NumberOfHalf(f, b, n);
    NumberAbove(p, t, n);
    DoublePow2(n);
    SumStep(Pow2(n), Pow2(n - 1), i + j, i, j, Carry(a, b), Number(p, n), Number(a, n), Number(b, n), x,
            Number(e, n - 1), Number(f, n - 1), Number(t, n - 1), Low(p), Low(a), Low(b));
  }

  lemma {:induction false} SumNumber(a: bv32, b: bv32, p: bv32, n: nat) returns (q: nat)
    requires IsSum(p, a, b) && n <= 32
    ensures Number(p, n) + Times(Pow2(n), q) == Number(a, n) + Number(b, n)
    decreases n
  {
    hide *;
    if n == 0 {
      NoNumber(a);
      NoNumber(b);
      NoNumber(p);
      PowZero();
      q := 0;
      NoTimes(q);
    } else {
      var e, f, h, t := SumHalves(a, b, p);
      var i := SumNumber(e, f, h, n - 1);
      var j := CarriedNumber(a, b, h, t, n - 1);
      SumFrom(a, b, p, e, f, t, n, i, j, Number(h, n - 1));
      q := i + j;
    }
  }

  lemma SumIsModular(a: bv32, b: bv32, p: bv32)
    requires IsSum(p, a, b)
    ensures Value(p) == Value(a) + Value(b) || Value(p) == Value(a) + Value(b) - 0x1_0000_0000
  {
    hide Number, IsSum, Pow2;
    var q := SumNumber(a, b, p, 32);
    assert Times(Pow2(32), q) == Pow2(32) * q;
    Pow2Values();
  }

  predicate IsDifference(d: bv32, a: bv32, b: bv32) { d == a - b }

  lemma DifferenceIsSum(a: bv32, b: bv32, d: bv32)
    requires d == a - b
    ensures IsSum(a, d, b)
  {
  }

  lemma DifferenceAndSum(a: bv32, b: bv32, d: bv32)
    requires IsDifference(d, a, b)
    ensures IsSum(a, d, b)
  {
    DifferenceIsSum(a, b, d);
  }

  lemma DifferenceIsModular(a: bv32, b: bv32, d: bv32)
    requires IsDifference(d, a, b)
    ensures Value(d) == Value(a) - Value(b) || Value(d) == Value(a) - Value(b) + 0x1_0000_0000
  {
    hide *;
    DifferenceAndSum(a, b, d);
    SumIsModular(d, b, a);
  }

  lemma NextOfAll()
    ensures 0xffff_ffff as bv32 + 1 == 0
  {
  }

  lemma AllOnes(w: bv32)
    requires w == 0xffff_ffff
    ensures Value(w) == 0xffff_ffff
  {
    hide Value, IsSum;
    NextOfAll();
    assert IsSum(0, 0xffff_ffff, 1) by {
      IsSumOf(0xffff_ffff, 1);
    }
    SumIsModular(0xffff_ffff, 1, 0);
    Constants();
  }

  predicate IsNot(w: bv32, v: bv32) { w == !v }

  lemma SumWithNot(v: bv32, w: bv32, a: bv32)
    requires w == !v && a == 0xffff_ffff
    ensures w + v == a
  {
  }

  lemma NotAndSum(v: bv32, w: bv32, a: bv32)
    requires IsNot(w, v) && a == 0xffff_ffff
    ensures IsSum(a, w, v)
  {
    SumWithNot(v, w, a);
  }

  lemma NotValue(v: bv32, w: bv32)
    requires IsNot(w, v)
    ensures Value(w) == 0xffff_ffff - Value(v)
  {
    hide *;
    var a := 0xffff_ffff;
    NotAndSum(v, w, a);
    AllOnes(a);
    SumIsModular(w, v, a);
  }

  // Disjoint words

  predicate IsJoin(u: bv32, v: bv32, w: bv32) { u == v | w && v & w == 0 }

  lemma IsJoinOf(v: bv32, w: bv32)
    requires v & w == 0
    ensures IsJoin(v | w, v, w)
  {
  }

  lemma JoinHalves(u: bv32, v: bv32, w: bv32) returns (d: bv32, e: bv32, f: bv32)
    requires IsJoin(u, v, w)
    ensures IsHalf(d, u) && IsHalf(e, v) && IsHalf(f, w) && IsJoin(d, e, f)
  {
    d, e, f := u >> 1, v >> 1, w >> 1;
  }

  lemma JoinLow(u: bv32, v: bv32, w: bv32)
    requires IsJoin(u, v, w)
    ensures Low(u) == Low(v) + Low(w)
  {
  }

  lemma {:induction false} JoinNumber(u: bv32, v: bv32, w: bv32, n: nat)
    requires IsJoin(u, v, w)
    ensures Number(u, n) == Number(v, n) + Number(w, n)
    decreases n
  {
    hide *;
    if n == 0 {
      NoNumber(u);
      NoNumber(v);
      NoNumber(w);
    } else {
      var d, e, f := JoinHalves(u, v, w);
      JoinLow(u, v, w);
      NumberOfHalf(d, u, n);
      NumberOfHalf(e, v, n);
      NumberOfHalf(f, w, n);
      JoinNumber(d, e, f, n - 1);
    }
  }

  lemma JoinValue(u: bv32, v: bv32, w: bv32)
    requires IsJoin(u, v, w)
    ensures Value(u) == Value(v) + Value(w)
  {
    hide Number, IsJoin;
    JoinNumber(u, v, w, 32);
  }

  // Shifts up

  predicate IsUp(u: bv32, v: bv32, s: bv32)
  {
    s <= 31 && u == v << s
  }

  lemma ShiftUpStep(v: bv32, s: bv32)
    requires 0 < s <= 31
    ensures v << s == (v + v) << (s - 1)
  {
  }

  lemma UpStep(u: bv32, v: bv32, s: bv32) returns (d: bv32)
    requires IsUp(u, v, s) && s != 0
    ensures IsSum(d, v, v) && IsUp(u, d, s - 1)
  {
    d := v + v;
    ShiftUpStep(v, s);
  }

  lemma IsUpOf(u: bv32, v: bv32, s: bv32)
    requires s <= 31 && u == v << s
    ensures IsUp(u, v, s)
  {
  }

  lemma UpNone(u: bv32, v: bv32)
    requires IsUp(u, v, 0)
    ensures u == v
  {
  }

  // v shifted up keeps what is below 2^32
  lemma {:induction false} UpIs(u: bv32, v: bv32, s: bv32, n: nat) returns (q: nat)
    requires IsUp(u, v, s) && Counts(s, n)
    ensures Value(u) + 0x1_0000_0000 * q == Times(Value(v), Pow2(n))
    decreases n
  {
    hide *;
    CountsStep(s, n);
    if n == 0 {
      UpNone(u, v);
      PowZero();
      NoTimes(Value(v));
      q := 0;
    } else {
      var d := UpStep(u, v, s);
      SumIsModular(v, v, d);
      var c := if Value(d) == 2 * Value(v) then 0 else 1;
      var r := UpIs(u, d, s - 1, n - 1);
      DoublePow2(n);
      q := r + Times(c, Pow2(n - 1));
      TimesStep(Value(v), Value(d), c, Pow2(n - 1), Pow2(n));
    }
  }

  lemma UpValue(u: bv32, v: bv32, s: bv32, n: nat, p: nat)
    requires IsUp(u, v, s) && Counts(s, n) && p == Pow2(n) && Value(v) * p < 0x1_0000_0000
    ensures Value(u) == Value(v) * p
  {
    hide Value, Pow2, Counts, IsUp;
    var q := UpIs(u, v, s, n);
  }

  lemma TimesStep(x: nat, y: nat, c: nat, p: nat, pp: nat)
    requires y + 0x1_0000_0000 * c == 2 * x && pp == 2 * p
    ensures Times(y, p) + 0x1_0000_0000 * Times(c, p) == Times(x, pp)
  {
    assert (2 * x) * p == (y + 0x1_0000_0000 * c) * p;
  }

  // Bitwise operations

  lemma Column(p: nat, a: nat, x: nat)
    requires a <= 1 && p == a + 2 * x
    ensures p / 2 == x && p % 2 == a
  {
  }

  lemma AndColumns(p: nat, q: nat, r: nat, a: nat, b: nat, c: nat, x: nat, y: nat, z: nat, n: nat)
    requires a <= 1 && b <= 1 && n > 0 && p == a + 2 * x && q == b + 2 * y && r == c + 2 * z
    requires c == (if a == 1 && b == 1 then 1 else 0) && z == And(x, y, n - 1)
    ensures r == And(p, q, n)
  {
    Column(p, a, x);
    Column(q, b, y);
  }

  lemma OrColumns(p: nat, q: nat, r: nat, a: nat, b: nat, c: nat, x: nat, y: nat, z: nat, n: nat)
    requires a <= 1 && b <= 1 && n > 0 && p == a + 2 * x && q == b + 2 * y && r == c + 2 * z
    requires c == (if a == 1 || b == 1 then 1 else 0) && z == Or(x, y, n - 1)
    ensures r == Or(p, q, n)
  {
    Column(p, a, x);
    Column(q, b, y);
  }

  lemma XorColumns(p: nat, q: nat, r: nat, a: nat, b: nat, c: nat, x: nat, y: nat, z: nat, n: nat)
    requires a <= 1 && b <= 1 && n > 0 && p == a + 2 * x && q == b + 2 * y && r == c + 2 * z
    requires c == (if a != b then 1 else 0) && z == Xor(x, y, n - 1)
    ensures r == Xor(p, q, n)
  {
    hide Xor;
    Column(p, a, x);
    Column(q, b, y);
    XorStep(p, q, n);
    OddSum(p, q);
  }

  lemma NoColumns(x: nat, y: nat)
    ensures And(x, y, 0) == 0 && Or(x, y, 0) == 0 && Xor(x, y, 0) == 0
  {
  }

  predicate IsAnd(u: bv32, v: bv32, w: bv32) { u == v & w }

  lemma AndParts(u: bv32, v: bv32, w: bv32) returns (d: bv32, e: bv32, f: bv32)
    requires IsAnd(u, v, w)
    ensures IsHalf(d, u) && IsHalf(e, v) && IsHalf(f, w) && IsAnd(d, e, f)
  {
    d, e, f := u >> 1, v >> 1, w >> 1;
    AndHalves(u, v, w);
  }

  lemma AndLow(u: bv32, v: bv32, w: bv32)
    requires IsAnd(u, v, w)
    ensures Low(u) == if Low(v) == 1 && Low(w) == 1 then 1 else 0
  {
  }

  lemma {:induction false} AndNumber(u: bv32, v: bv32, w: bv32, n: nat)
    requires IsAnd(u, v, w)
    ensures Number(u, n) == And(Number(v, n), Number(w, n), n)
    decreases n
  {
    hide *;
    if n == 0 {
      NoNumber(u);
      NoColumns(Number(v, 0), Number(w, 0));
    } else {
      var d, e, f := AndParts(u, v, w);
      AndLow(u, v, w);
      LowIs(v);
      LowIs(w);
      NumberOfHalf(d, u, n);
      NumberOfHalf(e, v, n);
      NumberOfHalf(f, w, n);
      AndNumber(d, e, f, n - 1);
      AndColumns(Number(v, n), Number(w, n), Number(u, n), Low(v), Low(w), Low(u),
                 Number(e, n - 1), Number(f, n - 1), Number(d, n - 1), n);
    }
  }

  lemma AndValue(u: bv32, v: bv32, w: bv32)
    requires IsAnd(u, v, w)
    ensures Value(u) == And(Value(v), Value(w), 32)
  {
    hide Number, And, IsAnd;
    AndNumber(u, v, w, 32);
  }

  predicate IsOr(u: bv32, v: bv32, w: bv32) { u == v | w }

  lemma OrParts(u: bv32, v: bv32, w: bv32) returns (d: bv32, e: bv32, f: bv32)
    requires IsOr(u, v, w)
    ensures IsHalf(d, u) && IsHalf(e, v) && IsHalf(f, w) && IsOr(d, e, f)
  {
    d, e, f := u >> 1, v >> 1, w >> 1;
    OrHalves(u, v, w);
  }

  lemma OrLow(u: bv32, v: bv32, w: bv32)
    requires IsOr(u, v, w)
    ensures Low(u) == if Low(v) == 1 || Low(w) == 1 then 1 else 0
  {
  }

  lemma {:induction false} OrNumber(u: bv32, v: bv32, w: bv32, n: nat)
    requires IsOr(u, v, w)
    ensures Number(u, n) == Or(Number(v, n), Number(w, n), n)
    decreases n
  {
    hide *;
    if n == 0 {
      NoNumber(u);
      NoColumns(Number(v, 0), Number(w, 0));
    } else {
      var d, e, f := OrParts(u, v, w);
      OrLow(u, v, w);
      LowIs(v);
      LowIs(w);
      NumberOfHalf(d, u, n);
      NumberOfHalf(e, v, n);
      NumberOfHalf(f, w, n);
      OrNumber(d, e, f, n - 1);
      OrColumns(Number(v, n), Number(w, n), Number(u, n), Low(v), Low(w), Low(u),
                 Number(e, n - 1), Number(f, n - 1), Number(d, n - 1), n);
    }
  }

  lemma OrValue(u: bv32, v: bv32, w: bv32)
    requires IsOr(u, v, w)
    ensures Value(u) == Or(Value(v), Value(w), 32)
  {
    hide Number, Or, IsOr;
    OrNumber(u, v, w, 32);
  }

  predicate IsXor(u: bv32, v: bv32, w: bv32) { u == v ^ w }

  lemma XorParts(u: bv32, v: bv32, w: bv32) returns (d: bv32, e: bv32, f: bv32)
    requires IsXor(u, v, w)
    ensures IsHalf(d, u) && IsHalf(e, v) && IsHalf(f, w) && IsXor(d, e, f)
  {
    d, e, f := u >> 1, v >> 1, w >> 1;
    XorHalves(u, v, w);
  }

  lemma XorLow(u: bv32, v: bv32, w: bv32)
    requires IsXor(u, v, w)
    ensures Low(u) == if Low(v) != Low(w) then 1 else 0
  {
  }

  lemma {:induction false} XorNumber(u: bv32, v: bv32, w: bv32, n: nat)
    requires IsXor(u, v, w)
    ensures Number(u, n) == Xor(Number(v, n), Number(w, n), n)
    decreases n
  {
    hide *;
    if n == 0 {
      NoNumber(u);
      NoColumns(Number(v, 0), Number(w, 0));
    } else {
      var d, e, f := XorParts(u, v, w);
      XorLow(u, v, w);
      LowIs(v);
      LowIs(w);
      NumberOfHalf(d, u, n);
      NumberOfHalf(e, v, n);
      NumberOfHalf(f, w, n);
      XorNumber(d, e, f, n - 1);
      XorColumns(Number(v, n), Number(w, n), Number(u, n), Low(v), Low(w), Low(u),
                 Number(e, n - 1), Number(f, n - 1), Number(d, n - 1), n);
    }
  }

  lemma XorValue(u: bv32, v: bv32, w: bv32)
    requires IsXor(u, v, w)
    ensures Value(u) == Xor(Value(v), Value(w), 32)
  {
    hide Number, Xor, IsXor;
    XorNumber(u, v, w, 32);
  }

  // Values of constants

  lemma SmallMask(w: bv32)
    requires w <= 0x7f
    ensures w & 0x7f == w
  {
  }

  lemma SmallValue(w: bv32)
    requires w <= 0x7f
    ensures Value(w) == Number(w, 7)
  {
    hide Number, IsMask;
    Masks();
    SmallMask(w);
    Masked(w, 0x7f, 7, 32);
  }

  lemma Constants()
    ensures Value(0) == 0 && Value(1) == 1 && Value(2) == 2 && Value(4) == 4 && Value(5) == 5 && Value(6) == 6
    ensures Value(7) == 7 && Value(0x20) == 0x20
  {
    hide Value;
    SmallValue(0);
    SmallValue(1);
    SmallValue(2);
    SmallValue(4);
    SmallValue(5);
    SmallValue(6);
    SmallValue(7);
    SmallValue(0x20);
  }

  lemma Opcodes()
    ensures Value(0x13) == 0x13 && Value(0x33) == 0x33 && Value(0x37) == 0x37 && Value(0x03) == 0x03
    ensures Value(0x23) == 0x23 && Value(0x6f) == 0x6f && Value(0x67) == 0x67 && Value(0x63) == 0x63
    ensures Value(0x73) == 0x73
  {
    hide Value;
    SmallValue(0x13);
    SmallValue(0x33);
    SmallValue(0x37);
    SmallValue(0x03);
    SmallValue(0x23);
    SmallValue(0x6f);
    SmallValue(0x67);
    SmallValue(0x63);
    SmallValue(0x73);
  }

  lemma ZeroValue(w: bv32)
    ensures Value(w) == 0 <==> w == 0
  {
    hide Value;
    Constants();
    if Value(w) == 0 {
      ValueFixes(w, 0);
    }
  }

  // A word for every number

  function Appended(v: bv32, odd: bool): bv32 { (v << 1) | if odd then 1 else 0 }

  function Of(x: nat, n: nat): bv32 {
    if n == 0 then 0 else Appended(Of(x / 2, n - 1), x % 2 == 1)
  }

  lemma AppendedIs(v: bv32, odd: bool)
    ensures Low(Appended(v, odd)) == (if odd then 1 else 0) && Above(Appended(v, odd), v)
  {
  }

  lemma OfIs(x: nat, n: nat)
    requires n > 0
    ensures Of(x, n) == Appended(Of(x / 2, n - 1), x % 2 == 1)
  {
  }

  lemma {:induction false} OfNumber(x: nat, n: nat)
    requires x < Pow2(n) && n <= 32
    ensures Number(Of(x, n), n) == x
  {
    hide *;
    if n == 0 {
      PowZero();
      NoNumber(Of(x, n));
    } else {
      DoublePow2(n);
      OfIs(x, n);
      AppendedIs(Of(x / 2, n - 1), x % 2 == 1);
      NumberAbove(Of(x, n), Of(x / 2, n - 1), n);
      OfNumber(x / 2, n - 1);
    }
  }

  lemma OfValue(x: U32)
    ensures Value(Of(x, 32)) == x
  {
    hide Number, Of, Pow2;
    Pow2Values();
    OfNumber(x, 32);
  }
}
