// The effect that an instruction has on words is the one that the machine of tools/rvsim.c has on
// numbers.
module RvEffects {
  import opened Binary
  import I = Instructions
  import opened MachineInts
  import M = RvMachine
  import opened MultiplyDivide
  import opened Options
  import opened Powers
  import RvAccess
  import RvMeaning
  import opened RvSteps
  import RvWords
  import opened Words

  // The operations

  lemma Modular(x: int, v: nat, k: int)
    requires v < 0x1_0000_0000 && v == x + 0x1_0000_0000 * k
    ensures v == Natural(Wrap(x))
  {
  }

  lemma SumIs(v: bv32, u: bv32, p: bv32, a: Int32, b: Int32)
    requires Value(v) == Natural(a) && Value(u) == Natural(b) && IsSum(p, v, u)
    ensures Value(p) == Natural(Wrap(a + b))
  {
    hide Value, IsSum, Wrap;
    SumIsModular(v, u, p);
    var k := (if a < 0 then 1 else 0) + (if b < 0 then 1 else 0)
             - (if Value(p) == Value(v) + Value(u) then 0 else 1);
    Modular(a + b, Value(p), k);
  }

  lemma IsDifferenceOf(a: bv32, b: bv32)
    ensures IsDifference(a - b, a, b)
  {
  }

  lemma DifferenceIs(v: bv32, u: bv32, d: bv32, a: Int32, b: Int32)
    requires Value(v) == Natural(a) && Value(u) == Natural(b) && IsDifference(d, v, u)
    ensures Value(d) == Natural(Wrap(a as int - b as int))
  {
    hide Value, IsDifference, Wrap;
    DifferenceIsModular(v, u, d);
    var k := (if a < 0 then 1 else 0) - (if b < 0 then 1 else 0)
             + (if Value(d) == Value(v) - Value(u) then 0 else 1);
    Modular(a as int - b as int, Value(d), k);
  }

  lemma XorIs(v: bv32, u: bv32, p: bv32, a: Int32, b: Int32)
    requires Value(v) == Natural(a) && Value(u) == Natural(b) && IsXor(p, v, u)
    ensures Value(p) == Natural(M.Basic(4, false, a, b))
  {
    hide Value, IsXor, Wrap, Xor, Natural;
    XorValue(p, v, u);
    NaturalIs(a);
    NaturalIs(b);
    Modular(Xor(Value(v), Value(u), 32), Value(p), 0);
  }

  lemma OrIs(v: bv32, u: bv32, p: bv32, a: Int32, b: Int32)
    requires Value(v) == Natural(a) && Value(u) == Natural(b) && IsOr(p, v, u)
    ensures Value(p) == Natural(M.Basic(6, false, a, b))
  {
    hide Value, IsOr, Wrap, Or, Natural;
    OrValue(p, v, u);
    NaturalIs(a);
    NaturalIs(b);
    Modular(Or(Value(v), Value(u), 32), Value(p), 0);
  }

  lemma AndIs(v: bv32, u: bv32, p: bv32, a: Int32, b: Int32, arithmetic: bool)
    requires Value(v) == Natural(a) && Value(u) == Natural(b) && IsAnd(p, v, u)
    ensures Value(p) == Natural(M.Basic(7, arithmetic, a, b))
  {
    hide Value, IsAnd, Wrap, And, Natural;
    AndValue(p, v, u);
    NaturalIs(a);
    NaturalIs(b);
    Modular(And(Value(v), Value(u), 32), Value(p), 0);
  }

  // Shift amounts

  lemma OneLess(s: bv32)
    requires s != 0
    ensures Value(s - 1) == Value(s) - 1
  {
    hide Value, IsDifference;
    IsDifferenceOf(s, 1);
    DifferenceIsModular(s, 1, s - 1);
    Constants();
    ZeroValue(s);
  }

  lemma {:induction false} AmountCounts(s: bv32, n: nat)
    requires Value(s) == n
    ensures Counts(s, n)
    decreases n
  {
    hide Value, Counts;
    ZeroValue(s);
    CountsStep(s, n);
    if n > 0 {
      OneLess(s);
      AmountCounts(s - 1, n - 1);
    }
  }

  lemma ShiftUpIs(v: bv32, s: bv32, a: Int32, n: nat)
    requires Value(v) == Natural(a) && s < 32 && Value(s) == n
    ensures Value(I.Sll(v, s)) == Natural(M.Shl(a, n))
  {
    hide Value, IsUp, Wrap, Pow2, Natural, Counts;
    AmountCounts(s, n);
    IsUpOf(v << s, v, s);
    var q := UpIs(v << s, v, s, n);
    NaturalIs(a);
    var d: int := q;
    Modular(Natural(a) * Pow2(n), Value(v << s), -d);
  }

  lemma ShiftDownIs(v: bv32, s: bv32, a: Int32, n: nat)
    requires Value(v) == Natural(a) && s < 32 && Value(s) == n
    ensures Value(I.Srl(v, s)) == Natural(a) / Pow2(n) == Natural(M.Shr(a, n))
  {
    hide Value, Wrap, Pow2, Natural, Counts;
    AmountCounts(s, n);
    ShiftedValue(v, s, n);
    NaturalIs(a);
    Modular(Natural(a) / Pow2(n), Value(v >> s), 0);
  }

  lemma SignOf(v: bv32)
    ensures v & 0x80000000 != 0 <==> v >> 31 != 0
  {
  }

  lemma SignIs(v: bv32)
    ensures v & 0x80000000 != 0 <==> Value(v) >= 0x8000_0000
  {
    hide Value, Pow2, Counts;
    SignOf(v);
    Pow2Values();
    TopAmount();
    ShiftedValue(v, 31, 31);
    ZeroValue(v >> 31);
  }

  lemma TopAmount()
    ensures Counts(31, 31)
  {
    hide Counts;
    Amounts();
    CountsStep(32, 32);
  }

  lemma IsNotOf(v: bv32)
    ensures IsNot(!v, v)
  {
  }

  lemma ArithmeticShiftIs(v: bv32, s: bv32, a: Int32, n: nat)
    requires Value(v) == Natural(a) && s < 32 && Value(s) == n
    ensures Value(I.Sra(v, s)) == Natural(M.Sar(a, n))
  {
    hide Value, Wrap, Pow2, Counts, IsNot, I.Srl;
    SignIs(v);
    if a < 0 {
      var c: nat := -1 - (a as int);
      IsNotOf(v);
      NotValue(v, !v);
      ShiftDownIs(!v, s, c, n);
      var q := c / Pow2(n);
      IsNotOf(I.Srl(!v, s));
      NotValue(I.Srl(!v, s), !I.Srl(!v, s));
      RvMeaning.Negative(c, Pow2(n));
      Modular(-1 - q, Value(!I.Srl(!v, s)), 1);
    } else {
      ShiftDownIs(v, s, a, n);
      Modular(a / Pow2(n), Value(I.Srl(v, s)), 0);
    }
  }
}
