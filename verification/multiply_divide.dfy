// The multiplications and divisions of tools/rvsim.c on 32-bit registers.
module MultiplyDivide {
  import opened MachineInts

  const WORD := 0x1_0000_0000

  // (uint32_t)x and (int32_t)x
  function Unsigned(x: Int32): U32 { x % WORD }
  function Wrap(x: int): Int32 {
    if x % WORD < 0x8000_0000 then x % WORD else x % WORD - WORD
  }

  // The upper word of a 64-bit integer
  function Upper(x: int): Int32 { Wrap(x / WORD) }

  function Mul(a: Int32, b: Int32): Int32 { Wrap(a * b) }
  function Mulh(a: Int32, b: Int32): Int32 { Upper(a * b) }
  function Mulhsu(a: Int32, b: Int32): Int32 { Upper(a * Unsigned(b)) }
  function Mulhu(a: Int32, b: Int32): Int32 { Upper(Unsigned(a) * Unsigned(b)) }

  lemma WrapUnsigned(x: int)
    ensures Unsigned(Wrap(x)) == x % WORD
    ensures 0 <= x < WORD ==> Unsigned(Wrap(x)) == x
    ensures -0x8000_0000 <= x < 0x8000_0000 ==> Wrap(x) == x
  {
  }

  // Both words together are the whole number
  lemma Joined(x: int)
    ensures -0x8000_0000 * WORD <= x < 0x8000_0000 * WORD ==> Upper(x) * WORD + Unsigned(Wrap(x)) == x
    ensures 0 <= x < WORD * WORD ==> Unsigned(Upper(x)) * WORD + Unsigned(Wrap(x)) == x
  {
    hide Wrap, Unsigned;
    var q, r := x / WORD, x % WORD;
    assert x == q * WORD + r;
    WrapUnsigned(x);
    WrapUnsigned(q);
  }

  lemma Bounds(a: int, b: int, m: int, n: int)
    requires -m <= a <= m && -n <= b <= n
    ensures -(m * n) <= a * b <= m * n
  {
    Product(m - a, n - b);
    Product(m + a, n + b);
    Product(m - a, n + b);
    Product(m + a, n - b);
    assert (m - a) * (n - b) == m * n - m * b - a * n + a * b;
    assert (m + a) * (n + b) == m * n + m * b + a * n + a * b;
    assert (m - a) * (n + b) == m * n + m * b - a * n - a * b;
    assert (m + a) * (n - b) == m * n - m * b + a * n - a * b;
  }

  lemma Product(x: int, y: int)
    requires x >= 0 && y >= 0
    ensures x * y >= 0
  {
  }

  lemma WrapPlus(x: int, k: int)
    ensures Wrap(x + WORD * k) == Wrap(x)
  {
  }

  lemma MulhExact(a: Int32, b: Int32)
    ensures Mulh(a, b) * WORD + Unsigned(Mul(a, b)) == a * b
  {
    Bounds(a, b, 0x8000_0000, 0x8000_0000);
    Joined(a * b);
  }

  lemma MulhsuExact(a: Int32, b: Int32)
    ensures Mulhsu(a, b) * WORD + Unsigned(Mul(a, b)) == a * Unsigned(b)
  {
    Bounds(a, Unsigned(b), 0x8000_0000, 0xffff_ffff);
    Joined(a * Unsigned(b));
    SameLow(a, a, b);
  }

  lemma MulhuExact(a: Int32, b: Int32)
    ensures Unsigned(Mulhu(a, b)) * WORD + Unsigned(Mul(a, b)) == Unsigned(a) * Unsigned(b)
  {
    Bounds(Unsigned(a), Unsigned(b), 0xffff_ffff, 0xffff_ffff);
    Product(Unsigned(a), Unsigned(b));
    Joined(Unsigned(a) * Unsigned(b));
    SameLow(a, Unsigned(a), b);
  }

  // The lower word does not depend on signs
  lemma SameLow(a: Int32, a': int, b: Int32)
    requires a' == a || a' == Unsigned(a)
    ensures Wrap(a' * Unsigned(b)) == Wrap(a * b)
  {
    var i, j := (a' - a) / WORD, (Unsigned(b) - b) / WORD;
    assert a' == a + WORD * i && Unsigned(b) == b + WORD * j;
    Expanded(a, b, i, j);
    WrapPlus(a * b, i * b + a * j + WORD * (i * j));
  }

  lemma Expanded(a: int, b: int, i: int, j: int)
    ensures (a + WORD * i) * (b + WORD * j) == a * b + WORD * (i * b + a * j + WORD * (i * j))
  {
    var bb := b + WORD * j;
    assert (a + WORD * i) * bb == a * bb + WORD * i * bb;
    assert a * bb == a * b + a * (WORD * j);
    assert WORD * i * bb == WORD * (i * bb) && i * bb == i * b + i * (WORD * j);
    assert a * (WORD * j) == WORD * (a * j) && i * (WORD * j) == WORD * (i * j);
  }

  function AbsOf(x: int): nat { if x < 0 then -x else x }

  // The division of the source language truncates towards zero, on 64 bits
  function Quotient(a: int, b: int): int
    requires b != 0
  {
    if (a < 0) == (b < 0) then AbsOf(a) / AbsOf(b) else -(AbsOf(a) / AbsOf(b))
  }

  function Remainder(a: int, b: int): int
    requires b != 0
  {
    if a < 0 then -(AbsOf(a) % AbsOf(b)) else AbsOf(a) % AbsOf(b)
  }

  function Div(a: Int32, b: Int32): Int32 { if b != 0 then Wrap(Quotient(a, b)) else -1 }
  function Rem(a: Int32, b: Int32): Int32 { if b != 0 then Wrap(Remainder(a, b)) else a }
  function Divu(a: Int32, b: Int32): Int32 { if b != 0 then Wrap(Unsigned(a) / Unsigned(b)) else -1 }
  function Remu(a: Int32, b: Int32): Int32 { if b != 0 then Wrap(Unsigned(a) % Unsigned(b)) else a }

  // q and r are quotient and remainder of a by b, rounded towards zero
  ghost predicate Divides(a: int, b: int, q: int, r: int) {
    a == b * q + r && AbsOf(r) < AbsOf(b) && (r == 0 || (r < 0) == (a < 0))
  }

  lemma QuotientDivides(a: int, b: int)
    requires b != 0
    ensures Divides(a, b, Quotient(a, b), Remainder(a, b))
  {
    var m, n := AbsOf(a), AbsOf(b);
    NatDivision(m, n);
    FromAbs(a, b, m / n, m % n);
  }

  lemma NatDivision(m: nat, n: nat)
    requires n > 0
    ensures m / n >= 0 && m == n * (m / n) + m % n && m % n < n
  {
  }

  lemma FromAbs(a: int, b: int, q: nat, r: nat)
    requires AbsOf(a) == AbsOf(b) * q + r && r < AbsOf(b)
    ensures Divides(a, b, if (a < 0) == (b < 0) then q else -(q as int), if a < 0 then -(r as int) else r)
  {
    Signs(AbsOf(b), q);
  }

  lemma Signs(n: int, q: int)
    ensures (-n) * q == -(n * q) && n * (-q) == -(n * q) && (-n) * (-q) == n * q
  {
  }

  lemma DivisionIsUnique(a: int, b: int, q: int, r: int, q': int, r': int)
    requires Divides(a, b, q, r) && Divides(a, b, q', r')
    ensures q == q' && r == r'
  {
    assert b * (q - q') == r' - r by {
      assert b * (q - q') == b * q - b * q';
    }
    Far(b, q - q');
  }

  lemma Far(b: int, d: int)
    ensures d != 0 ==> AbsOf(b * d) >= AbsOf(b)
  {
    if d >= 1 {
      Product(AbsOf(b), d - 1);
      assert AbsOf(b) * (d - 1) == AbsOf(b) * d - AbsOf(b);
      Signs(b, d);
    } else if d <= -1 {
      Product(AbsOf(b), -d - 1);
      assert AbsOf(b) * (-d - 1) == AbsOf(b) * (-d) - AbsOf(b);
      Signs(b, d);
      Signs(b, -d);
    }
  }

  // Division of registers: exact but for a zero divisor and for the quotient that does not fit,
  // where dividend and remainder still agree modulo 2^32
  lemma DivRem(a: Int32, b: Int32)
    ensures b != 0 && !(a == -0x8000_0000 && b == -1) ==> Divides(a, b, Div(a, b), Rem(a, b))
    ensures a == -0x8000_0000 && b == -1 ==> Div(a, b) == a && Rem(a, b) == 0
    ensures b == 0 ==> Div(a, b) == -1 && Rem(a, b) == a
  {
    if b != 0 {
      QuotientDivides(a, b);
      QuotientBound(a, b);
      var q, r := Quotient(a, b), Remainder(a, b);
      WrapIn(q);
      WrapIn(r);
      assert Div(a, b) == Wrap(q) && Rem(a, b) == Wrap(r);
      hide Quotient, Remainder, Divides, Div, Rem, Wrap;
      if a == -0x8000_0000 && b == -1 {
        Overflow(a, b, q, r);
      }
    }
  }

  lemma WrapIn(x: int)
    ensures -0x8000_0000 <= x < 0x8000_0000 ==> Wrap(x) == x
    ensures x == 0x8000_0000 ==> Wrap(x) == -0x8000_0000
  {
  }

  lemma Overflow(a: int, b: int, q: int, r: int)
    requires a == -0x8000_0000 && b == -1 && Divides(a, b, q, r)
    ensures q == 0x8000_0000 && r == 0
  {
  }

  lemma DivRemModulo(a: Int32, b: Int32)
    ensures Wrap(b * Div(a, b) + Rem(a, b)) == a
  {
    DivRem(a, b);
    var q, r: int := Div(a, b), Rem(a, b);
    WrapIn(a);
    if b == 0 {
      assert b * q == 0;
    } else if a == -0x8000_0000 && b == -1 {
      assert b * q + r == 0x8000_0000;
      WrapIn(0x8000_0000);
    } else {
      assert a == b * q + r;
    }
  }

  lemma QuotientBound(a: Int32, b: Int32)
    requires b != 0
    ensures -0x8000_0000 <= Quotient(a, b) <= 0x8000_0000
    ensures Quotient(a, b) == 0x8000_0000 <==> a == -0x8000_0000 && b == -1
    ensures -0x8000_0000 <= Remainder(a, b) < 0x8000_0000
  {
    var m, n := AbsOf(a), AbsOf(b);
    QuotientAtMost(m, n);
  }

  lemma QuotientAtMost(m: nat, n: nat)
    requires n > 0
    ensures m / n <= m && (n >= 2 ==> m / n <= m / 2) && m % n <= m
  {
    var q := m / n;
    assert m == n * q + m % n;
    Product(n - 1, q);
    assert (n - 1) * q == n * q - q;
    if n >= 2 {
      Product(n - 2, q);
      assert (n - 2) * q == n * q - 2 * q;
    }
    Product(n, q);
  }

  lemma DivuRemu(a: Int32, b: Int32)
    ensures b != 0 ==> Divides(Unsigned(a), Unsigned(b), Unsigned(Divu(a, b)), Unsigned(Remu(a, b)))
    ensures b == 0 ==> Unsigned(Divu(a, b)) == WORD - 1 && Remu(a, b) == a
  {
    if b != 0 {
      var x, y := Unsigned(a), Unsigned(b);
      QuotientAtMost(x, y);
      QuotientDivides(x, y);
      assert Quotient(x, y) == x / y && Remainder(x, y) == x % y;
      hide Quotient, Remainder;
      WrapBack(x / y);
      WrapBack(x % y);
    }
  }

  lemma WrapBack(x: U32)
    ensures Unsigned(Wrap(x)) == x
  {
  }
}
