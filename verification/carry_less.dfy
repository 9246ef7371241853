// The carry-less multiplications of tools/rvsim.c: three windows on one product of polynomials
// over GF(2).
module CarryLess {
  import opened Binary
  import opened MachineInts
  import opened Powers

  // Whether a sequence holds an odd number of ones
  ghost predicate Odd(s: seq<bool>) {
    s != [] && Odd(s[..|s| - 1]) != s[|s| - 1]
  }

  lemma {:induction false} OddCons(x: bool, s: seq<bool>)
    ensures Odd([x] + s) == (x != Odd(s))
  {
    var t := [x] + s;
    if s == [] {
      assert t[..0] == [];
    } else {
      assert t[..|t| - 1] == [x] + s[..|s| - 1];
      OddCons(x, s[..|s| - 1]);
    }
  }

  lemma {:induction false} OddReversed(s: seq<bool>, r: seq<bool>)
    requires |r| == |s| && forall i | 0 <= i < |s| :: r[i] == s[|s| - 1 - i]
    ensures Odd(r) == Odd(s)
  {
    if s != [] {
      var n := |s| - 1;
      assert r == [s[n]] + r[1..];
      OddCons(s[n], r[1..]);
      OddReversed(s[..n], r[1..]);
    }
  }

  // The products of bits that add up to coefficient k, for the bits of b below n
  ghost function Terms(a: nat, b: nat, k: nat, n: nat): (s: seq<bool>)
    ensures |s| == n
  {
    seq(n, i requires 0 <= i < n => i <= k && Bit(b, i) && Bit(a, k - i))
  }

  // Coefficient k of the product of a and b
  ghost predicate Coefficient(a: nat, b: nat, k: nat) {
    Odd(Terms(a, b, k, k + 1))
  }

  lemma CoefficientCommutes(a: nat, b: nat, k: nat)
    ensures Coefficient(a, b, k) == Coefficient(b, a, k)
  {
    hide Bit;
    OddReversed(Terms(a, b, k, k + 1), Terms(b, a, k, k + 1));
  }

  lemma NextTerm(a: nat, b: nat, k: nat, n: nat)
    ensures Odd(Terms(a, b, k, n + 1)) == (Odd(Terms(a, b, k, n)) != (n <= k && Bit(b, n) && Bit(a, k - n)))
  {
    hide Bit;
    assert Terms(a, b, k, n + 1)[..n] == Terms(a, b, k, n);
  }

  lemma {:induction false} FurtherTerms(a: nat, b: nat, k: nat, m: nat, n: nat)
    requires m <= n && forall i | m <= i < n :: i > k || !Bit(b, i)
    ensures Odd(Terms(a, b, k, n)) == Odd(Terms(a, b, k, m))
    decreases n
  {
    if m < n {
      NextTerm(a, b, k, n - 1);
      FurtherTerms(a, b, k, m, n - 1);
    }
  }

  lemma Word(x: U32)
    ensures x < Pow2(32)
  {
    Pow2Values();
  }

  lemma AllTerms(a: U32, b: U32, k: nat)
    ensures Odd(Terms(a, b, k, 32)) == Coefficient(a, b, k)
  {
    Word(b);
    hide Bit, Pow2;
    if k + 1 <= 32 {
      FurtherTerms(a, b, k, k + 1, 32);
    } else {
      forall i | 32 <= i < k + 1
        ensures !Bit(b, i)
      {
        NoBit(b, 32, i);
      }
      FurtherTerms(a, b, k, 32, k + 1);
    }
  }

  // n holds the 32 coefficients of the product from k on
  ghost predicate Window(n: U32, a: U32, b: U32, k: nat) {
    forall j | 0 <= j < 32 :: Bit(n, j) == Coefficient(a, b, k + j)
  }

  // The first i bits of b are taken into n
  ghost predicate Taken(n: U32, a: U32, b: U32, k: nat, i: nat) {
    forall j | 0 <= j < 32 :: Bit(n, j) == Odd(Terms(a, b, k + j, i))
  }

  // s is what the window from k sees of a moved up by i
  ghost predicate Seen(s: nat, a: U32, k: nat, i: nat) {
    forall j | 0 <= j < 32 :: Bit(s, j) == (i <= k + j && Bit(a, k + j - i))
  }

  lemma TakeNext(n: U32, a: U32, b: U32, k: nat, i: nat, s: nat, m: U32)
    requires Taken(n, a, b, k, i) && Seen(s, a, k, i)
    requires m == if Bit(b, i) then Xor(n, s, 32) else n
    ensures Taken(m, a, b, k, i + 1)
  {
    hide Bit, Xor, Odd;
    forall j | 0 <= j < 32
      ensures Bit(m, j) == Odd(Terms(a, b, k + j, i + 1))
    {
      NextTerm(a, b, k + j, i);
      XorBit(n, s, 32, j);
    }
  }

  lemma TakenAll(n: U32, a: U32, b: U32, k: nat)
    requires Taken(n, a, b, k, 32)
    ensures Window(n, a, b, k)
  {
    hide Bit, Odd;
    forall j | 0 <= j < 32
      ensures Bit(n, j) == Coefficient(a, b, k + j)
    {
      AllTerms(a, b, k + j);
    }
  }

  function XorWord(x: U32, y: nat): (r: U32)
    ensures r == Xor(x, y, 32)
  {
    XorInRange(x, y, 32);
    Pow2Values();
    Xor(x, y, 32)
  }

  lemma NoneTaken(a: U32, b: U32, k: nat)
    ensures Taken(0, a, b, k, 0)
  {
    forall j | 0 <= j < 32
      ensures !Bit(0, j)
    {
      NoBit(0, 0, j);
    }
  }

  lemma LeftShifted(a: U32, i: nat)
    requires i < 32
    ensures Seen(LowPart(ShiftUp(a, i), 32), a, 0, i)
  {
    hide Bit, LowPart, ShiftUp;
    var s := LowPart(ShiftUp(a, i), 32);
    forall j | 0 <= j < 32
      ensures Bit(s, j) == (i <= j && Bit(a, j - i))
    {
      LowBit(ShiftUp(a, i), 32, j);
      ShiftUpBit(a, i, j);
    }
  }

  lemma RightShifted(a: U32, k: nat, i: nat)
    requires i <= k
    ensures Seen(HighPart(a, k - i), a, k, i)
  {
    hide Bit, HighPart;
    var s := HighPart(a, k - i);
    forall j | 0 <= j < 32
      ensures Bit(s, j) == Bit(a, k + j - i)
    {
      HighBit(a, k - i, j);
    }
  }

  method Clmul(a: U32, b: U32) returns (n: U32)
    ensures Window(n, a, b, 0)
  {
    hide *;
    n := 0;
    NoneTaken(a, b, 0);
    for i := 0 to 32
      invariant Taken(n, a, b, 0, i)
    {
      ghost var m := n;
      if Bit(b, i) {
        n := XorWord(n, LowPart(ShiftUp(a, i), 32));
      }
      LeftShifted(a, i);
      TakeNext(m, a, b, 0, i, LowPart(ShiftUp(a, i), 32), n);
    }
    TakenAll(n, a, b, 0);
  }

  // The loop starts at 1: bit 0 of b reaches no coefficient above 31
  method Clmulh(a: U32, b: U32) returns (n: U32)
    ensures Window(n, a, b, 32)
  {
    NoneTaken(a, b, 32);
    SkipFirst(a, b);
    hide *;
    n := 0;
    for i := 1 to 32
      invariant Taken(n, a, b, 32, i)
    {
      ghost var m := n;
      if Bit(b, i) {
        n := XorWord(n, HighPart(a, 32 - i));
      }
      RightShifted(a, 32, i);
      TakeNext(m, a, b, 32, i, HighPart(a, 32 - i), n);
    }
    TakenAll(n, a, b, 32);
  }

  lemma SkipFirst(a: U32, b: U32)
    requires Taken(0, a, b, 32, 0)
    ensures Taken(0, a, b, 32, 1)
  {
    Word(a);
    hide Bit, Odd, Pow2;
    forall j | 0 <= j < 32
      ensures Bit(0, j) == Odd(Terms(a, b, 32 + j, 1))
    {
      NextTerm(a, b, 32 + j, 0);
      NoBit(a, 32, 32 + j);
    }
  }

  method Clmulr(a: U32, b: U32) returns (n: U32)
    ensures Window(n, a, b, 31)
  {
    hide *;
    n := 0;
    NoneTaken(a, b, 31);
    for i := 0 to 32
      invariant Taken(n, a, b, 31, i)
    {
      ghost var m := n;
      if Bit(b, i) {
        n := XorWord(n, HighPart(a, 31 - i));
      }
      RightShifted(a, 31, i);
      TakeNext(m, a, b, 31, i, HighPart(a, 31 - i), n);
    }
    TakenAll(n, a, b, 31);
  }

  // A window holds one word only, and the operands may be exchanged
  lemma WindowsCommute(n: U32, m: U32, a: U32, b: U32, k: nat)
    requires Window(n, a, b, k) && Window(m, b, a, k)
    ensures n == m
  {
    hide Bit, Coefficient;
    forall j | 0 <= j < 32
      ensures Bit(n, j) == Bit(m, j)
    {
      CoefficientCommutes(a, b, k + j);
    }
    Word(n);
    Word(m);
    SameBits(n, m, 32);
  }

  // The product has 63 bits
  lemma TopCoefficient(a: U32, b: U32, k: nat)
    requires k >= 63
    ensures !Coefficient(a, b, k)
  {
    Word(a);
    Word(b);
    hide Bit, Pow2;
    var s := Terms(a, b, k, k + 1);
    forall i | 0 <= i < |s|
      ensures !s[i]
    {
      if i >= 32 {
        NoBit(b, 32, i);
      } else {
        NoBit(a, 32, k - i);
      }
    }
    NoneOdd(s);
  }

  lemma {:induction false} NoneOdd(s: seq<bool>)
    requires forall i | 0 <= i < |s| :: !s[i]
    ensures !Odd(s)
  {
    if s != [] {
      NoneOdd(s[..|s| - 1]);
    }
  }

  // clmulr is clmulh moved up by one place, with the top bit of clmul
  lemma ClmulrJoins(l: U32, h: U32, r: U32, a: U32, b: U32)
    requires Window(l, a, b, 0) && Window(h, a, b, 32) && Window(r, a, b, 31)
    ensures h < 0x8000_0000 && r == 2 * h + l / 0x8000_0000
  {
    TopCoefficient(a, b, 63);
    WindowAt(h, a, b, 32, 31);
    WindowAt(l, a, b, 0, 31);
    NoTopBit(h);
    TopBitIs(l);
    var x := 2 * h + l / 0x8000_0000;
    hide Coefficient, Bit, Window;
    assert x / 2 == h && x % 2 == l / 0x8000_0000;
    forall j | 0 <= j < 32
      ensures Bit(r, j) == Bit(x, j)
    {
      WindowAt(r, a, b, 31, j);
      if j > 0 {
        BitHalf(x, j - 1);
        WindowAt(h, a, b, 32, j - 1);
      } else {
        BitHalf(x, 0);
      }
    }
    Word(r);
    Word(x);
    SameBits(r, x, 32);
  }

  lemma WindowAt(n: U32, a: U32, b: U32, k: nat, j: nat)
    requires Window(n, a, b, k) && j < 32
    ensures Bit(n, j) == Coefficient(a, b, k + j)
  {
  }

  lemma NoTopBit(x: U32)
    requires !Bit(x, 31)
    ensures x < 0x8000_0000
  {
    TopBitIs(x);
  }

  lemma TopBitIs(x: U32)
    ensures Bit(x, 31) == (x / 0x8000_0000 == 1)
  {
    HighBit(x, 31, 0);
    Parts(x, 31);
    Pow2Values();
    hide *;
    Bit0(HighPart(x, 31));
  }

  lemma Bit0(x: nat)
    ensures Bit(x, 0) == (x % 2 == 1)
  {
  }
}
