// Binary notation of the natural numbers
module Binary {
  import opened Powers

  predicate Bit(x: nat, i: nat) {
    if i == 0 then x % 2 == 1 else Bit(x / 2, i - 1)
  }

  // The low n bits of x, least significant first
  function Bits(x: nat, n: nat): (b: seq<bool>)
    ensures |b| == n
  {
    seq(n, i requires 0 <= i < n => Bit(x, i))
  }

  lemma BitHalf(x: nat, i: nat)
    ensures Bit(x, 0) == (x % 2 == 1) && Bit(x, i + 1) == Bit(x / 2, i)
  {
  }

  lemma BitsHalf(x: nat, n: nat)
    requires n > 0
    ensures Bits(x, n)[0] == (x % 2 == 1) && Bits(x, n)[1..] == Bits(x / 2, n - 1)
  {
  }

  lemma {:induction false} NoBit(x: nat, n: nat, i: nat)
    requires x < Pow2(n) && i >= n
    ensures !Bit(x, i)
  {
    if i > 0 {
      NoBit(x / 2, if n == 0 then 0 else n - 1, i - 1);
    }
  }

  lemma {:induction false} TopBit(x: nat, n: nat, i: nat)
    requires x < Pow2(n)
    ensures Bit(x + Pow2(n), i) == (Bit(x, i) || i == n)
  {
    if n == 0 {
      if i > 0 {
        NoBit(0, 0, i - 1);
      }
    } else if i > 0 {
      assert (x + Pow2(n)) / 2 == x / 2 + Pow2(n - 1);
      TopBit(x / 2, n - 1, i - 1);
    }
  }

  // x with bit k inverted
  function Flip(x: nat, k: nat): nat {
    if k == 0 then (if x % 2 == 1 then x - 1 else x + 1) else 2 * Flip(x / 2, k - 1) + x % 2
  }

  lemma {:induction false} FlipInRange(x: nat, k: nat, n: nat)
    requires x < Pow2(n) && k < n
    ensures Flip(x, k) < Pow2(n)
  {
    hide Pow2, Flip;
    FlipStep(x, k);
    DoubleInRange(x, n);
    if k > 0 {
      FlipInRange(x / 2, k - 1, n - 1);
    }
  }

  lemma FlipStep(x: nat, k: nat)
    ensures k == 0 ==> Flip(x, k) <= 2 * (x / 2) + 1
    ensures k > 0 ==> Flip(x, k) <= 2 * Flip(x / 2, k - 1) + 1
  {
  }

  lemma DoubleInRange(x: nat, n: nat)
    requires n > 0 && x < Pow2(n)
    ensures Pow2(n) == 2 * Pow2(n - 1) && x / 2 < Pow2(n - 1)
  {
  }

  lemma {:induction false} FlippedBit(x: nat, k: nat, i: nat)
    ensures Bit(Flip(x, k), i) == (Bit(x, i) != (i == k))
  {
    if k > 0 && i > 0 {
      FlippedBit(x / 2, k - 1, i - 1);
    }
  }

  // x cut below bit m
  function LowPart(x: nat, m: nat): nat {
    if m == 0 then 0 else 2 * LowPart(x / 2, m - 1) + x % 2
  }

  function HighPart(x: nat, m: nat): nat {
    if m == 0 then x else HighPart(x / 2, m - 1)
  }

  lemma {:induction false} Parts(x: nat, m: nat)
    ensures x == HighPart(x, m) * Pow2(m) + LowPart(x, m) && LowPart(x, m) < Pow2(m)
  {
    if m > 0 {
      Parts(x / 2, m - 1);
      Doubled(HighPart(x, m), Pow2(m - 1));
    }
  }

  lemma Doubled(h: nat, p: nat)
    ensures h * (2 * p) == 2 * (h * p)
  {
  }

  lemma {:induction false} LowBit(x: nat, m: nat, i: nat)
    requires i < m
    ensures Bit(LowPart(x, m), i) == Bit(x, i)
  {
    if i > 0 {
      LowBit(x / 2, m - 1, i - 1);
    }
  }

  lemma {:induction false} HighBit(x: nat, m: nat, i: nat)
    ensures Bit(HighPart(x, m), i) == Bit(x, m + i)
  {
    if m > 0 {
      HighBit(x / 2, m - 1, i);
    }
  }

  // The bits of a word are those of its low part and then those of the rest
  lemma BitsSplit(x: nat, m: nat, n: nat)
    ensures Bits(x, m + n) == Bits(LowPart(x, m), m) + Bits(HighPart(x, m), n)
  {
    hide Bit, LowPart, HighPart;
    forall i | 0 <= i < m + n
      ensures Bit(x, i) == if i < m then Bit(LowPart(x, m), i) else Bit(HighPart(x, m), i - m)
    {
      if i < m {
        LowBit(x, m, i);
      } else {
        HighBit(x, m, i - m);
      }
    }
  }

  lemma {:induction false} SameBits(x: nat, y: nat, n: nat)
    requires x < Pow2(n) && y < Pow2(n) && forall i | 0 <= i < n :: Bit(x, i) == Bit(y, i)
    ensures x == y
  {
    if n > 0 {
      forall i | 0 <= i < n - 1
        ensures Bit(x / 2, i) == Bit(y / 2, i)
      {
        BitHalf(x, i);
        BitHalf(y, i);
        var k := i + 1;
        assert Bit(x, k) == Bit(y, k);
      }
      SameBits(x / 2, y / 2, n - 1);
      assert Bit(x, 0) == Bit(y, 0);
    }
  }

  // x ^ y on n bits
  function Xor(x: nat, y: nat, n: nat): nat {
    if n == 0 then 0 else 2 * Xor(x / 2, y / 2, n - 1) + (x + y) % 2
  }

  lemma {:induction false} XorInRange(x: nat, y: nat, n: nat)
    ensures Xor(x, y, n) < Pow2(n)
  {
    if n > 0 {
      XorInRange(x / 2, y / 2, n - 1);
    }
  }

  lemma {:induction false} XorTwice(x: nat, y: nat, n: nat)
    requires x < Pow2(n)
    ensures Xor(Xor(x, y, n), y, n) == x
  {
    hide Xor, Pow2;
    if n == 0 {
      XorTwiceNone(x, y);
    } else {
      DoubleInRange(x, n);
      XorTwice(x / 2, y / 2, n - 1);
      XorStep(x, y, n);
      XorStep(Xor(x, y, n), y, n);
      Parity(x, y);
    }
  }

  lemma XorTwiceNone(x: nat, y: nat)
    requires x < Pow2(0)
    ensures Xor(Xor(x, y, 0), y, 0) == x
  {
  }

  lemma XorStep(x: nat, y: nat, n: nat)
    requires n > 0
    ensures Xor(x, y, n) == 2 * Xor(x / 2, y / 2, n - 1) + (x + y) % 2
    ensures Xor(x, y, n) / 2 == Xor(x / 2, y / 2, n - 1) && Xor(x, y, n) % 2 == (x + y) % 2
  {
  }

  lemma Parity(x: nat, y: nat)
    ensures ((x + y) % 2 + y) % 2 == x % 2
  {
  }

  lemma DivMod(x: nat, m: nat, q: nat, r: nat)
    requires m > 0 && r < m && x == m * q + r
    ensures x / m == q && x % m == r
  {
    Multiple(m, x / m - q);
    assert m * (x / m - q) == m * (x / m) - m * q;
  }

  lemma Multiple(m: nat, d: int)
    ensures d >= 1 ==> m * d >= m
    ensures d <= -1 ==> m * d <= -(m as int)
  {
  }

  lemma {:induction false} XorBit(x: nat, y: nat, n: nat, i: nat)
    ensures Bit(Xor(x, y, n), i) == (i < n && Bit(x, i) != Bit(y, i))
  {
    if n == 0 {
      NoBit(0, 0, i);
    } else {
      XorStep(x, y, n);
      var z := Xor(x, y, n);
      if i > 0 {
        XorBit(x / 2, y / 2, n - 1, i - 1);
      }
      hide Xor, Bit;
      BitStep(x, i);
      BitStep(y, i);
      BitStep(z, i);
      OddSum(x, y);
    }
  }

  lemma BitStep(x: nat, i: nat)
    ensures Bit(x, i) == if i == 0 then x % 2 == 1 else Bit(x / 2, i - 1)
  {
  }

  lemma OddSum(x: nat, y: nat)
    ensures (x + y) % 2 == 1 <==> (x % 2 == 1) != (y % 2 == 1)
  {
  }

  // x & y and x | y on n bits
  function And(x: nat, y: nat, n: nat): nat {
    if n == 0 then 0 else 2 * And(x / 2, y / 2, n - 1) + if x % 2 == 1 && y % 2 == 1 then 1 else 0
  }

  function Or(x: nat, y: nat, n: nat): nat {
    if n == 0 then 0 else 2 * Or(x / 2, y / 2, n - 1) + if x % 2 == 1 || y % 2 == 1 then 1 else 0
  }

  // Xor and Or work on the low and the high bits apart

  lemma {:induction false} XorSplit(x: nat, y: nat, m: nat, n: nat)
    ensures HighPart(Xor(x, y, m + n), m) == Xor(HighPart(x, m), HighPart(y, m), n)
    ensures LowPart(Xor(x, y, m + n), m) == Xor(LowPart(x, m), LowPart(y, m), m)
    decreases m
  {
    hide Xor, LowPart, HighPart;
    if m == 0 {
      XorSplitNone(x, y, n);
    } else {
      XorStep(x, y, m + n);
      XorSplit(x / 2, y / 2, m - 1, n);
      LowStep(x, m);
      LowStep(y, m);
      LowStep(Xor(x, y, m + n), m);
      XorStep(LowPart(x, m), LowPart(y, m), m);
      assert (m + n) - 1 == (m - 1) + n;
      SameParity(x, y, LowPart(x, m), LowPart(y, m));
    }
  }

  lemma XorSplitNone(x: nat, y: nat, n: nat)
    ensures HighPart(Xor(x, y, n), 0) == Xor(HighPart(x, 0), HighPart(y, 0), n)
    ensures LowPart(Xor(x, y, n), 0) == Xor(LowPart(x, 0), LowPart(y, 0), 0)
  {
  }

  lemma SameParity(x: nat, y: nat, v: nat, w: nat)
    requires x % 2 == v % 2 && y % 2 == w % 2
    ensures (x + y) % 2 == (v + w) % 2
  {
    OddSum(x, y);
    OddSum(v, w);
  }

  lemma LowStep(x: nat, m: nat)
    requires m > 0
    ensures LowPart(x, m) == 2 * LowPart(x / 2, m - 1) + x % 2 && HighPart(x, m) == HighPart(x / 2, m - 1)
    ensures LowPart(x, m) / 2 == LowPart(x / 2, m - 1) && LowPart(x, m) % 2 == x % 2
  {
  }

  lemma OrStep(x: nat, y: nat, n: nat)
    requires n > 0
    ensures Or(x, y, n) == 2 * Or(x / 2, y / 2, n - 1) + if x % 2 == 1 || y % 2 == 1 then 1 else 0
    ensures Or(x, y, n) / 2 == Or(x / 2, y / 2, n - 1) && (Or(x, y, n) % 2 == 1 <==> x % 2 == 1 || y % 2 == 1)
  {
  }

  lemma {:induction false} OrSplit(x: nat, y: nat, m: nat, n: nat)
    ensures HighPart(Or(x, y, m + n), m) == Or(HighPart(x, m), HighPart(y, m), n)
    ensures LowPart(Or(x, y, m + n), m) == Or(LowPart(x, m), LowPart(y, m), m)
    decreases m
  {
    if m > 0 {
      OrStep(x, y, m + n);
      OrSplit(x / 2, y / 2, m - 1, n);
      LowStep(x, m);
      LowStep(y, m);
      LowStep(Or(x, y, m + n), m);
      OrStep(LowPart(x, m), LowPart(y, m), m);
      assert (m + n) - 1 == (m - 1) + n;
      hide Or, LowPart;
    }
  }

  lemma {:induction false} OrZero(x: nat, y: nat, n: nat)
    ensures Or(x, y, n) == 0 <==> LowPart(x, n) == 0 && LowPart(y, n) == 0
  {
    if n > 0 {
      OrStep(x, y, n);
      OrZero(x / 2, y / 2, n - 1);
      LowStep(x, n);
      LowStep(y, n);
    }
  }

  // What zero adds
  lemma {:induction false} WithZero(y: nat, n: nat)
    ensures Or(0, y, n) == LowPart(y, n) && Xor(0, y, n) == LowPart(y, n)
  {
    if n > 0 {
      WithZero(y / 2, n - 1);
    }
  }

  lemma PartsAre(x: nat, m: nat, b: nat)
    requires b == Pow2(m)
    ensures HighPart(x, m) == x / b && LowPart(x, m) == x % b
  {
    Parts(x, m);
    hide *;
    var h, l := HighPart(x, m), LowPart(x, m);
    assert h * b == b * h;
    DivMod(x, b, h, l);
  }

  // x << i on unbounded numbers
  function ShiftUp(x: nat, i: nat): nat {
    if i == 0 then x else 2 * ShiftUp(x, i - 1)
  }

  lemma {:induction false} ShiftUpBit(x: nat, i: nat, k: nat)
    ensures Bit(ShiftUp(x, i), k) == (k >= i && Bit(x, k - i))
  {
    if i > 0 {
      assert ShiftUp(x, i) / 2 == ShiftUp(x, i - 1);
      if k > 0 {
        ShiftUpBit(x, i - 1, k - 1);
      }
    }
  }

  lemma {:induction false} ShiftUpIs(x: nat, n: nat)
    ensures ShiftUp(x, n) == x * Pow2(n)
  {
    if n > 0 {
      ShiftUpIs(x, n - 1);
      Doubled(x, Pow2(n - 1));
    }
  }

  lemma {:induction false} OrBit(x: nat, y: nat, n: nat, i: nat)
    ensures Bit(Or(x, y, n), i) == (i < n && (Bit(x, i) || Bit(y, i)))
  {
    if n == 0 {
      NoBit(0, 0, i);
    } else {
      OrStep(x, y, n);
      var z := Or(x, y, n);
      if i > 0 {
        OrBit(x / 2, y / 2, n - 1, i - 1);
      }
      hide Or, Bit;
      BitStep(x, i);
      BitStep(y, i);
      BitStep(z, i);
    }
  }

  lemma AndStep(x: nat, y: nat, n: nat)
    requires n > 0
    ensures And(x, y, n) / 2 == And(x / 2, y / 2, n - 1) && (And(x, y, n) % 2 == 1 <==> x % 2 == 1 && y % 2 == 1)
  {
  }

  lemma {:induction false} AndBit(x: nat, y: nat, n: nat, i: nat)
    ensures Bit(And(x, y, n), i) == (i < n && Bit(x, i) && Bit(y, i))
  {
    if n == 0 {
      NoBit(0, 0, i);
    } else {
      AndStep(x, y, n);
      var z := And(x, y, n);
      if i > 0 {
        AndBit(x / 2, y / 2, n - 1, i - 1);
      }
      hide And, Bit;
      BitStep(x, i);
      BitStep(y, i);
      BitStep(z, i);
    }
  }

  lemma {:induction false} OrInRange(x: nat, y: nat, n: nat)
    ensures Or(x, y, n) < Pow2(n) && And(x, y, n) < Pow2(n)
  {
    if n > 0 {
      OrInRange(x / 2, y / 2, n - 1);
    }
  }

  // ~x on n bits
  lemma {:induction false} NotBit(x: nat, n: nat, i: nat)
    requires x < Pow2(n) && i < n
    ensures Bit(Pow2(n) - 1 - x, i) == !Bit(x, i)
  {
    var z := Pow2(n) - 1 - x;
    assert Pow2(n) == 2 * Pow2(n - 1);
    assert z / 2 == Pow2(n - 1) - 1 - x / 2 && (z % 2 == 1 <==> x % 2 == 0);
    if i > 0 {
      NotBit(x / 2, n - 1, i - 1);
    }
    hide Bit, Pow2;
    BitStep(x, i);
    BitStep(z, i);
  }
}
