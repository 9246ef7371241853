// CLZ, CTZ and CPOP of tools/rvsim.c, on machine words.
module BitCounts {
  type Word = bv32

  function Half(x: Word): Word { x >> 1 }
  predicate LowOne(x: Word) { x & 1 == 1 }
  function ClearLowest(x: Word): Word { x & (x - 1) }

  lemma HalfIsLess(x: Word)
    requires x != 0
    ensures Half(x) < x
  {
  }

  // The number of ones
  function Ones(x: Word): (r: nat)
    decreases x
  {
    if x == 0 then 0 else
      HalfIsLess(x);
      Ones(Half(x)) + if LowOne(x) then 1 else 0
  }

  lemma {:induction false} LowestCleared(x: Word)
    requires x != 0
    ensures Ones(ClearLowest(x)) == Ones(x) - 1
    decreases x
  {
    hide Half, LowOne, ClearLowest;
    var y := ClearLowest(x);
    Cleared(x);
    OnesStep(x);
    OnesStep(y);
    if LowOne(x) {
      ClearedOdd(x);
    } else {
      ClearedEven(x);
      HalfOfEven(x);
      HalfIsLess(x);
      LowestCleared(Half(x));
    }
  }

  lemma OnesStep(x: Word)
    ensures Ones(x) == Ones(Half(x)) + if LowOne(x) then 1 else 0
  {
    if x == 0 {
      assert Half(x) == 0 && !LowOne(x);
    }
  }

  lemma Cleared(x: Word)
    ensures !LowOne(ClearLowest(x))
  {
  }

  lemma ClearedEven(x: Word)
    requires x != 0 && !LowOne(x)
    ensures Half(ClearLowest(x)) == ClearLowest(Half(x))
  {
  }

  lemma ClearedOdd(x: Word)
    requires LowOne(x)
    ensures Half(ClearLowest(x)) == Half(x)
  {
  }

  lemma HalfOfEven(x: Word)
    requires x != 0 && !LowOne(x)
    ensures Half(x) != 0
  {
  }

  method Cpop(x: Word) returns (c: nat)
    ensures c == Ones(x)
  {
    var n := x;
    c := 0;
    while n != 0
      invariant c + Ones(n) == Ones(x)
      decreases Ones(n)
    {
      LowestCleared(n);
      n := ClearLowest(n);
      c := c + 1;
    }
  }

  // Bit k of x is one, and none above or below it is
  ghost predicate HighestOne(x: Word, k: Word) {
    k < 32 && x >> k == 1
  }

  ghost predicate LowestOne(x: Word, k: Word) {
    k < 32 && (x >> k) & 1 == 1 && (x >> k) << k == x
  }

  method Clz(x0: Word) returns (r: Word)
    ensures if x0 == 0 then r == 32 else r <= 31 && HighestOne(x0, 31 - r)
  {
    var x := x0;
    r := 0;
    if x == 0 {
      r := 32;
    } else {
      if x & 0xffff0000 == 0 {
        x := x << 16;
        r := r + 16;
      }
      if x & 0xff000000 == 0 {
        x := x << 8;
        r := r + 8;
      }
      if x & 0xf0000000 == 0 {
        x := x << 4;
        r := r + 4;
      }
      if x & 0xc0000000 == 0 {
        x := x << 2;
        r := r + 2;
      }
      if x & 0x80000000 == 0 {
        r := r + 1;
      }
    }
  }

  // The table of the de Bruijn sequence 0x077CB531
  function Table(i: Word): Word {
    match i
    case 0 => 0 case 1 => 1 case 2 => 28 case 3 => 2 case 4 => 29 case 5 => 14 case 6 => 24 case 7 => 3
    case 8 => 30 case 9 => 22 case 10 => 20 case 11 => 15 case 12 => 25 case 13 => 17 case 14 => 4 case 15 => 8
    case 16 => 31 case 17 => 27 case 18 => 13 case 19 => 23 case 20 => 21 case 21 => 19 case 22 => 16 case 23 => 7
    case 24 => 26 case 25 => 12 case 26 => 18 case 27 => 6 case 28 => 11 case 29 => 5 case 30 => 10 case _ => 9
  }

  lemma {:induction false} LowestExists(x: Word) returns (k: Word)
    requires x != 0
    ensures LowestOne(x, k)
    decreases x
  {
    hide LowestOne, LowOne, Half;
    if LowOne(x) {
      AtLowest(x);
      k := 0;
    } else {
      HalfOfEven(x);
      HalfIsLess(x);
      k := LowestExists(Half(x));
      AboveLowest(x, k);
      k := k + 1;
    }
  }

  lemma AtLowest(x: Word)
    requires LowOne(x)
    ensures LowestOne(x, 0)
  {
  }

  lemma AboveLowest(x: Word, k: Word)
    requires !LowOne(x) && LowestOne(Half(x), k)
    ensures LowestOne(x, k + 1)
  {
  }

  lemma TableInverts(k: Word)
    requires k < 32
    ensures Table(((1 << k) * 0x077CB531) >> 27) == k
  {
  }

  lemma LowestAlone(x: Word, k: Word)
    requires LowestOne(x, k)
    ensures x & -x == 1 << k
  {
  }

  function Ctz(x: Word): (r: Word) {
    if x == 0 then 32 else Table(((x & -x) * 0x077CB531) >> 27)
  }

  lemma CtzLowest(x: Word)
    requires x != 0
    ensures LowestOne(x, Ctz(x))
  {
    hide Table;
    var k := LowestExists(x);
    LowestAlone(x, k);
    TableInverts(k);
  }

  // Counting the zeros below the lowest one by the other two instructions
  lemma LowestAloneHighest(x: Word, k: Word)
    requires LowestOne(x, k)
    ensures HighestOne(x & -x, k)
  {
  }

  lemma HighestIsUnique(x: Word, j: Word, k: Word)
    requires HighestOne(x, j) && HighestOne(x, k)
    ensures j == k
  {
  }

  function Mask(k: Word): Word
    requires k < 32
  {
    (1 << k) - 1
  }

  lemma MaskHalf(k: Word)
    requires 0 < k < 32
    ensures Half(Mask(k)) == Mask(k - 1)
  {
  }

  lemma MaskOdd(k: Word)
    requires 0 < k < 32
    ensures LowOne(Mask(k))
  {
  }

  lemma {:induction false} OnesBelow(k: Word)
    requires k < 32
    ensures Ones(Mask(k)) == k as int
    decreases k
  {
    if k == 0 {
      assert Mask(0) == 0;
    } else {
      hide Half, LowOne, Mask;
      OnesStep(Mask(k));
      MaskHalf(k);
      MaskOdd(k);
      OnesBelow(k - 1);
    }
  }

  lemma MaskOfLowest(x: Word, k: Word)
    requires LowestOne(x, k)
    ensures (x & -x) - 1 == Mask(k)
  {
  }

  // r is what Clz returns for x & -x
  lemma CtzByOthers(x: Word, r: Word)
    requires x != 0 && r <= 31 && HighestOne(x & -x, 31 - r)
    ensures Ctz(x) == 31 - r && Ctz(x) as int == Ones((x & -x) - 1)
  {
    CtzLowest(x);
    var k := Ctz(x);
    hide HighestOne, LowestOne, Ctz;
    InRange(x, k);
    MaskOfLowest(x, k);
    OnesBelow(k);
    LowestAloneHighest(x, k);
    HighestIsUnique(x & -x, k, 31 - r);
  }

  lemma InRange(x: Word, k: Word)
    requires LowestOne(x, k)
    ensures k < 32
  {
  }
}
