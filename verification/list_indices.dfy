// The indices that core_list_init gives, and when it gives one twice.
module ListIndices {
  import opened Binary
  import opened MachineInts
  import opened Powers

  // The datum of item i: a pattern and the number of a kernel in seven bits, twice
  function Datum(seed: Int16, i: nat): U16 {
    var dat := Xor(seed % 0x1_0000, i % 0x1_0000, 16) % 16 * 8 + i % 8;
    dat * 0x100 + dat
  }

  // Datum d of item i, bit by bit: the low bits of i, then four bits of the seed exclusive-ored with i,
  // a zero, and all of it again
  ghost predicate ItemBits(d: U16, seed: Int16, i: nat) {
    && (forall k | 0 <= k < 3 :: Bit(d, k) == Bit(i, k))
    && (forall k | 3 <= k < 7 :: Bit(d, k) == (Bit(i, k - 3) != Bit(seed % 0x1_0000, k - 3)))
    && !Bit(d, 7) && d / 0x100 == d % 0x100 && d % 8 == i % 8
  }

  lemma LowerBit(x: nat, m: nat, b: nat, k: nat)
    requires b == Pow2(m) && k < m
    ensures Bit(x % b, k) == Bit(x, k)
  {
    hide Bit, LowPart, HighPart, Pow2;
    PartsAre(x, m, b);
    LowBit(x, m, k);
  }

  lemma UpperBit(x: nat, k: nat)
    ensures Bit(x / 8, k) == Bit(x, 3 + k)
  {
    hide Bit, LowPart, HighPart, Pow2;
    Pow2Values();
    PartsAre(x, 3, 8);
    HighBit(x, 3, k);
  }

  lemma SmallPowers()
    ensures Pow2(3) == 8 && Pow2(4) == 16 && Pow2(7) == 0x80 && Pow2(14) == 0x4000
  {
    assert Pow2(2) == 4 && Pow2(5) == 32;
    assert Pow2(10) == 1024 && Pow2(12) == 0x1000;
  }

  lemma DatumParts(seed: Int16, i: nat)
    ensures var d, x := Datum(seed, i), Xor(seed % 0x1_0000, i % 0x1_0000, 16);
      && d % 8 == i % 8 && d / 0x100 == d % 0x100 < 0x80
      && d % 0x100 % 8 == i % 8 && d % 0x100 / 8 == x % 16
  {
    hide Xor;
    var x := Xor(seed % 0x1_0000, i % 0x1_0000, 16);
    var dat := x % 16 * 8 + i % 8;
    DivMod(dat, 8, x % 16, i % 8);
    DivMod(Datum(seed, i), 0x100, dat, dat);
    assert Datum(seed, i) == 8 * (x % 16 * 0x101 + i % 8 * 0x20) + i % 8;
    DivMod(Datum(seed, i), 8, x % 16 * 0x101 + i % 8 * 0x20, i % 8);
  }

  lemma DatumBits(seed: Int16, i: nat)
    ensures ItemBits(Datum(seed, i), seed, i)
  {
    hide Bit, Datum, Xor, Pow2;
    Pow2Values();
    SmallPowers();
    DatumParts(seed, i);
    var d, x := Datum(seed, i), Xor(seed % 0x1_0000, i % 0x1_0000, 16);
    forall k | 0 <= k < 3
      ensures Bit(d, k) == Bit(i, k)
    {
      LowerBit(d, 3, 8, k);
      LowerBit(i, 3, 8, k);
    }
    forall k | 3 <= k < 7
      ensures Bit(d, k) == (Bit(i, k - 3) != Bit(seed % 0x1_0000, k - 3))
    {
      LowerBit(d, 8, 0x100, k);
      UpperBit(d % 0x100, k - 3);
      LowerBit(x, 4, 16, k - 3);
      XorBit(seed % 0x1_0000, i % 0x1_0000, 16, k - 3);
      LowerBit(i, 16, 0x1_0000, k - 3);
    }
    LowerBit(d, 8, 0x100, 7);
    NoBit(d % 0x100, 7, 7);
  }

  // The index given to the node in place k: the first fifth in order, the others mixed
  function IndexOf(seed: Int16, size: nat, k: nat): Int16 {
    if k < size / 5 then Signed16(k)
    else Or((k + 1) % 8 * 0x100, Xor(k % 0x1_0000, seed % 0x1_0000, 16), 16) % 0x4000
  }

  function Signed16(x: nat): Int16 { if x % 0x1_0000 < 0x8000 then x % 0x1_0000 else x % 0x1_0000 - 0x1_0000 }

  // Mixed index d of place k, bit by bit: the place exclusive-ored with the seed, cut to 14 bits, bits 8
  // to 10 set where those of the next place's number are
  ghost predicate MixedBits(d: Int16, seed: Int16, k: nat) {
    && 0 <= d < 0x4000
    && forall b | 0 <= b < 14 :: Bit(d, b) ==
         ((8 <= b < 11 && Bit(k + 1, b - 8)) || Bit(k, b) != Bit(seed % 0x1_0000, b))
  }

  lemma ByteUp(a: nat, b: nat)
    requires a < 8
    ensures Bit(a * 0x100, b) == (8 <= b < 11 && Bit(a, b - 8))
  {
    hide Bit, Pow2, ShiftUp;
    Pow2Values();
    SmallPowers();
    ShiftUpIs(a, 8);
    ShiftUpBit(a, 8, b);
    if b >= 11 {
      NoBit(a, 3, b - 8);
    }
  }

  lemma IndexBits(seed: Int16, size: nat, k: nat)
    ensures k < size / 5 && k < 0x8000 ==> IndexOf(seed, size, k) == k
    ensures size / 5 <= k ==> MixedBits(IndexOf(seed, size, k), seed, k)
  {
    if size / 5 <= k {
      hide Bit, Or, Xor, Pow2;
      Pow2Values();
      SmallPowers();
      var s, a, w := seed % 0x1_0000, (k + 1) % 8, k % 0x1_0000;
      var m := Or(a * 0x100, Xor(w, s, 16), 16);
      forall b | 0 <= b < 14
        ensures Bit(m % 0x4000, b) == ((8 <= b < 11 && Bit(k + 1, b - 8)) || Bit(k, b) != Bit(s, b))
      {
        LowerBit(m, 14, 0x4000, b);
        OrBit(a * 0x100, Xor(w, s, 16), 16, b);
        ByteUp(a, b);
        if 8 <= b < 11 {
          LowerBit(k + 1, 3, 8, b - 8);
        }
        XorBit(w, s, 16, b);
        LowerBit(k, 16, 0x1_0000, b);
      }
    }
  }

  // The index of the node in place k, the first and the last node included
  ghost function Idx(seed: Int16, size: nat, k: nat): Int16 {
    if k == 0 then 0 else if k + 2 >= size then 0x7fff else IndexOf(seed, size, k)
  }

  ghost predicate DistinctIndices(seed: Int16, size: nat) {
    forall j, k | 0 <= j < k < size - 1 :: Idx(seed, size, j) != Idx(seed, size, k)
  }

  // The mixed index of place k, in two bytes

  lemma XorBytes(k: nat, s: nat)
    requires k < 0x1_0000 && s < 0x1_0000
    ensures Xor(k, s, 16) / 0x100 == Xor(k / 0x100, s / 0x100, 8)
    ensures Xor(k, s, 16) % 0x100 == Xor(k % 0x100, s % 0x100, 8) < 0x100
  {
    hide *;
    Pow2Values();
    XorSplit(k, s, 8, 8);
    PartsAre(k, 8, 0x100);
    PartsAre(s, 8, 0x100);
    PartsAre(Xor(k, s, 16), 8, 0x100);
    XorInRange(k % 0x100, s % 0x100, 8);
  }

  lemma OrBytes(a: nat, p: nat)
    requires a < 0x100
    ensures Or(a * 0x100, p, 16) / 0x100 == Or(a, p / 0x100, 8) && Or(a * 0x100, p, 16) % 0x100 == p % 0x100
  {
    hide *;
    Pow2Values();
    OrSplit(a * 0x100, p, 8, 8);
    PartsAre(a * 0x100, 8, 0x100);
    PartsAre(p, 8, 0x100);
    PartsAre(Or(a * 0x100, p, 16), 8, 0x100);
    PartsAre(p % 0x100, 8, 0x100);
    WithZero(p % 0x100, 8);
  }

  ghost function Upper(seed: Int16, k: nat): nat { Xor(k % 0x1_0000 / 0x100, seed % 0x1_0000 / 0x100, 8) }
  ghost function Lower(seed: Int16, k: nat): nat { Xor(k % 0x100, seed % 0x100, 8) }

  lemma LowByte(x: int)
    ensures x % 0x1_0000 % 0x100 == x % 0x100
  {
    var q, r := x / 0x1_0000, x % 0x1_0000;
    var t, u := r / 0x100, r % 0x100;
    assert x == 0x100 * (0x100 * q + t) + u;
    SameRemainder(x, 0x100 * q + t, u);
  }

  lemma SameRemainder(x: int, h: int, u: int)
    requires x == 0x100 * h + u && 0 <= u < 0x100
    ensures x % 0x100 == u
  {
  }

  lemma MixedIndex(seed: Int16, size: nat, k: nat)
    requires size / 5 <= k
    ensures IndexOf(seed, size, k) == 0x100 * (Or((k + 1) % 8, Upper(seed, k), 8) % 64) + Lower(seed, k)
    ensures Lower(seed, k) < 0x100
  {
    hide Or, Xor;
    var s, a, w := seed % 0x1_0000, (k + 1) % 8, k % 0x1_0000;
    XorBytes(w, s);
    OrBytes(a, Xor(w, s, 16));
    LowByte(k);
    LowByte(seed);
    TwoBytes(Or(a * 0x100, Xor(w, s, 16), 16));
  }

  lemma TwoBytes(x: nat)
    ensures x % 0x4000 == 0x100 * (x / 0x100 % 64) + x % 0x100
  {
  }

  // Indices of neighbouring blocks of 256

  lemma OrOdd(a: nat, x: nat, y: nat)
    requires a % 2 == 1 && x / 2 == y / 2
    ensures Or(a, x, 8) == Or(a, y, 8)
  {
    OrStep(a, x, 8);
    OrStep(a, y, 8);
    hide Or;
  }

  // An even place and the one 256 further on, the blocks being 2 n and 2 n + 1, get the same index:
  // they differ in a bit that the odd number in the upper byte covers
  lemma SameMixed(seed: Int16, size: nat, k: nat)
    requires size / 5 <= k && k % 2 == 0 && k / 0x100 % 2 == 0
    ensures IndexOf(seed, size, k) == IndexOf(seed, size, k + 0x100)
  {
    hide Or, Xor, IndexOf;
    MixedIndex(seed, size, k);
    MixedIndex(seed, size, k + 0x100);
    var h := seed % 0x1_0000 / 0x100;
    Block(k);
    XorStep(k % 0x1_0000 / 0x100, h, 8);
    XorStep((k + 0x100) % 0x1_0000 / 0x100, h, 8);
    OrOdd((k + 1) % 8, Upper(seed, k), Upper(seed, k + 0x100));
  }

  lemma Block(k: nat)
    requires k % 2 == 0 && k / 0x100 % 2 == 0
    ensures (k + 0x100) % 0x100 == k % 0x100 && (k + 0x100 + 1) % 8 == (k + 1) % 8 && (k + 1) % 8 % 2 == 1
    ensures (k + 0x100) % 0x1_0000 / 0x100 / 2 == k % 0x1_0000 / 0x100 / 2
  {
    var q, t := k / 0x100, k % 0x100;
    assert k == 0x100 * q + t && q == 2 * (q / 2);
    var m := q / 2;
    assert k == 0x200 * m + t;
    EvenPlace(k);
    NextBlock(k);
    BlockOf(m, t);
    BlockOf(m, t + 0x100);
  }

  lemma NextBlock(k: nat)
    ensures (k + 0x100) % 0x100 == k % 0x100
    ensures (k + 0x100 + 1) % 8 == (k + 1) % 8
  {
    var q, t := (k + 1) / 8, (k + 1) % 8;
    assert k + 0x100 + 1 == 8 * (q + 0x20) + t;
  }

  lemma EvenPlace(k: nat)
    requires k % 2 == 0
    ensures (k + 1) % 8 % 2 == 1
  {
    var h, q, t := k / 2, (k + 1) / 8, (k + 1) % 8;
    assert k == 2 * h && k + 1 == 8 * q + t;
    assert t == 2 * (h - 4 * q) + 1;
  }

  lemma BlockOf(m: nat, r: nat)
    requires r < 0x200
    ensures (0x200 * m + r) % 0x1_0000 / 0x100 / 2 == m % 0x80
  {
    var q, t := m / 0x80, m % 0x80;
    var low := 0x200 * t + r;
    assert m == 0x80 * q + t && 0x200 * m + r == 0x1_0000 * q + low;
    DivMod(0x200 * m + r, 0x1_0000, q, low);
    var h := 2 * t + r / 0x100;
    assert low == 0x100 * h + r % 0x100;
    DivMod(low, 0x100, h, r % 0x100);
    DivMod(h, 2, t, r / 0x100);
  }

  // Such a pair exists from 323 blocks on
  predicate IsPair(size: nat, k: nat) {
    0 < k && size / 5 <= k && k % 2 == 0 && k / 0x100 % 2 == 0 && k + 0x100 < size - 2
  }

  lemma PairPlace(size: nat) returns (k: nat)
    requires size >= 323
    ensures IsPair(size, k)
  {
    var q := size / 5;
    if q < 255 {
      k := if q % 2 == 0 then q else q + 1;
      assert k < 0x100;
    } else {
      var m := (q + 0x1ff) / 0x200;
      k := 0x200 * m;
      EvenBlock(m);
    }
  }

  lemma EvenBlock(m: nat)
    ensures 0x200 * m % 2 == 0 && 0x200 * m / 0x100 % 2 == 0
  {
    assert 0x200 * m == 0x100 * (2 * m);
  }

  lemma ManyRepeat(seed: Int16, size: nat)
    requires size >= 323
    ensures !DistinctIndices(seed, size)
  {
    hide IndexOf;
    var k := PairPlace(size);
    SameMixed(seed, size, k);
    assert Idx(seed, size, k) == Idx(seed, size, k + 0x100);
  }

  // The upper byte of a mixed index is zero exactly for every eighth node, and with a seed that
  // has these bits zero
  lemma UpperZero(a: nat, h: nat)
    requires a < 8
    ensures Or(a, h, 8) % 64 == 0 <==> a == 0 && h % 64 == 0
  {
    hide *;
    Pow2Values();
    OrSplit(a, h, 6, 2);
    OrZero(LowPart(a, 6), LowPart(h, 6), 6);
    PartsAre(a, 6, 64);
    PartsAre(h, 6, 64);
    PartsAre(a % 64, 6, 64);
    PartsAre(h % 64, 6, 64);
    PartsAre(Or(a, h, 8), 6, 64);
  }

  lemma {:induction false} XorIsZero(x: nat, y: nat, n: nat)
    ensures Xor(x, y, n) == 0 <==> LowPart(x, n) == LowPart(y, n)
  {
    if n > 0 {
      XorIsZero(x / 2, y / 2, n - 1);
      XorStep(x, y, n);
      LowStep(x, n);
      LowStep(y, n);
      OddSum(x, y);
    }
  }

  lemma UpperMatches(x: nat, h: nat)
    ensures Xor(x, h, 8) % 64 == 0 <==> x % 64 == h % 64
  {
    hide *;
    Pow2Values();
    XorSplit(x, h, 6, 2);
    XorIsZero(LowPart(x, 6), LowPart(h, 6), 6);
    PartsAre(x, 6, 64);
    PartsAre(h, 6, 64);
    PartsAre(x % 64, 6, 64);
    PartsAre(h % 64, 6, 64);
    PartsAre(Xor(x, h, 8), 6, 64);
  }

  // The number of indices given in order, that of the head included
  function InOrder(size: nat): nat { if size < 10 then 1 else size / 5 }

  // Whether the mixed index of place k falls among those given in order
  predicate Collides(seed: Int16, size: nat, k: nat) {
    && (k + 1) % 8 == 0 && seed % 0x1_0000 / 0x100 % 64 == k / 0x100
    && Xor(k % 0x100, seed % 0x100, 8) < InOrder(size)
  }

  lemma MixedApart(seed: Int16, size: nat, j: nat, k: nat)
    requires size / 5 <= j < k < j + 0x100
    ensures IndexOf(seed, size, j) != IndexOf(seed, size, k)
  {
    hide *;
    MixedIndex(seed, size, j);
    MixedIndex(seed, size, k);
    LowerApart(seed, j, k);
    TwoBytesApart(Or((j + 1) % 8, Upper(seed, j), 8) % 64, Lower(seed, j),
                  Or((k + 1) % 8, Upper(seed, k), 8) % 64, Lower(seed, k));
  }

  lemma TwoBytesApart(a: nat, b: nat, c: nat, d: nat)
    requires b < 0x100 && d < 0x100 && b != d
    ensures 0x100 * a + b != 0x100 * c + d
  {
  }

  lemma LowerApart(seed: Int16, j: nat, k: nat)
    requires j < k < j + 0x100
    ensures Lower(seed, j) != Lower(seed, k)
  {
    hide Xor;
    Pow2Values();
    XorTwice(j % 0x100, seed % 0x100, 8);
    XorTwice(k % 0x100, seed % 0x100, 8);
  }

  lemma MixedCollides(seed: Int16, size: nat, j: nat, k: nat)
    requires size / 5 <= k < 0x4000 && 3 <= size <= 322 && j < InOrder(size)
    ensures IndexOf(seed, size, k) == j ==> Collides(seed, size, k)
    ensures Collides(seed, size, k) && Xor(k % 0x100, seed % 0x100, 8) == j ==> IndexOf(seed, size, k) == j
  {
    hide Or, Xor, IndexOf;
    MixedIndex(seed, size, k);
    UpperZero((k + 1) % 8, Upper(seed, k));
    UpperMatches(k / 0x100, seed % 0x1_0000 / 0x100);
    TwoBytesSmall(Or((k + 1) % 8, Upper(seed, k), 8) % 64, Lower(seed, k), j);
  }

  lemma TwoBytesSmall(a: nat, b: nat, j: nat)
    requires b < 0x100 && j < 0x100
    ensures 0x100 * a + b == j <==> a == 0 && b == j
  {
  }

  lemma IndicesApart(seed: Int16, size: nat, j: nat, k: nat)
    requires 3 <= size <= 322 && j < k < size - 1
    requires k < size - 2 && size / 5 <= k ==> !Collides(seed, size, k)
    ensures Idx(seed, size, j) != Idx(seed, size, k)
  {
    hide IndexOf, Collides;
    if k == size - 2 {
      IndexSmall(seed, size, j);
    } else if k >= size / 5 {
      if j == 0 || j < size / 5 {
        if j > 0 {
          SmallIndex(seed, size, j);
        }
        MixedCollides(seed, size, j, k);
      } else {
        MixedApart(seed, size, j, k);
      }
    } else {
      SmallIndex(seed, size, j);
      SmallIndex(seed, size, k);
    }
  }

  lemma SmallIndex(seed: Int16, size: nat, j: nat)
    requires j < size / 5 <= 0x8000
    ensures IndexOf(seed, size, j) == j
  {
  }

  lemma IndexSmall(seed: Int16, size: nat, k: nat)
    requires size <= 0x8000
    ensures 0 <= IndexOf(seed, size, k) < 0x4000
  {
    hide Or, Xor;
  }

  lemma CollisionRepeats(seed: Int16, size: nat, k: nat)
    requires 3 <= size <= 322 && 0 < k < size - 2 && size / 5 <= k && Collides(seed, size, k)
    ensures !DistinctIndices(seed, size)
  {
    hide Xor, IndexOf;
    var j := Xor(k % 0x100, seed % 0x100, 8);
    MixedCollides(seed, size, j, k);
    if j > 0 {
      SmallIndex(seed, size, j);
    }
    assert Idx(seed, size, j) == j == Idx(seed, size, k);
  }

  // No index is given twice exactly when there are at most 322 blocks and no mixed index falls among
  // those given in order
  lemma IndicesDistinct(seed: Int16, size: nat)
    requires size >= 3
    ensures DistinctIndices(seed, size) <==>
      size <= 322 && forall k | 0 < k < size - 2 && size / 5 <= k :: !Collides(seed, size, k)
  {
    hide Collides;
    if size > 322 {
      ManyRepeat(seed, size);
    } else if k :| 0 < k < size - 2 && size / 5 <= k && Collides(seed, size, k) {
      CollisionRepeats(seed, size, k);
    } else {
      hide Idx;
      forall j, k | 0 <= j < k < size - 1
        ensures Idx(seed, size, j) != Idx(seed, size, k)
      {
        IndicesApart(seed, size, j, k);
      }
    }
  }

  // Every eighth node of a list of 31 blocks is one of three
  lemma ThreeNodes(seed: Int16)
    requires seed % 0x1_0000 / 0x100 % 64 != 0 ||
      (Xor(7, seed % 0x100, 8) >= 6 && Xor(15, seed % 0x100, 8) >= 6 && Xor(23, seed % 0x100, 8) >= 6)
    ensures DistinctIndices(seed, 31)
  {
    hide Xor, DistinctIndices;
    IndicesDistinct(seed, 31);
    forall k | 0 < k < 29 && 6 <= k
      ensures !Collides(seed, 31, k)
    {
      if (k + 1) % 8 == 0 {
        assert k == 7 || k == 15 || k == 23;
      }
    }
  }

  // The sizes and seeds of the benchmark's own runs: no index is given twice
  lemma BenchmarkSeeds()
    ensures DistinctIndices(0, 31) && DistinctIndices(8, 31) && DistinctIndices(0x3415, 31)
  {
    hide *;
    XorExamples();
    ThreeNodes(0);
    ThreeNodes(8);
    ThreeNodes(0x3415);
  }

  lemma XorExamples()
    ensures Xor(7, 0, 8) == 7 && Xor(15, 0, 8) == 15 && Xor(23, 0, 8) == 23
    ensures Xor(7, 8, 8) == 15 && Xor(15, 8, 8) == 7 && Xor(23, 8, 8) == 31
    ensures Xor(7, 2, 8) == 5
  {
    hide Xor;
    XorSeven();
    XorFifteen();
    XorTwentyThree();
  }

  lemma {:induction false} XorZero(n: nat)
    ensures Xor(0, 0, n) == 0
  {
    if n > 0 {
      XorZero(n - 1);
    }
  }

  lemma XorSeven()
    ensures Xor(7, 0, 8) == 7 && Xor(7, 8, 8) == 15 && Xor(7, 2, 8) == 5
  {
    hide Xor;
    XorZero(3);
    XorStep(7, 0, 8);
    XorStep(3, 0, 7);
    XorStep(1, 0, 6);
    XorStep(0, 0, 5);
    XorStep(0, 0, 4);
    XorStep(7, 8, 8);
    XorStep(3, 4, 7);
    XorStep(1, 2, 6);
    XorStep(0, 1, 5);
    XorStep(7, 2, 8);
    XorStep(3, 1, 7);
  }

  lemma XorFifteen()
    ensures Xor(15, 0, 8) == 15 && Xor(15, 8, 8) == 7
  {
    hide Xor;
    XorZero(3);
    XorStep(15, 0, 8);
    XorStep(7, 0, 7);
    XorStep(3, 0, 6);
    XorStep(1, 0, 5);
    XorStep(0, 0, 4);
    XorStep(15, 8, 8);
    XorStep(7, 4, 7);
    XorStep(3, 2, 6);
    XorStep(1, 1, 5);
  }

  lemma XorTwentyThree()
    ensures Xor(23, 0, 8) == 23 && Xor(23, 8, 8) == 31
  {
    hide Xor;
    XorZero(3);
    XorStep(23, 0, 8);
    XorStep(11, 0, 7);
    XorStep(5, 0, 6);
    XorStep(2, 0, 5);
    XorStep(1, 0, 4);
    XorStep(23, 8, 8);
    XorStep(11, 4, 7);
    XorStep(5, 2, 6);
    XorStep(2, 1, 5);
  }

  // A seed that gives one twice
  lemma SeedOfCollision()
    ensures !DistinctIndices(2, 31)
  {
    hide Xor, DistinctIndices;
    XorExamples();
    IndicesDistinct(2, 31);
    assert Collides(2, 31, 7);
  }
}
