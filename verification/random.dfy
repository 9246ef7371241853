// sw/scimark2/Random.c: the table of a 17-slot lagged Fibonacci generator, filled by a linear
// congruential one. The factor that scales results is an exact real here.
module Random {
  import opened MachineInts

  const M1 := 0x7fff_ffff
  const M2 := 0x1_0000

  // The division of the source language truncates towards zero
  function Div(a: int, b: int): int
    requires b > 0
  {
    if a >= 0 then a / b else -(-a / b)
  }

  function Rem(a: int, b: int): int
    requires b > 0
  {
    if a >= 0 then a % b else -(-a % b)
  }

  ghost function Power(b: nat, n: nat): nat {
    if n == 0 then 1 else b * Power(b, n - 1)
  }

  // The odd number the table is grown from; it is 1 for the seed 0 as well, with entries negated
  ghost function Start(seed: Int32): (r: nat)
    ensures r <= 0x8000_0000
  {
    var s: int := if seed < 0 then -(seed as int) else seed;
    if s == 0 then 1 else if s >= M1 then M1 else if s % 2 == 0 then s - 1 else s
  }

  ghost function Grown(seed: Int32, n: nat): (r: nat)
    ensures seed != -0x8000_0000 ==> r < 0x8000_0000
  {
    if n == 0 then Start(seed) else Grown(seed, n - 1) * 9069 % 0x8000_0000
  }

  type Slots = m: seq<int> | |m| == 17 witness seq(17, _ => 0)

  ghost function Table(seed: Int32): (m: Slots) {
    seq(17, i requires 0 <= i < 17 => Signed(seed, i + 1))
  }

  ghost function Signed(seed: Int32, n: nat): int {
    if seed == 0 then -(Grown(seed, n) as int) else Grown(seed, n)
  }

  // Entry n - 1 of the table in closed form
  lemma {:induction false} GrownClosed(seed: Int32, n: nat)
    requires seed != -0x8000_0000
    ensures Grown(seed, n) == Start(seed) * Power(9069, n) % 0x8000_0000
  {
    if n > 0 {
      GrownClosed(seed, n - 1);
      Regroup(Start(seed), Power(9069, n - 1));
      ModTimes(Start(seed) * Power(9069, n - 1));
    }
  }

  lemma Regroup(a: nat, p: nat)
    ensures a * (9069 * p) == a * p * 9069
  {
  }

  lemma ModTimes(x: int)
    ensures x % 0x8000_0000 * 9069 % 0x8000_0000 == x * 9069 % 0x8000_0000
  {
    var q := x / 0x8000_0000;
    assert x * 9069 == 0x8000_0000 * (9069 * q) + x % 0x8000_0000 * 9069;
    ModPlus(x % 0x8000_0000 * 9069, 9069 * q);
  }

  lemma ModPlus(x: int, k: int)
    ensures (0x8000_0000 * k + x) % 0x8000_0000 == x % 0x8000_0000
  {
  }

  // 31-bit multiplication by 9069 on halves of 16 and 15 bits
  lemma SplitProduct(v: nat)
    ensures var t, w := v % 0x1_0000 * 9069, v * 9069 % 0x8000_0000;
      t % 0x1_0000 == w % 0x1_0000 && (t / 0x1_0000 + v / 0x1_0000 * 9069) % 0x8000 == w / 0x1_0000
  {
    var t := v % 0x1_0000 * 9069;
    var y := t / 0x1_0000 + v / 0x1_0000 * 9069;
    var low := y % 0x8000 * 0x1_0000 + t % 0x1_0000;
    assert v * 9069 == y * 0x1_0000 + t % 0x1_0000;
    assert v * 9069 == 0x8000_0000 * (y / 0x8000) + low;
    ModPlus(low, y / 0x8000);
    Halves(y % 0x8000, t % 0x1_0000);
  }

  lemma Halves(high: nat, low: nat)
    requires high < 0x8000 && low < 0x1_0000
    ensures var x := high * 0x1_0000 + low; x / 0x1_0000 == high && x % 0x1_0000 == low && x % 0x8000_0000 == x
  {
  }

  lemma FirstHalves(seed: Int32)
    requires seed != -0x8000_0000
    ensures var s: int := if seed < 0 then -(seed as int) else seed; var j := if s < M1 then s else M1;
      Signed(seed, 0) == if Rem(j, 2) == 0 then j - 1 else j
    ensures Rem(9069, M2) == 9069 && Div(9069, M2) == 0
    ensures forall j: Int32 :: -0x8000_0000 <= Rem(j, M2) < 0x8000_0000 && -0x8000_0000 <= Div(j, M2) < 0x8000_0000
  {
  }

  ghost predicate HalvesOf(x: int, j0: int, j1: int) {
    j0 == Rem(x, M2) && j1 == Div(x, M2)
  }

  // One turn of the loop that fills the table; every sum and product is an Int32
  method NextEntry(j0: Int32, j1: Int32, k0: Int32, k1: Int32, ghost seed: Int32, ghost n: nat)
      returns (x: Int32, j0': Int32, j1': Int32)
    requires seed != -0x8000_0000 && HalvesOf(Signed(seed, n), j0, j1) && k0 == 9069 && k1 == 0
    ensures HalvesOf(Signed(seed, n + 1), j0', j1') && x == Signed(seed, n + 1)
  {
    ghost var t, y, w := NextHalves(seed, n);
    hide Div, Rem, Signed;
    var jseed: Int32 := j0 * k0;
    var low: Int32 := Div(jseed, M2) + j0 * k1;
    var high: Int32 := j1 * k0;
    var sum: Int32 := low + high;
    j1' := Rem(sum, Div(M2, 2));
    j0' := Rem(jseed, M2);
    var upper: Int32 := M2 * j1';
    x := j0' + upper;
  }

  // What that turn computes, up to the sign: the products of the halves and the entry w they make
  lemma NextHalves(seed: Int32, n: nat) returns (t: nat, y: nat, w: nat)
    requires seed != -0x8000_0000
    ensures var s := if seed == 0 then -1 else 1;
      && Rem(Signed(seed, n), M2) * 9069 == s * t && t < 0x8000_0000
      && Rem(s * t, M2) == s * (t % M2) && Div(s * t, M2) == s * (t / M2)
      && Div(Signed(seed, n), M2) * 9069 + s * (t / M2) == s * y && y < 0x8000_0000
      && Rem(s * y, 0x8000) == s * (y % 0x8000)
      && w == t % M2 + M2 * (y % 0x8000) && Signed(seed, n + 1) == s * w
      && Rem(s * w, M2) == s * (t % M2) && Div(s * w, M2) == s * (y % 0x8000)
    ensures Div(M2, 2) == 0x8000
  {
    hide Grown, Div, Rem;
    GrownNext(seed, n);
    HalfOfM2();
    var v: nat := Grown(seed, n);
    t := v % M2 * 9069;
    y := t / M2 + v / M2 * 9069;
    w := v * 9069 % 0x8000_0000;
    SplitProduct(v);
    Truncates(v, M2);
    Truncates(t, M2);
    Truncates(y, 0x8000);
    Truncates(w, M2);
  }

  lemma HalfOfM2()
    ensures Div(M2, 2) == 0x8000
  {
  }

  lemma GrownNext(seed: Int32, n: nat)
    requires seed != -0x8000_0000
    ensures Grown(seed, n + 1) == Grown(seed, n) * 9069 % 0x8000_0000
  {
  }

  lemma Truncates(x: nat, b: nat)
    requires b > 0
    ensures Div(x, b) == x / b && Div(-(x as int), b) == -(x / b)
    ensures Rem(x, b) == x % b && Rem(-(x as int), b) == -(x % b)
  {
  }

  lemma {:induction false} GrownOdd(seed: Int32, n: nat)
    requires seed != -0x8000_0000
    ensures Grown(seed, n) % 2 == 1
  {
    if n > 0 {
      GrownOdd(seed, n - 1);
      OddProduct(Grown(seed, n - 1));
    }
  }

  lemma OddProduct(x: nat)
    requires x % 2 == 1
    ensures x * 9069 % 0x8000_0000 % 2 == 1
  {
    var y := x * 9069;
    assert y == 2 * (9069 * (x / 2) + 4534) + 1;
    assert y == 2 * (0x4000_0000 * (y / 0x8000_0000)) + y % 0x8000_0000;
  }

  // The entries are odd; they are numbers the generator can start from exactly when the seed is not 0
  lemma TableEntries(seed: Int32)
    requires seed != -0x8000_0000
    ensures forall i | 0 <= i < 17 :: Table(seed)[i] % 2 == 1
    ensures InRange(Table(seed), M1) <==> seed != 0
  {
    hide Grown, Table, Signed;
    forall i | 0 <= i < 17
      ensures Table(seed)[i] % 2 == 1 && -M1 <= Table(seed)[i] <= M1 && (Table(seed)[i] > 0 <==> seed != 0)
    {
      TableEntry(seed, i);
    }
    assert Table(seed)[0] > 0 <==> seed != 0;
  }

  lemma TableEntry(seed: Int32, i: nat)
    requires seed != -0x8000_0000 && i < 17
    ensures var x := Table(seed)[i]; x % 2 == 1 && -M1 <= x <= M1 && (x > 0 <==> seed != 0) && x != 0
  {
    hide Grown;
    GrownOdd(seed, i + 1);
    var g := Grown(seed, i + 1);
    assert Table(seed)[i] == Signed(seed, i + 1);
    hide Table;
    assert g % 2 == 1 && g < 0x8000_0000;
  }

  ghost predicate InRange(m0: Slots, limit: int) {
    forall p | 0 <= p < 17 :: 0 <= m0[p] <= limit
  }

  // The numbers in the order of their generation, the table being the first 17 from its end
  ghost function Stream(m0: Slots, k: nat): int {
    if k < 17 then m0[16 - k] else
      var d := Stream(m0, k - 5) - Stream(m0, k - 17);
      if d < 0 then d + M1 else d
  }

  lemma {:induction false} StreamInRange(m0: Slots, limit: int, k: nat)
    requires InRange(m0, limit) && M1 - 1 <= limit <= M1
    ensures 0 <= Stream(m0, k) <= limit
  {
    if k >= 17 {
      StreamInRange(m0, limit, k - 5);
      StreamInRange(m0, limit, k - 17);
    }
  }

  // The lagged Fibonacci recurrence
  lemma StreamRecurrence(m0: Slots, k: nat)
    requires InRange(m0, M1) && k >= 17
    ensures (Stream(m0, k) - (Stream(m0, k - 5) - Stream(m0, k - 17))) % M1 == 0
  {
    hide Stream;
    StreamNext(m0, k);
  }

  lemma StreamNext(m0: Slots, k: nat)
    requires k >= 17
    ensures var d := Stream(m0, k - 5) - Stream(m0, k - 17); Stream(m0, k) == if d < 0 then d + M1 else d
  {
  }

  // The largest number, whose scaled value is 1, is kept out for good exactly when the table has none
  lemma StreamBelow(m0: Slots)
    requires InRange(m0, M1)
    ensures (forall k: nat :: Stream(m0, k) < M1) <==> M1 !in m0
  {
    if M1 in m0 {
      var p :| 0 <= p < 17 && m0[p] == M1;
      assert Stream(m0, 16 - p) == M1;
    } else {
      forall k: nat
        ensures Stream(m0, k) < M1
      {
        StreamInRange(m0, M1 - 1, k);
      }
    }
  }

  // A seed whose table has it
  lemma SeedOfTop()
    ensures Table(122659227)[0] == M1
  {
    assert Grown(122659227, 1) == Grown(122659227, 0) * 9069 % 0x8000_0000;
  }

  // The slot of the k-th number
  function Slot(k: nat): (p: nat)
    ensures p < 17
  {
    16 - k % 17
  }

  lemma SlotsApart(t: nat, k: nat)
    requires t < k < t + 17
    ensures Slot(k) != Slot(t)
  {
  }

  lemma SlotsRepeat(t: nat)
    ensures Slot(t + 17) == Slot(t)
    ensures Slot(t + 1) == if Slot(t) == 0 then 16 else Slot(t) - 1
  {
  }

  // The 17 numbers from the t-th on, each in its slot
  ghost predicate Holding(m: seq<int>, m0: Slots, t: nat) {
    |m| == 17 && forall k | t <= k < t + 17 :: m[Slot(k)] == Stream(m0, k)
  }

  lemma HoldingNext(m: seq<int>, m0: Slots, t: nat)
    requires Holding(m, m0, t)
    ensures Holding(m[Slot(t) := Stream(m0, t + 17)], m0, t + 1)
  {
    hide Stream, Slot;
    var m' := m[Slot(t) := Stream(m0, t + 17)];
    forall k | t + 1 <= k < t + 1 + 17
      ensures m'[Slot(k)] == Stream(m0, k)
    {
      if k == t + 17 {
        SlotsRepeat(t);
      } else {
        SlotsApart(t, k);
      }
    }
  }

  lemma TableHolds(seed: Int32)
    requires seed != -0x8000_0000 && seed != 0
    ensures InRange(Table(seed), M1) && Holding(Table(seed), Table(seed), 0) && Slot(12) == 4 && Slot(0) == 16
  {
    TableEntries(seed);
    hide Table;
  }

  function Scale(k: int, haveRange: bool, left: real, width: real): real {
    if haveRange then left + 1.0 / M1 as real * k as real * width else 1.0 / M1 as real * k as real
  }

  // The number of k is k parts of 2^31 - 1 from the left end on
  lemma ScaleMeans(k: int, haveRange: bool, left: real, width: real)
    ensures !haveRange ==> Scale(k, haveRange, left, width) * 2147483647.0 == k as real
    ensures haveRange ==> (Scale(k, haveRange, left, width) - left) * 2147483647.0 == k as real * width
  {
    var q, x := 1.0 / M1 as real, k as real;
    assert q * 2147483647.0 == 1.0;
    if haveRange {
      assert (Scale(k, haveRange, left, width) - left) == q * x * width;
      Cancel(q, x, width, 2147483647.0);
    } else {
      Cancel(q, x, 1.0, 2147483647.0);
    }
  }

  lemma Cancel(q: real, x: real, w: real, m: real)
    requires q * m == 1.0
    ensures q * x * w * m == x * w
  {
    assert q * x * w * m == (q * m) * (x * w);
  }

  function Part(x: real, w: real): real { x * w }

  lemma PartGrows(x: real, y: real, w: real)
    requires x <= y && w >= 0.0
    ensures Part(x, w) <= Part(y, w) && (x < y && w > 0.0 ==> Part(x, w) < Part(y, w))
  {
    var d := y - x;
    assert d * w >= 0.0 && (d > 0.0 && w > 0.0 ==> d * w > 0.0);
    assert Part(y, w) == (x + d) * w == x * w + d * w;
  }

  lemma PartEnds(w: real)
    ensures Part(0.0, w) == 0.0 && Part(2147483647.0, w) == 2147483647.0 * w
  {
  }

  lemma ScaleOfRange(k: int, left: real, width: real)
    ensures (Scale(k, true, left, width) - left) * 2147483647.0 == Part(k as real, width)
  {
    ScaleMeans(k, true, left, width);
  }

  lemma Ordered(a: real, b: real, x: real, y: real)
    requires a * 2147483647.0 == x && b * 2147483647.0 == y
    ensures (a < b <==> x < y) && (a == b <==> x == y)
  {
  }

  lemma RealsGrow(k: int, l: int)
    requires k <= l
    ensures k as real <= l as real && (k < l ==> (k as real < l as real))
  {
  }

  // It lies in the range, grows with k, and reaches both ends

  lemma ScaleInUnit(k: int, left: real, width: real)
    requires 0 <= k <= 0x7fff_ffff
    ensures var r := Scale(k, false, left, width);
      0.0 <= r <= 1.0 && (r == 0.0 <==> k == 0) && (r == 1.0 <==> k == 0x7fff_ffff)
  {
    hide Scale;
    ScaleMeans(k, false, left, width);
    var r := Scale(k, false, left, width);
    Ordered(0.0, r, 0.0, k as real);
    Ordered(r, 1.0, k as real, 2147483647.0);
  }

  lemma ScaleInRange(k: int, left: real, width: real)
    requires 0 <= k <= 0x7fff_ffff
    ensures var r := Scale(k, true, left, width);
      && (width >= 0.0 ==> left <= r <= left + width) && (k == 0 ==> r == left)
      && (k == 0x7fff_ffff ==> r == left + width)
  {
    hide Scale, Part;
    ScaleOfRange(k, left, width);
    PartEnds(width);
    var r := Scale(k, true, left, width);
    Ordered(0.0, r - left, 0.0, Part(k as real, width));
    Ordered(r - left, width, Part(k as real, width), 2147483647.0 * width);
    if width >= 0.0 {
      RealsGrow(0, k);
      RealsGrow(k, 0x7fff_ffff);
      PartGrows(0.0, k as real, width);
      PartGrows(k as real, 2147483647.0, width);
    }
  }

  lemma ScaleGrows(k: int, l: int, haveRange: bool, left: real, width: real)
    requires k < l && (haveRange ==> width > 0.0)
    ensures Scale(k, haveRange, left, width) < Scale(l, haveRange, left, width)
  {
    hide Scale, Part;
    RealsGrow(k, l);
    if haveRange {
      ScaleOfRange(k, left, width);
      ScaleOfRange(l, left, width);
      PartGrows(k as real, l as real, width);
      Ordered(Scale(k, true, left, width) - left, Scale(l, true, left, width) - left, Part(k as real, width),
              Part(l as real, width));
    } else {
      ScaleMeans(k, false, left, width);
      ScaleMeans(l, false, left, width);
      Ordered(Scale(k, false, left, width), Scale(l, false, left, width), k as real, l as real);
    }
  }

  class State {
    const m: array<Int32>
    var seed: Int32
    var i: nat
    var j: nat
    var left: real
    var width: real
    var haveRange: bool

    // t numbers have been drawn since the table was m0
    ghost predicate Holds(m0: Slots, t: nat)
      reads this`i, this`j, m
    {
      InRange(m0, M1) && i == Slot(t + 12) && j == Slot(t) && Holding(m[..], m0, t)
    }

    ghost function Scaled(k: int): real
      reads this`left, this`width, this`haveRange
    {
      Scale(k, haveRange, left, width)
    }

    constructor WithSeed(seed: Int32)
      requires seed != -0x8000_0000
      ensures fresh(m) && this.seed == seed && !haveRange
      ensures m.Length == 17 && m[..] == Table(seed)
      ensures seed != 0 ==> Holds(Table(seed), 0)
    {
      m := new Int32[17];
      left, width, haveRange := 0.0, 1.0, false;
      new;
      Initialize(seed);
    }

    constructor WithRange(seed: Int32, left: real, right: real)
      requires seed != -0x8000_0000
      ensures fresh(m) && this.seed == seed && haveRange && this.left == left && width == right - left
      ensures m.Length == 17 && m[..] == Table(seed)
      ensures seed != 0 ==> Holds(Table(seed), 0)
    {
      m := new Int32[17];
      this.left, width, haveRange := left, right - left, true;
      new;
      Initialize(seed);
    }

    method Initialize(seed0: Int32)
      requires seed0 != -0x8000_0000 && m.Length == 17
      modifies this`seed, this`i, this`j, m
      ensures seed == seed0 && m[..] == Table(seed0)
      ensures seed0 != 0 ==> Holds(Table(seed0), 0)
    {
      hide Signed, Start, Grown, InRange, Slot, Holding, Div, Rem;
      seed := seed0;
      FirstHalves(seed0);
      var s: Int32 := if seed0 < 0 then -seed0 else seed0;
      var jseed: Int32 := if s < M1 then s else M1;
      if Rem(jseed, 2) == 0 {
        jseed := jseed - 1;
      }
      assert jseed == Signed(seed0, 0);
      var k0: Int32 := Rem(9069, M2);
      var k1: Int32 := Div(9069, M2);
      var j0: Int32 := Rem(jseed, M2);
      var j1: Int32 := Div(jseed, M2);
      var iloop := 0;
      while iloop < 17
        invariant 0 <= iloop <= 17 && seed == seed0
        invariant HalvesOf(Signed(seed0, iloop), j0, j1)
        invariant forall p | 0 <= p < iloop :: m[p] == Table(seed0)[p]
      {
        var x;
        x, j0, j1 := NextEntry(j0, j1, k0, k1, seed0, iloop);
        m[iloop] := x;
        iloop := iloop + 1;
      }
      i := 4;
      j := 16;
      assert m[..] == Table(seed0);
      if seed0 != 0 {
        TableHolds(seed0);
      }
    }

    // The integer behind the next random number
    method NextInt(ghost m0: Slots, ghost t: nat) returns (k: Int32)
      requires Holds(m0, t)
      modifies this`i, this`j, m
      ensures Holds(m0, t + 1) && k == Stream(m0, t + 17)
    {
      StreamInRange(m0, M1, t);
      StreamInRange(m0, M1, t + 12);
      StreamNext(m0, t + 17);
      HoldingNext(m[..], m0, t);
      SlotsRepeat(t);
      SlotsRepeat(t + 12);
      hide Stream, Slot, InRange;
      var I, J := i, j;
      assert m[..][I] == Stream(m0, t + 12) && m[..][J] == Stream(m0, t);
      k := m[I] - m[J];
      if k < 0 {
        k := k + M1;
      }
      m[J] := k;
      if I == 0 {
        I := 16;
      } else {
        I := I - 1;
      }
      i := I;
      if J == 0 {
        J := 16;
      } else {
        J := J - 1;
      }
      j := J;
    }

    // One more number of the stream, scaled
    method NextDouble(ghost m0: Slots, ghost t: nat) returns (r: real)
      requires Holds(m0, t)
      modifies this`i, this`j, m
      ensures Holds(m0, t + 1) && r == Scaled(Stream(m0, t + 17))
      ensures !haveRange ==> 0.0 <= r <= 1.0
      ensures haveRange && width >= 0.0 ==> left <= r <= left + width
    {
      StreamInRange(m0, M1, t + 17);
      hide Stream, Holds, Scale;
      var k := NextInt(m0, t);
      ScaleInUnit(k, left, width);
      ScaleInRange(k, left, width);
      r := Scale(k, haveRange, left, width);
    }

    method Vector(N: nat, ghost m0: Slots, ghost t: nat) returns (x: array<real>)
      requires Holds(m0, t)
      modifies this`i, this`j, m
      ensures Holds(m0, t + N) && fresh(x) && x.Length == N
      ensures forall n | 0 <= n < N :: x[n] == Scaled(Stream(m0, t + 17 + n))
    {
      hide Stream, Holds, Scale;
      x := new real[N];
      var n := 0;
      while n < N
        invariant 0 <= n <= N && Holds(m0, t + n)
        invariant forall p | 0 <= p < n :: x[p] == Scaled(Stream(m0, t + 17 + p))
      {
        var r := NextDouble(m0, t + n);
        x[n] := r;
        n := n + 1;
      }
    }
  }
}
