// What a factored matrix says about the original one: the product of its triangles, and the
// independence of its columns.
module LuTheory {
  import opened LuMatrix

  // The triangles packed in a: unit lower and upper

  ghost function Lower(a: Matrix, i: nat, k: nat): real
    requires i < |a| && (k < i ==> k < |a[i]|)
  {
    if k < i then a[i][k] else if k == i then 1.0 else 0.0
  }

  ghost function Upper(a: Matrix, k: nat, c: nat): real
    requires k < |a| && c < |a[k]|
  {
    if k <= c then a[k][c] else 0.0
  }

  // The entry (i, c) of the product of the first h columns of L by the first h rows of U
  ghost function Product(a: Matrix, n: nat, i: nat, c: nat, h: nat): real
    requires Shaped(a, n) && i < |a| && c < n && h <= |a| && h <= n
  {
    if h == 0 then 0.0 else Product(a, n, i, c, h - 1) + Lower(a, i, h - 1) * Upper(a, h - 1, c)
  }

  lemma {:induction false} ProductIsDot(a: Matrix, n: nat, i: nat, c: nat, h: nat)
    requires Shaped(a, n) && i < |a| && c < n && h <= i && h <= c && h <= n
    ensures Product(a, n, i, c, h) == Dot(a, i, c, h)
  {
    if h > 0 {
      ProductIsDot(a, n, i, c, h - 1);
    }
  }

  lemma {:induction false} ProductStops(a: Matrix, n: nat, i: nat, c: nat, h0: nat, h: nat)
    requires Shaped(a, n) && i < |a| && c < n && h0 <= h <= |a| && h <= n && (h0 > i || h0 > c)
    ensures Product(a, n, i, c, h) == Product(a, n, i, c, h0)
  {
    if h > h0 {
      ProductStops(a, n, i, c, h0, h - 1);
      assert Lower(a, i, h - 1) == 0.0 || Upper(a, h - 1, c) == 0.0;
    }
  }

  lemma EntryIsProduct(a: Matrix, n: nat, i: nat, c: nat, j: nat)
    requires Shaped(a, n) && i < |a| && c < n && j <= |a| && j <= n
    ensures Entry(a, n, i, c, j) == Product(a, n, i, c, j) + if i >= j && c >= j then a[i][c] else 0.0
  {
    var h := Min(Min(i, c), j);
    ProductIsDot(a, n, i, c, h);
    if h < j {
      ProductStops(a, n, i, c, h + 1, j);
      assert Product(a, n, i, c, h + 1) == Product(a, n, i, c, h) + Lower(a, i, h) * Upper(a, h, c);
      if i <= c {
        assert Lower(a, i, h) == 1.0;
      }
    }
  }

  // The original rows, in pivot order, are the product of the triangles
  lemma FactoredIsProduct(a: Matrix, b: Matrix, n: nat, i: nat, c: nat)
    requires Factored(a, b, n, Min(|a|, n)) && i < |a| && c < n
    ensures b[i][c] == Product(a, n, i, c, Min(|a|, n))
  {
    EntryIsProduct(a, n, i, c, Min(|a|, n));
  }

  // Linear combinations of columns

  // The sum of row[c] * x[c] for c < h
  ghost function Combine(row: Row, x: Row, h: nat): real
    requires h <= |row| && h <= |x|
  {
    if h == 0 then 0.0 else Combine(row, x, h - 1) + row[h - 1] * x[h - 1]
  }

  // x combines the first |x| columns to zero
  ghost predicate Annihilates(a: Matrix, n: nat, x: Row)
    requires Shaped(a, n) && |x| <= n
  {
    forall r | r in a :: |x| <= |r| && Combine(r, x, |x|) == 0.0
  }

  ghost predicate Independent(a: Matrix, n: nat, h: nat)
    requires Shaped(a, n) && h <= n
  {
    forall x: Row | |x| == h && Annihilates(a, n, x) :: forall c | 0 <= c < h :: x[c] == 0.0
  }

  // The combination of the columns of the upper triangle, in row k
  ghost function Image(a: Matrix, n: nat, x: Row, k: nat, h: nat): real
    requires Shaped(a, n) && k < |a| && h <= n && h <= |x|
  {
    if h == 0 then 0.0 else Image(a, n, x, k, h - 1) + Upper(a, k, h - 1) * x[h - 1]
  }

  ghost function Through(a: Matrix, n: nat, x: Row, i: nat, h: nat, w: nat): real
    requires Shaped(a, n) && i < |a| && h <= |a| && h <= n && w <= n && w <= |x|
  {
    if h == 0 then 0.0 else Through(a, n, x, i, h - 1, w) + Lower(a, i, h - 1) * Image(a, n, x, h - 1, w)
  }

  // The sum over c < w of Product(i, c, h) * x[c]
  ghost function ProductCombine(a: Matrix, n: nat, x: Row, i: nat, h: nat, w: nat): real
    requires Shaped(a, n) && i < |a| && h <= |a| && h <= n && w <= n && w <= |x|
  {
    if w == 0 then 0.0 else ProductCombine(a, n, x, i, h, w - 1) + Product(a, n, i, w - 1, h) * x[w - 1]
  }

  lemma Distribute(p: real, l: real, u: real, x: real, y: real)
    ensures (p + l * u) * x + l * y == p * x + l * (y + u * x)
  {
    assert (p + l * u) * x == p * x + l * (u * x);
    assert l * (y + u * x) == l * y + l * (u * x);
  }

  lemma {:induction false} CombineStep(a: Matrix, n: nat, x: Row, i: nat, h: nat, w: nat)
    requires Shaped(a, n) && i < |a| && 0 < h <= |a| && h <= n && w <= n && w <= |x|
    ensures ProductCombine(a, n, x, i, h, w)
        == ProductCombine(a, n, x, i, h - 1, w) + Lower(a, i, h - 1) * Image(a, n, x, h - 1, w)
  {
    if w > 0 {
      CombineStep(a, n, x, i, h, w - 1);
      hide Lower, Upper;
      Distribute(Product(a, n, i, w - 1, h - 1), Lower(a, i, h - 1), Upper(a, h - 1, w - 1), x[w - 1],
          Image(a, n, x, h - 1, w - 1));
    }
  }

  // Summing by columns or by rows
  lemma {:induction false} Exchange(a: Matrix, n: nat, x: Row, i: nat, h: nat, w: nat)
    requires Shaped(a, n) && i < |a| && h <= |a| && h <= n && w <= n && w <= |x|
    ensures ProductCombine(a, n, x, i, h, w) == Through(a, n, x, i, h, w)
  {
    if h == 0 {
      CombineZero(a, n, x, i, w);
    } else {
      Exchange(a, n, x, i, h - 1, w);
      CombineStep(a, n, x, i, h, w);
    }
  }

  lemma {:induction false} CombineZero(a: Matrix, n: nat, x: Row, i: nat, w: nat)
    requires Shaped(a, n) && i < |a| && w <= n && w <= |x|
    ensures ProductCombine(a, n, x, i, 0, w) == 0.0
  {
    if w > 0 {
      CombineZero(a, n, x, i, w - 1);
    }
  }

  lemma {:induction false} ImageUpdate(a: Matrix, n: nat, x: Row, r: nat, k: nat, v: real, w: nat)
    requires Shaped(a, n) && r < |a| && k < |x| && w <= n && w <= |x|
    ensures Image(a, n, x[k := v], r, w) == Image(a, n, x, r, w) + if k < w then Upper(a, r, k) * (v - x[k]) else 0.0
  {
    if w > 0 {
      ImageUpdate(a, n, x, r, k, v, w - 1);
      if k == w - 1 {
        Split(Upper(a, r, k), v, x[k]);
      }
    }
  }

  lemma Split(u: real, v: real, x: real)
    ensures u * v == u * x + u * (v - x)
  {
  }

  ghost predicate Pivots(a: Matrix, n: nat, j: nat)
    requires Shaped(a, n) && j <= |a| && j <= n
  {
    forall k | 0 <= k < j :: a[k][k] != 0.0
  }

  // Back substitution: entry j is 1, entries k.. solve the rows k.., the rest is 0
  ghost function Solution(a: Matrix, n: nat, j: nat, k: nat): (x: Row)
    requires Shaped(a, n) && k <= j < |a| && j < n && Pivots(a, n, j)
    ensures |x| == j + 1 && x[j] == 1.0 && forall c | 0 <= c < k :: x[c] == 0.0
    decreases j - k
  {
    if k == j then seq(j, _ => 0.0) + [1.0]
    else
      var x := Solution(a, n, j, k + 1);
      x[k := -Image(a, n, x, k, j + 1) / a[k][k]]
  }

  lemma Root(u: real, y: real)
    requires u != 0.0
    ensures y + u * (-y / u - 0.0) == 0.0
  {
  }

  lemma {:induction false} SolutionSolves(a: Matrix, n: nat, j: nat, k: nat, r: nat)
    requires Shaped(a, n) && k <= j < |a| && j < n && Pivots(a, n, j) && k <= r < j
    ensures Image(a, n, Solution(a, n, j, k), r, j + 1) == 0.0
    decreases j - k
  {
    var x := Solution(a, n, j, k + 1);
    var y := Image(a, n, x, k, j + 1);
    ImageUpdate(a, n, x, r, k, -y / a[k][k], j + 1);
    if r == k {
      Root(a[k][k], y);
    } else {
      SolutionSolves(a, n, j, k + 1, r);
    }
  }

  lemma {:induction false} ThroughZero(a: Matrix, n: nat, x: Row, i: nat, h: nat, w: nat)
    requires Shaped(a, n) && i < |a| && h <= |a| && h <= n && w <= n && w <= |x|
    requires forall k | 0 <= k < h :: Image(a, n, x, k, w) == 0.0
    ensures Through(a, n, x, i, h, w) == 0.0
  {
    if h > 0 {
      ThroughZero(a, n, x, i, h - 1, w);
    }
  }

  lemma {:induction false} CombineIsProductCombine(a: Matrix, n: nat, x: Row, i: nat, h: nat, w: nat, row: Row)
    requires Shaped(a, n) && i < |a| && h <= |a| && h <= n && w <= n && w <= |x| && w <= |row|
    requires forall c | 0 <= c < w :: row[c] == Product(a, n, i, c, h)
    ensures Combine(row, x, w) == ProductCombine(a, n, x, i, h, w)
  {
    if w > 0 {
      CombineIsProductCombine(a, n, x, i, h, w - 1, row);
    }
  }

  // No pivot in column j: the first j + 1 columns are dependent
  lemma StuckIsDependent(a: Matrix, b: Matrix, n: nat, j: nat)
    requires Factored(a, b, n, j) && j < |a| && j < n && Pivots(a, n, j)
    requires forall i | j <= i < |a| :: a[i][j] == 0.0
    ensures !Independent(b, n, j + 1)
  {
    var x, w := Solution(a, n, j, 0), j + 1;
    forall r | r in b
      ensures Combine(r, x, w) == 0.0
    {
      var i :| 0 <= i < |b| && b[i] == r;
      forall c | 0 <= c < w
        ensures r[c] == Product(a, n, i, c, j)
      {
        EntryIsProduct(a, n, i, c, j);
      }
      CombineIsProductCombine(a, n, x, i, j, w, r);
      Exchange(a, n, x, i, j, w);
      forall k | 0 <= k < j
        ensures Image(a, n, x, k, w) == 0.0
      {
        SolutionSolves(a, n, j, 0, k);
      }
      ThroughZero(a, n, x, i, j, w);
    }
    assert Annihilates(b, n, x) && x[j] != 0.0;
  }

  // The unit lower triangle maps only zero to zero
  lemma {:induction false} ForwardZero(a: Matrix, n: nat, x: Row, i: nat, h: nat, w: nat)
    requires Shaped(a, n) && h <= |a| && h <= n && w <= n && w <= |x| && i < h
    requires forall i | 0 <= i < h :: Through(a, n, x, i, h, w) == 0.0
    ensures forall k | 0 <= k <= i :: Image(a, n, x, k, w) == 0.0
  {
    if i > 0 {
      ForwardZero(a, n, x, i - 1, h, w);
    }
    ThroughZero(a, n, x, i, i, w);
    assert Through(a, n, x, i, i + 1, w) == Through(a, n, x, i, i, w) + Lower(a, i, i) * Image(a, n, x, i, w);
    ThroughStops(a, n, x, i, h, w);
  }

  lemma {:induction false} ThroughStops(a: Matrix, n: nat, x: Row, i: nat, h: nat, w: nat)
    requires Shaped(a, n) && i < h <= |a| && h <= n && w <= n && w <= |x|
    ensures Through(a, n, x, i, h, w) == Through(a, n, x, i, i + 1, w)
  {
    if h > i + 1 {
      ThroughStops(a, n, x, i, h - 1, w);
    }
  }

  // An upper triangle without a zero on the diagonal maps only zero to zero
  lemma {:induction false} BackwardZero(a: Matrix, n: nat, x: Row, k: nat, h: nat)
    requires Shaped(a, n) && k < h <= |a| && h <= n && h == |x| && Pivots(a, n, h)
    requires forall r | 0 <= r < h :: Image(a, n, x, r, h) == 0.0
    ensures forall c | k <= c < h :: x[c] == 0.0
    decreases h - k
  {
    if k + 1 < h {
      BackwardZero(a, n, x, k + 1, h);
    }
    ImageLeft(a, n, x, k, k);
    ImageRight(a, n, x, k, k + 1, h);
    assert Image(a, n, x, k, k + 1) == Image(a, n, x, k, k) + a[k][k] * x[k];
  }

  lemma {:induction false} ImageLeft(a: Matrix, n: nat, x: Row, k: nat, w: nat)
    requires Shaped(a, n) && k < |a| && w <= n && w <= |x| && w <= k
    ensures Image(a, n, x, k, w) == 0.0
  {
    if w > 0 {
      ImageLeft(a, n, x, k, w - 1);
    }
  }

  lemma {:induction false} ImageRight(a: Matrix, n: nat, x: Row, k: nat, w0: nat, w: nat)
    requires Shaped(a, n) && k < |a| && w0 <= w <= n && w <= |x| && forall c | w0 <= c < w :: x[c] == 0.0
    ensures Image(a, n, x, k, w) == Image(a, n, x, k, w0)
  {
    if w > w0 {
      ImageRight(a, n, x, k, w0, w - 1);
    }
  }

  // Every pivot found: the first min(m, n) columns are independent
  lemma FactoredIsIndependent(a: Matrix, b: Matrix, n: nat)
    requires Factored(a, b, n, Min(|a|, n)) && Pivots(a, n, Min(|a|, n))
    ensures Independent(b, n, Min(|a|, n))
  {
    var h := Min(|a|, n);
    forall x: Row | |x| == h && Annihilates(b, n, x)
      ensures forall c | 0 <= c < h :: x[c] == 0.0
    {
      forall i | 0 <= i < h
        ensures Through(a, n, x, i, h, h) == 0.0
      {
        forall c | 0 <= c < h
          ensures b[i][c] == Product(a, n, i, c, h)
        {
          FactoredIsProduct(a, b, n, i, c);
        }
        CombineIsProductCombine(a, n, x, i, h, h, b[i]);
        Exchange(a, n, x, i, h, h);
        assert b[i] in b;
      }
      if h > 0 {
        ForwardZero(a, n, x, h - 1, h, h);
        BackwardZero(a, n, x, 0, h);
      }
    }
  }

  // The rows in the order the recorded pivots put them in
  ghost predicate ValidPivots(pivot: seq<nat>, m: nat) {
    |pivot| <= m && forall k | 0 <= k < |pivot| :: k <= pivot[k] < m
  }

  ghost function Permuted(a: Matrix, pivot: seq<nat>): (r: Matrix)
    requires ValidPivots(pivot, |a|)
    ensures |r| == |a|
  {
    if pivot == [] then a
    else var k := |pivot| - 1; Swapped(Permuted(a, pivot[..k]), k, pivot[k])
  }

  lemma {:induction false} PermutedRows(a: Matrix, n: nat, pivot: seq<nat>)
    requires ValidPivots(pivot, |a|) && Shaped(a, n)
    ensures multiset(Permuted(a, pivot)) == multiset(a) && Shaped(Permuted(a, pivot), n)
  {
    if pivot != [] {
      var k := |pivot| - 1;
      PermutedRows(a, n, pivot[..k]);
      var b := Permuted(a, pivot[..k]);
      SwappedRows(b, n, k, pivot[k]);
      assert Permuted(a, pivot) == Swapped(b, k, pivot[k]);
      hide Swapped, Permuted, Shaped;
    }
  }

  lemma SwappedRows(a: Matrix, n: nat, p: nat, q: nat)
    requires p < |a| && q < |a| && Shaped(a, n)
    ensures multiset(Swapped(a, p, q)) == multiset(a) && Shaped(Swapped(a, p, q), n)
  {
  }

  lemma SameRows(a: Matrix, b: Matrix, n: nat, h: nat)
    requires multiset(a) == multiset(b) && Shaped(a, n) && Shaped(b, n) && h <= n
    ensures Independent(a, n, h) <==> Independent(b, n, h)
  {
    forall x: Row | |x| == h
      ensures Annihilates(a, n, x) <==> Annihilates(b, n, x)
    {
      assert forall r | r in a :: r in multiset(b);
      assert forall r | r in b :: r in multiset(a);
    }
  }

  lemma {:induction false} CombinePadded(row: Row, x: Row, pad: nat)
    requires |x| + pad <= |row|
    ensures Combine(row, x + seq(pad, _ => 0.0), |x| + pad) == Combine(row, x, |x|)
    decreases pad
  {
    var y := x + seq(pad, _ => 0.0);
    if pad > 0 {
      CombinePadded(row, x, pad - 1);
      var z := x + seq(pad - 1, _ => 0.0);
      assert y == z + [0.0];
      CombinePrefix(row, z, y, |z|);
    } else {
      assert y == x;
    }
  }

  lemma {:induction false} CombinePrefix(row: Row, x: Row, y: Row, h: nat)
    requires h <= |row| && h <= |x| <= |y| && forall c | 0 <= c < h :: x[c] == y[c]
    ensures Combine(row, x, h) == Combine(row, y, h)
  {
    if h > 0 {
      CombinePrefix(row, x, y, h - 1);
    }
  }

  // Fewer columns of an independent set are independent
  lemma FewerIndependent(a: Matrix, n: nat, h: nat, h1: nat)
    requires Shaped(a, n) && h <= h1 <= n && Independent(a, n, h1)
    ensures Independent(a, n, h)
  {
    forall x: Row | |x| == h && Annihilates(a, n, x)
      ensures forall c | 0 <= c < h :: x[c] == 0.0
    {
      var y := x + seq(h1 - h, _ => 0.0);
      forall r | r in a
        ensures Combine(r, y, h1) == 0.0
      {
        CombinePadded(r, x, h1 - h);
      }
      assert Annihilates(a, n, y);
      assert forall c | 0 <= c < h :: x[c] == y[c];
    }
  }

  // j columns are factored: b is the original with the pivots so far applied
  ghost predicate Progress(a0: Matrix, a: Matrix, n: nat, j: nat, pivot: seq<nat>) {
    && ValidPivots(pivot, |a0|) && |pivot| == j
    && Factored(a, Permuted(a0, pivot), n, j)
    && Bounded(a, n, j) && Pivots(a, n, j)
  }

  lemma Begin(a0: Matrix, n: nat)
    requires Shaped(a0, n)
    ensures Progress(a0, a0, n, 0, [])
  {
  }

  lemma StepPivots(a: Matrix, n: nat, j: nat)
    requires Shaped(a, n) && j < |a| && j < n && a[j][j] != 0.0 && Pivots(a, n, j)
    ensures Pivots(Stepped(a, n, j), n, j + 1)
  {
    hide Stepped;
    forall k | 0 <= k < j + 1
      ensures Stepped(a, n, j)[k][k] != 0.0
    {
      SteppedAt(a, n, j, k, k);
    }
  }

  // One turn of the outer loop
  lemma Turn(a0: Matrix, a: Matrix, n: nat, j: nat, pivot: seq<nat>, jp: nat)
    requires Progress(a0, a, n, j, pivot) && j < n && j <= jp < |a| && a[jp][j] != 0.0
    requires forall i | j <= i < |a| :: Abs(a[i][j]) <= Abs(a[jp][j])
    ensures Shaped(Swapped(a, j, jp), n) && Swapped(a, j, jp)[j][j] != 0.0
    ensures Progress(a0, Stepped(Swapped(a, j, jp), n, j), n, j + 1, pivot + [jp])
  {
    var s, b := Swapped(a, j, jp), Permuted(a0, pivot);
    SwapFactored(a, b, n, j, j, jp);
    SwapBounded(a, n, j, j, jp);
    StepFactored(s, Swapped(b, j, jp), n, j);
    StepBounded(s, n, j);
    StepPivots(s, n, j);
    assert (pivot + [jp])[..j] == pivot;
  }

  lemma Stuck(a0: Matrix, a: Matrix, n: nat, j: nat, pivot: seq<nat>, jp: nat)
    requires Shaped(a0, n) && Progress(a0, a, n, j, pivot) && j < n && j <= jp < |a| && a[jp][j] == 0.0
    requires forall i | j <= i < |a| :: Abs(a[i][j]) <= Abs(a[jp][j])
    ensures !Independent(a0, n, Min(|a0|, n))
  {
    var b := Permuted(a0, pivot);
    StuckIsDependent(a, b, n, j);
    PermutedRows(a0, n, pivot);
    SameRows(a0, b, n, j + 1);
    if Independent(a0, n, Min(|a0|, n)) {
      FewerIndependent(a0, n, j + 1, Min(|a0|, n));
    }
  }

  lemma Complete(a0: Matrix, a: Matrix, n: nat, pivot: seq<nat>)
    requires Shaped(a0, n) && Progress(a0, a, n, Min(|a0|, n), pivot)
    ensures Independent(a0, n, Min(|a0|, n))
    ensures Shaped(Permuted(a0, pivot), n) && multiset(Permuted(a0, pivot)) == multiset(a0)
    ensures forall i, c | 0 <= i < |a| && 0 <= c < n :: Permuted(a0, pivot)[i][c] == Product(a, n, i, c, Min(|a|, n))
  {
    var b := Permuted(a0, pivot);
    PermutedRows(a0, n, pivot);
    SameRows(a0, b, n, Min(|a0|, n));
    FactoredIsIndependent(a, b, n);
    forall i, c | 0 <= i < |a| && 0 <= c < n
      ensures b[i][c] == Product(a, n, i, c, Min(|a|, n))
    {
      FactoredIsProduct(a, b, n, i, c);
    }
  }
}
