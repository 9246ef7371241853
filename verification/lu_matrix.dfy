// LU factorization on values: matrices as sequences of rows, over exact reals.
module LuMatrix {
  type Row = seq<real>
  type Matrix = seq<Row>

  ghost predicate Shaped(a: Matrix, n: nat) {
    forall i | 0 <= i < |a| :: |a[i]| == n
  }

  ghost function Min(a: int, b: int): int { if a < b then a else b }

  // The sum of a[i][k] * a[k][c] for k < h
  ghost function Dot(a: Matrix, i: nat, c: nat, h: nat): real
    requires i < |a| && h <= |a| && h <= |a[i]| && forall k | 0 <= k < h :: c < |a[k]|
  {
    if h == 0 then 0.0 else Dot(a, i, c, h - 1) + a[i][h - 1] * a[h - 1][c]
  }

  lemma {:induction false} DotAgrees(a: Matrix, i: nat, a': Matrix, i': nat, c: nat, h: nat)
    requires i < |a| && h <= |a| && h <= |a[i]| && forall k | 0 <= k < h :: c < |a[k]|
    requires i' < |a'| && h <= |a'| && h <= |a'[i']| && forall k | 0 <= k < h :: c < |a'[k]|
    requires forall k | 0 <= k < h :: a'[i'][k] == a[i][k] && a'[k][c] == a[k][c]
    ensures Dot(a', i', c, h) == Dot(a, i, c, h)
  {
    if h > 0 {
      DotAgrees(a, i, a', i', c, h - 1);
    }
  }

  // What the entry of the original matrix is, read back from a with j columns factored:
  // multipliers left of the diagonal, upper triangle in the first j rows, what is left to factor elsewhere
  ghost function Entry(a: Matrix, n: nat, i: nat, c: nat, j: nat): real
    requires Shaped(a, n) && i < |a| && c < n && j <= |a| && j <= n
  {
    Dot(a, i, c, Min(Min(i, c), j)) + if c < i && c < j then a[i][c] * a[c][c] else a[i][c]
  }

  ghost predicate Factored(a: Matrix, b: Matrix, n: nat, j: nat) {
    && Shaped(a, n) && Shaped(b, n) && |b| == |a| && j <= |a| && j <= n
    && forall i, c | 0 <= i < |a| && 0 <= c < n :: b[i][c] == Entry(a, n, i, c, j)
  }

  ghost function Abs(x: real): real { if x < 0.0 then -x else x }

  // No multiplier exceeds one
  ghost predicate Bounded(a: Matrix, n: nat, j: nat)
    requires Shaped(a, n) && j <= |a| && j <= n
  {
    forall i, k | 0 <= k < j && k < i < |a| :: Abs(a[i][k]) <= 1.0
  }

  ghost function Swapped<T>(a: seq<T>, p: nat, q: nat): (r: seq<T>)
    requires p < |a| && q < |a|
    ensures |r| == |a|
  {
    a[p := a[q]][q := a[p]]
  }

  ghost function Multiplier(a: Matrix, i: nat, j: nat): real
    requires i < |a| && j < |a| && j < |a[i]| && j < |a[j]| && a[j][j] != 0.0
  {
    a[i][j] * (1.0 / a[j][j])
  }

  ghost function Scaled(a: Matrix, n: nat, j: nat): (r: Matrix)
    requires Shaped(a, n) && j < |a| && j < n && a[j][j] != 0.0
    ensures Shaped(r, n) && |r| == |a|
  {
    seq(|a|, i requires 0 <= i < |a| => if i > j then a[i][j := Multiplier(a, i, j)] else a[i])
  }

  ghost function Reduced(r: Row, pivot: Row, j: nat): (r': Row)
    requires |r| == |pivot| && j < |r|
    ensures |r'| == |r|
  {
    seq(|r|, c requires 0 <= c < |r| => if c > j then r[c] - r[j] * pivot[c] else r[c])
  }

  ghost function Eliminated(a: Matrix, n: nat, j: nat): (r: Matrix)
    requires Shaped(a, n) && j < |a| && j < n
    ensures Shaped(r, n) && |r| == |a|
  {
    seq(|a|, i requires 0 <= i < |a| => if i > j then Reduced(a[i], a[j], j) else a[i])
  }

  lemma SwapEntry(a: Matrix, n: nat, j: nat, p: nat, q: nat, i: nat, i0: nat, c: nat)
    requires Shaped(a, n) && j <= n && j <= p < |a| && j <= q < |a| && i < |a| && c < n
    requires i0 == if i == p then q else if i == q then p else i
    ensures Shaped(Swapped(a, p, q), n)
    ensures Entry(Swapped(a, p, q), n, i, c, j) == Entry(a, n, i0, c, j)
  {
    DotAgrees(a, i0, Swapped(a, p, q), i, c, Min(Min(i, c), j));
  }

  lemma SwapFactored(a: Matrix, b: Matrix, n: nat, j: nat, p: nat, q: nat)
    requires Factored(a, b, n, j) && j <= p < |a| && j <= q < |a|
    ensures Factored(Swapped(a, p, q), Swapped(b, p, q), n, j)
  {
    assert Shaped(Swapped(a, p, q), n) && Shaped(Swapped(b, p, q), n);
    forall i, c | 0 <= i < |a| && 0 <= c < n
      ensures Swapped(b, p, q)[i][c] == Entry(Swapped(a, p, q), n, i, c, j)
    {
      var i0 := if i == p then q else if i == q then p else i;
      SwapEntry(a, n, j, p, q, i, i0, c);
      hide Entry;
      assert b[i0][c] == Entry(a, n, i0, c, j);
    }
  }

  lemma SwapBounded(a: Matrix, n: nat, j: nat, p: nat, q: nat)
    requires Shaped(a, n) && j <= n && j <= p < |a| && j <= q < |a| && Bounded(a, n, j)
    ensures Shaped(Swapped(a, p, q), n) && Bounded(Swapped(a, p, q), n, j)
  {
  }

  lemma Cancel(x: real, y: real)
    requires y != 0.0
    ensures x * (1.0 / y) * y == x
  {
  }

  // One turn of the outer loop after the swap
  ghost function Stepped(a: Matrix, n: nat, j: nat): (r: Matrix)
    requires Shaped(a, n) && j < |a| && j < n && a[j][j] != 0.0
    ensures Shaped(r, n) && |r| == |a|
  {
    Eliminated(Scaled(a, n, j), n, j)
  }

  lemma SteppedAt(a: Matrix, n: nat, j: nat, i: nat, c: nat)
    requires Shaped(a, n) && j < |a| && j < n && a[j][j] != 0.0 && i < |a| && c < n
    ensures Stepped(a, n, j)[i][c] ==
      if i <= j || c < j then a[i][c]
      else if c == j then Multiplier(a, i, j)
      else a[i][c] - Multiplier(a, i, j) * a[j][c]
  {
    hide Multiplier;
    var s := Scaled(a, n, j);
    assert s[j] == a[j];
    if i > j {
      assert s[i][j] == Multiplier(a, i, j) && (c != j ==> s[i][c] == a[i][c]);
      assert Eliminated(s, n, j)[i] == Reduced(s[i], s[j], j);
    }
  }

  lemma StepDot(a: Matrix, n: nat, j: nat, i: nat, c: nat, h: nat)
    requires Shaped(a, n) && j < |a| && j < n && a[j][j] != 0.0 && i < |a| && c < n && h <= i && h <= c && h <= j
    ensures Dot(Stepped(a, n, j), i, c, h) == Dot(a, i, c, h)
  {
    var e := Stepped(a, n, j);
    forall k | 0 <= k < h
      ensures e[i][k] == a[i][k] && e[k][c] == a[k][c]
    {
      SteppedAt(a, n, j, i, k);
      SteppedAt(a, n, j, k, c);
    }
    DotAgrees(a, i, e, i, c, h);
  }

  lemma StepEntry(a: Matrix, n: nat, j: nat, i: nat, c: nat)
    requires Shaped(a, n) && j < |a| && j < n && a[j][j] != 0.0 && i < |a| && c < n
    ensures Entry(Stepped(a, n, j), n, i, c, j + 1) == Entry(a, n, i, c, j)
  {
    hide Stepped, Multiplier;
    var e := Stepped(a, n, j);
    var h := Min(Min(i, c), j);
    StepDot(a, n, j, i, c, h);
    SteppedAt(a, n, j, i, c);
    SteppedAt(a, n, j, Min(c, j), c);
    SteppedAt(a, n, j, i, j);
    if i > j && c > j {
      assert Dot(e, i, c, j + 1) == Dot(e, i, c, j) + e[i][j] * e[j][c];
    } else {
      if i > j && c == j {
        StepDiagonal(a, i, j);
      }
      hide Dot;
      assert Min(Min(i, c), j + 1) == h;
    }
  }

  lemma StepDiagonal(a: Matrix, i: nat, j: nat)
    requires i < |a| && j < |a| && j < |a[i]| && j < |a[j]| && a[j][j] != 0.0
    ensures Multiplier(a, i, j) * a[j][j] == a[i][j]
  {
    Cancel(a[i][j], a[j][j]);
  }

  lemma StepFactored(a: Matrix, b: Matrix, n: nat, j: nat)
    requires Factored(a, b, n, j) && j < |a| && j < n && a[j][j] != 0.0
    ensures Factored(Stepped(a, n, j), b, n, j + 1)
  {
    forall i, c | 0 <= i < |a| && 0 <= c < n
      ensures b[i][c] == Entry(Stepped(a, n, j), n, i, c, j + 1)
    {
      StepEntry(a, n, j, i, c);
      hide Entry, Stepped;
      assert b[i][c] == Entry(a, n, i, c, j);
    }
  }

  lemma Quotient(x: real, y: real)
    requires y != 0.0 && Abs(x) <= Abs(y)
    ensures Abs(x * (1.0 / y)) <= 1.0
  {
    var q := x * (1.0 / y);
    Cancel(x, y);
    if q > 1.0 {
      assert Abs(q * y) > Abs(y) by { Larger(q, y); }
    } else if q < -1.0 {
      assert Abs(-q * y) > Abs(y) by { Larger(-q, y); }
    }
  }

  lemma Larger(q: real, y: real)
    requires q > 1.0 && y != 0.0
    ensures Abs(q * y) > Abs(y)
  {
    if y > 0.0 {
      assert (q - 1.0) * y > 0.0;
    } else {
      assert (q - 1.0) * -y > 0.0;
    }
  }

  lemma MultiplierBounded(a: Matrix, i: nat, j: nat)
    requires i < |a| && j < |a| && j < |a[i]| && j < |a[j]| && a[j][j] != 0.0 && Abs(a[i][j]) <= Abs(a[j][j])
    ensures Abs(Multiplier(a, i, j)) <= 1.0
  {
    Quotient(a[i][j], a[j][j]);
  }

  lemma StepBounded(a: Matrix, n: nat, j: nat)
    requires Shaped(a, n) && j < |a| && j < n && a[j][j] != 0.0 && Bounded(a, n, j)
    requires forall i | j < i < |a| :: Abs(a[i][j]) <= Abs(a[j][j])
    ensures Bounded(Stepped(a, n, j), n, j + 1)
  {
    hide Stepped, Multiplier;
    forall i, k | 0 <= k < j + 1 && k < i < |a|
      ensures Abs(Stepped(a, n, j)[i][k]) <= 1.0
    {
      SteppedAt(a, n, j, i, k);
      if k == j {
        MultiplierBounded(a, i, j);
      }
    }
  }
}
