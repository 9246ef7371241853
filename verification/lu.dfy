// sw/scimark2/LU.c: LU_factor, in place on an array of rows.
module LU {
  import opened LuMatrix
  import opened LuTheory

  // The rows of A hold a; no two rows share memory
  ghost predicate Holds(A: array<array<real>>, a: Matrix, n: nat, rows: set<array<real>>)
    reads A, rows
  {
    && A.Length == |a| && Shaped(a, n)
    && (forall i | 0 <= i < |a| :: A[i] in rows && A[i][..] == a[i])
    && (forall i, j | 0 <= i < j < |a| :: A[i] != A[j])
  }

  function AbsOf(x: real): (r: real)
    ensures r == Abs(x)
  {
    if x < 0.0 then -x else x
  }

  // Search the column from the diagonal down for the first largest absolute value
  method FindPivot(A: array<array<real>>, M: nat, j: nat, ghost a: Matrix, ghost n: nat, ghost rows: set<array<real>>)
      returns (jp: nat)
    requires Holds(A, a, n, rows) && M == |a| && j < M && j < n
    ensures j <= jp < M
    ensures forall i | j <= i < M :: Abs(a[i][j]) <= Abs(a[jp][j])
    ensures forall i | j <= i < jp :: Abs(a[i][j]) < Abs(a[jp][j])
  {
    jp := j;
    var t := AbsOf(A[j][j]);
    var i := j + 1;
    while i < M
      invariant j <= jp < i <= M && t == Abs(a[jp][j])
      invariant forall k | j <= k < i :: Abs(a[k][j]) <= t
      invariant forall k | j <= k < jp :: Abs(a[k][j]) < t
    {
      var ab := AbsOf(A[i][j]);
      if ab > t {
        jp := i;
        t := ab;
      }
      i := i + 1;
    }
  }

  method SwapRows(A: array<array<real>>, j: nat, jp: nat, ghost a: Matrix, ghost n: nat, ghost rows: set<array<real>>)
    requires Holds(A, a, n, rows) && j < |a| && jp < |a|
    modifies A
    ensures Holds(A, Swapped(a, j, jp), n, rows)
  {
    var tA := A[j];
    A[j] := A[jp];
    A[jp] := tA;
  }

  // The first k rows taken from b, the others from a
  ghost function Mixed(b: Matrix, a: Matrix, k: nat): (r: Matrix)
    requires |b| == |a| && k <= |a|
    ensures |r| == |a|
  {
    b[..k] + a[k..]
  }

  method SetEntry(A: array<array<real>>, k: nat, j: nat, v: real, ghost a: Matrix, ghost n: nat,
                  ghost rows: set<array<real>>)
    requires Holds(A, a, n, rows) && k < |a| && j < n
    modifies A[k]
    ensures Holds(A, a[k := a[k][j := v]], n, rows)
  {
    A[k][j] := v;
    assert A[k][..] == a[k][j := v];
  }

  method GetEntry(A: array<array<real>>, k: nat, j: nat, ghost a: Matrix, ghost n: nat, ghost rows: set<array<real>>)
      returns (x: real)
    requires Holds(A, a, n, rows) && k < |a| && j < n
    ensures x == a[k][j] && Holds(A, a, n, rows)
  {
    x := A[k][j];
    assert x == A[k][..][j];
  }

  // Divide the entries below the pivot by it
  method ScaleColumn(A: array<array<real>>, M: nat, j: nat, ghost a: Matrix, ghost n: nat, ghost rows: set<array<real>>)
    requires Holds(A, a, n, rows) && M == |a| && j < M && j < n && a[j][j] != 0.0
    modifies rows
    ensures Holds(A, Scaled(a, n, j), n, rows)
  {
    ScaledRows(a, n, j);
    assert Shaped(a, n);
    hide Holds, Scaled, Multiplier;
    ghost var s := Scaled(a, n, j);
    var p := GetEntry(A, j, j, a, n, rows);
    var recp := 1.0 / p;
    var k := j + 1;
    while k < M
      invariant j < k <= M
      invariant Holds(A, Mixed(s, a, k), n, rows)
    {
      var x := GetEntry(A, k, j, Mixed(s, a, k), n, rows);
      MultiplierIs(a, k, j, x, recp);
      RowIn(A, k, Mixed(s, a, k), n, rows);
      SetEntry(A, k, j, x * recp, Mixed(s, a, k), n, rows);
      MixedNext(s, a, k);
      k := k + 1;
    }
    assert Mixed(s, a, k) == s;
  }

  lemma RowIn(A: array<array<real>>, k: nat, a: Matrix, n: nat, rows: set<array<real>>)
    requires Holds(A, a, n, rows) && k < |a|
    ensures A.Length == |a| && A[k] in rows
  {
  }

  lemma ScaledRows(a: Matrix, n: nat, j: nat)
    requires Shaped(a, n) && j < |a| && j < n && a[j][j] != 0.0
    ensures forall i | j < i < |a| :: Scaled(a, n, j)[i] == a[i][j := Multiplier(a, i, j)]
    ensures Mixed(Scaled(a, n, j), a, j + 1) == a
  {
  }

  lemma MultiplierIs(a: Matrix, i: nat, j: nat, x: real, r: real)
    requires i < |a| && j < |a| && j < |a[i]| && j < |a[j]| && a[j][j] != 0.0 && x == a[i][j] && r == 1.0 / a[j][j]
    ensures x * r == Multiplier(a, i, j)
  {
  }

  lemma MixedNext(b: Matrix, a: Matrix, k: nat)
    requires |b| == |a| && k < |a|
    ensures Mixed(b, a, k)[k] == a[k] && Mixed(b, a, k)[k := b[k]] == Mixed(b, a, k + 1)
  {
  }

  lemma MixedWhole(b: Matrix, a: Matrix)
    requires |b| == |a|
    ensures Mixed(b, a, |a|) == b
  {
  }

  method ReduceRow(Aii: array<real>, Aj: array<real>, N: nat, j: nat)
    requires Aii != Aj && Aii.Length == N == Aj.Length && j < N
    modifies Aii
    ensures Aii[..] == Reduced(old(Aii[..]), Aj[..], j)
  {
    var AiiJ := Aii[j];
    var jj := j + 1;
    while jj < N
      invariant j < jj <= N
      invariant forall c | 0 <= c < jj :: Aii[c] == Reduced(old(Aii[..]), Aj[..], j)[c]
      invariant forall c | jj <= c < N :: Aii[c] == old(Aii[c])
      invariant Aj[..] == old(Aj[..])
    {
      Aii[jj] := Aii[jj] - AiiJ * Aj[jj];
      jj := jj + 1;
    }
  }

  // Row ii of the update: the rows above it are done, row j among them unchanged
  method ReduceRowAt(A: array<array<real>>, ii: nat, j: nat, N: nat, ghost e: Matrix, ghost a: Matrix,
                     ghost rows: set<array<real>>)
    requires Shaped(a, N) && j < ii < |a| && j < N && e == Eliminated(a, N, j)
    requires Holds(A, Mixed(e, a, ii), N, rows)
    modifies rows
    ensures Holds(A, Mixed(e, a, ii + 1), N, rows)
  {
    ghost var m := Mixed(e, a, ii);
    assert m[ii] == a[ii] && m[j] == a[j];
    ReduceRow(A[ii], A[j], N, j);
    assert A[ii][..] == e[ii];
    MixedNext(e, a, ii);
  }

  lemma HoldsShaped(A: array<array<real>>, a: Matrix, n: nat, rows: set<array<real>>)
    requires Holds(A, a, n, rows)
    ensures Shaped(a, n)
  {
  }

  lemma EliminatedRows(a: Matrix, n: nat, j: nat)
    requires Shaped(a, n) && j < |a| && j < n
    ensures Mixed(Eliminated(a, n, j), a, j + 1) == a
  {
  }

  // Take the product of column and pivot row off the rows and columns that remain
  method Eliminate(A: array<array<real>>, M: nat, N: nat, j: nat, ghost a: Matrix, ghost rows: set<array<real>>)
    requires Holds(A, a, N, rows) && M == |a| && j < M && j < N
    modifies rows
    ensures Holds(A, Eliminated(a, N, j), N, rows)
  {
    hide *;
    HoldsShaped(A, a, N, rows);
    EliminatedRows(a, N, j);
    MixedWhole(Eliminated(a, N, j), a);
    ghost var e := Eliminated(a, N, j);
    var ii := j + 1;
    while ii < M
      invariant j < ii <= M
      invariant Holds(A, Mixed(e, a, ii), N, rows)
    {
      ReduceRowAt(A, ii, j, N, e, a, rows);
      ii := ii + 1;
    }
  }

  lemma NothingToSwap(a: Matrix, j: nat)
    requires j < |a|
    ensures Swapped(a, j, j) == a
  {
  }

  lemma NothingToScale(a: Matrix, n: nat, j: nat)
    requires Shaped(a, n) && j < |a| && j < n && a[j][j] != 0.0 && j == |a| - 1
    ensures Scaled(a, n, j) == a
  {
  }

  lemma NothingToEliminate(a: Matrix, n: nat, j: nat)
    requires Shaped(a, n) && j == Min(|a|, n) - 1 && j >= 0
    ensures Eliminated(a, n, j) == a
  {
    forall i | 0 <= i < |a|
      ensures Eliminated(a, n, j)[i] == a[i]
    {
      if i > j {
        assert Reduced(a[i], a[j], j) == a[i];
      }
    }
  }

  // One turn of the outer loop, from the swap on
  method FactorColumn(A: array<array<real>>, M: nat, N: nat, minMN: nat, j: nat, jp: nat, ghost a: Matrix,
                      ghost rows: set<array<real>>)
    requires Holds(A, a, N, rows) && M == |a| && minMN == Min(M, N) && j < minMN && j <= jp < M && a[jp][j] != 0.0
    modifies A, rows
    ensures Shaped(Swapped(a, j, jp), N) && Swapped(a, j, jp)[j][j] != 0.0
    ensures Holds(A, Stepped(Swapped(a, j, jp), N, j), N, rows)
  {
    ghost var s := Swapped(a, j, jp);
    assert Shaped(a, N) && Shaped(s, N);
    hide Holds, Scaled, Eliminated;
    if jp != j {
      SwapRows(A, j, jp, a, N, rows);
    } else {
      NothingToSwap(a, j);
    }
    if j < M - 1 {
      ScaleColumn(A, M, j, s, N, rows);
    } else {
      NothingToScale(s, N, j);
    }
    if j < minMN - 1 {
      Eliminate(A, M, N, j, Scaled(s, N, j), rows);
    } else {
      NothingToEliminate(Scaled(s, N, j), N, j);
    }
  }

  method LuFactor(M: nat, N: nat, A: array<array<real>>, pivot: array<nat>, ghost a0: Matrix,
                  ghost rows: set<array<real>>)
      returns (status: int, ghost a: Matrix)
    requires Holds(A, a0, N, rows) && M == |a0| && pivot.Length >= Min(M, N)
    modifies A, rows, pivot
    ensures Holds(A, a, N, rows) && |a| == M && Shaped(a, N)
    ensures status == if Independent(a0, N, Min(M, N)) then 0 else 1
    ensures status == 0 ==> ValidPivots(pivot[..Min(M, N)], M)
    ensures status == 0 ==> var b := Permuted(a0, pivot[..Min(M, N)]);
      && Shaped(b, N) && multiset(b) == multiset(a0)
      && forall i, c | 0 <= i < M && 0 <= c < N :: b[i][c] == Product(a, N, i, c, Min(M, N))
    ensures status == 0 ==> Bounded(a, N, Min(M, N)) && Pivots(a, N, Min(M, N))
  {
    assert Shaped(a0, N);
    hide Holds, Permuted, Independent, Stepped, Bounded, Factored, Product;
    var minMN := if M < N then M else N;
    a := a0;
    var j := 0;
    Begin(a0, N);
    assert pivot[..0] == [];
    while j < minMN
      invariant j <= minMN && |a| == M && Shaped(a, N)
      invariant Holds(A, a, N, rows)
      invariant Progress(a0, a, N, j, pivot[..j])
    {
      var jp := FindPivot(A, M, j, a, N, rows);
      pivot[j] := jp;
      assert pivot[..j + 1] == pivot[..j] + [jp];
      var p := GetEntry(A, jp, j, a, N, rows);
      if p == 0.0 {
        Stuck(a0, a, N, j, pivot[..j], jp);
        return 1, a;
      }
      Turn(a0, a, N, j, pivot[..j], jp);
      FactorColumn(A, M, N, minMN, j, jp, a, rows);
      a := Stepped(Swapped(a, j, jp), N, j);
      j := j + 1;
    }
    Complete(a0, a, N, pivot[..j]);
    return 0, a;
  }
}
