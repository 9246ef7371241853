// sw/scimark2/FFT.c: int_log2 and the in-place bit reversal. The elements are only moved, so their
// type is left open.
module FFT {
  import opened Options
  import opened Powers

  // None stands for the exit taken when n is not a power of two
  method IntLog2(n: nat) returns (r: Option<nat>)
    ensures r.Some? ==> n == Pow2(r.value)
    ensures r.None? ==> forall l :: n != Pow2(l)
  {
    var k, log := 1, 0;
    while k < n
      invariant k == Pow2(log)
      invariant forall l | 0 <= l < log :: Pow2(l) < n
    {
      k := k * 2;
      log := log + 1;
    }
    if n != k {
      forall l: nat
        ensures n != Pow2(l)
      {
        if l >= log {
          Pow2Grows(log, l);
        }
      }
      return None;
    }
    return Some(log);
  }

  // The low l bits of i in the opposite order
  function Rev(l: nat, i: nat): (r: nat)
    ensures r < Pow2(l)
  {
    if l == 0 then 0 else (if i % 2 == 1 then Pow2(l - 1) else 0) + Rev(l - 1, i / 2)
  }

  // The same, taking the highest bit first
  lemma {:induction false} RevHigh(l: nat, i: nat)
    requires l > 0 && i < Pow2(l)
    ensures i < Pow2(l - 1) ==> Rev(l, i) == 2 * Rev(l - 1, i)
    ensures i >= Pow2(l - 1) ==> Rev(l, i) == 2 * Rev(l - 1, i - Pow2(l - 1)) + 1
  {
    if l == 1 {
      assert Rev(0, i / 2) == 0 && Rev(0, 0) == 0 && Pow2(0) == 1;
    } else {
      RevHigh(l - 1, i / 2);
      assert Pow2(l - 1) == 2 * Pow2(l - 2);
      if i >= Pow2(l - 1) {
        var r := i - Pow2(l - 1);
        assert r % 2 == i % 2 && r / 2 == i / 2 - Pow2(l - 2);
        RevDef(l - 1, r);
      } else {
        RevDef(l - 1, i);
      }
      hide Rev;
      RevDef(l, i);
    }
  }

  lemma RevDef(l: nat, i: nat)
    requires l > 0
    ensures Rev(l, i) == (if i % 2 == 1 then Pow2(l - 1) else 0) + Rev(l - 1, i / 2)
  {
  }

  lemma {:induction false} RevTwice(l: nat, i: nat)
    requires i < Pow2(l)
    ensures Rev(l, Rev(l, i)) == i
  {
    if l > 0 {
      assert i / 2 < Pow2(l - 1);
      RevTwice(l - 1, i / 2);
      RevDef(l, i);
      hide Rev, Pow2;
      RevHigh(l, Rev(l, i));
    }
  }

  // How adding one to i changes its reversal: the carry runs towards the low bits
  lemma RevNext(l: nat, i: nat)
    requires l > 0 && i + 1 < Pow2(l)
    ensures Pow2(l - 1) <= Rev(l, i) ==>
      && l > 1 && i / 2 + 1 < Pow2(l - 1)
      && Rev(l, i) - Pow2(l - 1) == Rev(l - 1, i / 2) && Rev(l, i + 1) == Rev(l - 1, i / 2 + 1)
    ensures Rev(l, i) < Pow2(l - 1) ==> Rev(l, i + 1) == Rev(l, i) + Pow2(l - 1)
  {
    RevDef(l, i);
    RevDef(l, i + 1);
    assert Pow2(l) == 2 * Pow2(l - 1) && (l == 1 ==> Pow2(l - 1) == 1);
    hide Rev, Pow2;
    if i % 2 == 0 {
      assert (i + 1) / 2 == i / 2 && (i + 1) % 2 == 1;
    } else {
      assert (i + 1) / 2 == i / 2 + 1 && (i + 1) % 2 == 0;
    }
  }

  // s with its first 2^l pairs in bit-reversed order
  function BitReversed<T>(s: seq<T>, l: nat): (r: seq<T>)
    requires |s| >= 2 * Pow2(l)
    ensures |r| == |s|
  {
    seq(|s|, p requires 0 <= p < |s| => if p < 2 * Pow2(l) then s[2 * Rev(l, p / 2) + p % 2] else s[p])
  }

  lemma BitReversedTwice<T>(s: seq<T>, l: nat)
    requires |s| >= 2 * Pow2(l)
    ensures BitReversed(BitReversed(s, l), l) == s
  {
    hide Rev, Pow2;
    forall p | 0 <= p < |s|
      ensures BitReversed(BitReversed(s, l), l)[p] == s[p]
    {
      if p < 2 * Pow2(l) {
        RevTwice(l, p / 2);
        Halves(Rev(l, p / 2), p % 2);
      }
    }
  }

  lemma Halves(x: nat, b: nat)
    requires b < 2
    ensures (2 * x + b) / 2 == x && (2 * x + b) % 2 == b
  {
  }

  // Before turn i the pairs that precede i, or whose partner does, have been exchanged
  ghost function Exchanged<T>(s: seq<T>, l: nat, i: nat): (r: seq<T>)
    requires |s| >= 2 * Pow2(l)
    ensures |r| == |s|
  {
    seq(|s|, p requires 0 <= p < |s| =>
      if p < 2 * Pow2(l) && (p / 2 < i || Rev(l, p / 2) < i) then s[2 * Rev(l, p / 2) + p % 2] else s[p])
  }

  lemma ExchangedNone<T>(s: seq<T>, l: nat)
    requires |s| >= 2 * Pow2(l)
    ensures Exchanged(s, l, 0) == s
  {
  }

  lemma ExchangedAll<T>(s: seq<T>, l: nat)
    requires |s| >= 2 * Pow2(l)
    ensures Exchanged(s, l, Pow2(l) - 1) == BitReversed(s, l)
  {
  }

  // Turn i leaves the pairs alone unless the partner of i is yet to come
  lemma ExchangedSame<T>(s: seq<T>, l: nat, i: nat)
    requires |s| >= 2 * Pow2(l) && i < Pow2(l) && Rev(l, i) <= i
    ensures Exchanged(s, l, i + 1) == Exchanged(s, l, i)
  {
    hide Rev, Pow2;
    RevTwice(l, i);
    forall p | 0 <= p < |s|
      ensures Exchanged(s, l, i + 1)[p] == Exchanged(s, l, i)[p]
    {
      if p < 2 * Pow2(l) {
        RevTwice(l, p / 2);
      }
    }
  }

  lemma ExchangedNext<T>(s: seq<T>, l: nat, i: nat)
    requires |s| >= 2 * Pow2(l) && i < Pow2(l) && i < Rev(l, i)
    ensures var e, j := Exchanged(s, l, i), Rev(l, i);
      Exchanged(s, l, i + 1) ==
        e[2 * i := e[2 * j]][2 * i + 1 := e[2 * j + 1]][2 * j := e[2 * i]][2 * j + 1 := e[2 * i + 1]]
  {
    hide Rev, Pow2;
    var e, j := Exchanged(s, l, i), Rev(l, i);
    RevTwice(l, i);
    Halves(i, 0);
    Halves(i, 1);
    Halves(j, 0);
    Halves(j, 1);
    assert e[2 * i] == s[2 * i] && e[2 * i + 1] == s[2 * i + 1] && e[2 * j] == s[2 * j] && e[2 * j + 1] == s[2 * j + 1];
    forall p | 0 <= p < |s| && p / 2 != i && p / 2 != j
      ensures Exchanged(s, l, i + 1)[p] == e[p]
    {
      if p < 2 * Pow2(l) {
        RevTwice(l, p / 2);
      }
    }
  }

  // j, the reversal of i, becomes that of i + 1
  method NextReversed(n: nat, i: nat, j0: nat, ghost l: nat) returns (j: nat)
    requires n == Pow2(l) && j0 == Rev(l, i) && i + 1 < n
    ensures j == Rev(l, i + 1)
  {
    j := j0;
    var k := n / 2;
    ghost var m: nat, x: nat := l, i;
    while k <= j
      invariant m > 0 && k == Pow2(m - 1) && j == Rev(m, x) && x + 1 < Pow2(m)
      invariant Rev(m, x + 1) == Rev(l, i + 1)
      decreases k
    {
      RevNext(m, x);
      j := j - k;
      k := k / 2;
      m, x := m - 1, x / 2;
    }
    RevNext(m, x);
    j := j + k;
  }

  method BitReverse<T>(N: nat, data: array<T>, ghost l: nat)
    requires N / 2 == Pow2(l) && N <= data.Length
    modifies data
    ensures data[..] == BitReversed(old(data[..]), l)
  {
    hide Exchanged, BitReversed, Rev;
    ghost var s := data[..];
    var n := N / 2;
    var i, j := 0, 0;
    ExchangedNone(s, l);
    RevZero(l);
    while i < n - 1
      invariant 0 <= i <= n - 1 && j == Rev(l, i)
      invariant data[..] == Exchanged(s, l, i)
    {
      var ii, jj := 2 * i, 2 * j;
      if i < j {
        ExchangedNext(s, l, i);
        var tmpReal, tmpImag := data[ii], data[ii + 1];
        data[ii] := data[jj];
        data[ii + 1] := data[jj + 1];
        data[jj] := tmpReal;
        data[jj + 1] := tmpImag;
      } else {
        ExchangedSame(s, l, i);
      }
      j := NextReversed(n, i, j, l);
      i := i + 1;
    }
    ExchangedAll(s, l);
  }

  lemma {:induction false} RevZero(l: nat)
    ensures Rev(l, 0) == 0
  {
    if l > 0 {
      RevZero(l - 1);
    }
  }
}
