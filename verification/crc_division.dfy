// What the CRC of core_util.c is: the remainder of a division of polynomials over GF(2).
module CrcDivision {
  import opened Binary
  import opened Crc
  import opened MachineInts
  import opened Powers

  // Coefficients, highest degree first. The state is read this way from its lowest bit on.
  type Poly = seq<bool>

  ghost function Sum(a: Poly, b: Poly): (r: Poly)
    requires |a| == |b|
    ensures |r| == |a|
  {
    seq(|a|, i requires 0 <= i < |a| => a[i] != b[i])
  }

  ghost function Zeros(n: nat): (r: Poly)
    ensures |r| == n
  {
    seq(n, _ => false)
  }

  // x^16 + x^15 + x^2 + 1
  ghost function Generator(): (r: Poly)
    ensures |r| == 17 && r[0]
  {
    seq(17, i => i == 0 || i == 1 || i == 14 || i == 16)
  }

  ghost function Times(q: Poly, g: Poly): (r: Poly)
    requires g != []
    ensures |r| == |q| + |g| - 1
  {
    if q == [] then Zeros(|g| - 1)
    else Sum((if q[0] then g else Zeros(|g|)) + Zeros(|q| - 1), [false] + Times(q[1..], g))
  }

  // p = q * g + r, the degree of r below that of g
  ghost predicate Divides(p: Poly, g: Poly, q: Poly, r: Poly) {
    g != [] && |r| == |g| - 1 && |p| == |q| + |r| && p == Sum(Times(q, g), Zeros(|q|) + r)
  }

  lemma {:induction false} DivisionIsUnique(p: Poly, g: Poly, q: Poly, r: Poly, q': Poly, r': Poly)
    requires g != [] && g[0] && Divides(p, g, q, r) && Divides(p, g, q', r')
    ensures q' == q && r' == r
    decreases |q|
  {
    if q == [] {
      LastStep(p, g, r);
      LastStep(p, g, r');
    } else {
      FirstStep(p, g, q, r);
      FirstStep(p, g, q', r');
      DivisionIsUnique(Sum(p, (if p[0] then g else Zeros(|g|)) + Zeros(|q| - 1))[1..], g, q[1..], r, q'[1..], r');
      assert q == [q[0]] + q[1..] && q' == [q'[0]] + q'[1..];
    }
  }

  lemma LastStep(p: Poly, g: Poly, r: Poly)
    requires Divides(p, g, [], r)
    ensures p == r
  {
    assert forall i | 0 <= i < |p| :: p[i] == (Zeros(0) + r)[i];
  }

  // The first step of a long division
  lemma FirstStep(p: Poly, g: Poly, q: Poly, r: Poly)
    requires g != [] && g[0] && q != [] && Divides(p, g, q, r)
    ensures p[0] == q[0]
    ensures Divides(Sum(p, (if p[0] then g else Zeros(|g|)) + Zeros(|q| - 1))[1..], g, q[1..], r)
  {
    var t := Times(q[1..], g);
    var f := (if q[0] then g else Zeros(|g|)) + Zeros(|q| - 1);
    assert Times(q, g) == Sum(f, [false] + t);
    hide Times, Divides;
    StepApart(p, f, t, r, |q|);
    assert Zeros(|g|)[0] == false;
    StepTaken(p, g, q[1..], f, t, r);
  }

  lemma StepApart(p: Poly, f: Poly, t: Poly, r: Poly, n: nat)
    requires n > 0 && |f| == |p| == n + |r| && |t| == |p| - 1 && p == Sum(Sum(f, [false] + t), Zeros(n) + r)
    ensures p[0] == f[0] && Sum(p, f)[1..] == Sum(t, Zeros(n - 1) + r)
  {
    assert forall i | 0 <= i < |p| :: p[i] == ((f[i] != ([false] + t)[i]) != (Zeros(n) + r)[i]);
  }

  lemma StepTaken(p: Poly, g: Poly, q: Poly, f: Poly, t: Poly, r: Poly)
    requires g != [] && t == Times(q, g) && |f| == |p| == |q| + 1 + |r| && |r| == |g| - 1
    requires Sum(p, f)[1..] == Sum(t, Zeros(|q|) + r)
    ensures Divides(Sum(p, f)[1..], g, q, r)
  {
  }

  // A further coefficient at the low end
  lemma {:induction false} TimesAppended(q: Poly, b: bool, g: Poly)
    requires g != []
    ensures Times(q + [b], g) == Sum(Times(q, g) + [false], Zeros(|q|) + if b then g else Zeros(|g|))
  {
    hide Times, Sum, Zeros;
    var bg := if b then g else Zeros(|g|);
    if q == [] {
      TimesOfOne(q, b, g);
    } else {
      TimesAppended(q[1..], b, g);
      assert (q + [b])[1..] == q[1..] + [b];
      TimesHead(q, g);
      TimesHead(q + [b], g);
      TimesRegrouped(if q[0] then g else Zeros(|g|), Times(q[1..], g), bg, |q|);
    }
  }

  lemma TimesOfOne(q: Poly, b: bool, g: Poly)
    requires q == [] && g != []
    ensures Times(q + [b], g) == Sum(Times(q, g) + [false], Zeros(|q|) + if b then g else Zeros(|g|))
  {
    var bg := if b then g else Zeros(|g|);
    assert [b][1..] == [] && Times([b][1..], g) == Zeros(|g| - 1);
    assert Times([b], g) == Sum(bg + Zeros(0), [false] + Zeros(|g| - 1));
  }

  lemma TimesHead(q: Poly, g: Poly)
    requires q != [] && g != []
    ensures Times(q, g) == Sum((if q[0] then g else Zeros(|g|)) + Zeros(|q| - 1), [false] + Times(q[1..], g))
  {
  }

  lemma TimesRegrouped(f: Poly, t: Poly, bg: Poly, n: nat)
    requires n > 0 && |f| == |bg| > 0 && |t| == n - 1 + |f| - 1
    ensures Sum(f + Zeros(n), [false] + Sum(t + [false], Zeros(n - 1) + bg)) ==
      Sum(Sum(f + Zeros(n - 1), [false] + t) + [false], Zeros(n) + bg)
  {
  }

  // The message followed by 16 zeros, with the initial state added to its front
  ghost function Dividend(m: Poly, crc: U16): (r: Poly)
    ensures |r| == |m| + 16
  {
    Sum(m + Zeros(16), Bits(crc, 16) + Zeros(|m|))
  }

  // The CRC of a message is the remainder of its division by the generator
  lemma {:induction false} CrcIsRemainder(m: Poly, crc: U16) returns (q: Poly)
    ensures Divides(Dividend(m, crc), Generator(), q, Bits(Fold(m, crc), 16))
  {
    if m == [] {
      q := [];
      assert Times([], Generator()) == Zeros(16);
    } else {
      var n := |m| - 1;
      var m0, d := m[..n], m[n];
      var q0 := CrcIsRemainder(m0, crc);
      var c := Fold(m0, crc);
      assert m == m0 + [d];
      FoldJoined(m0, [d], crc);
      assert Fold([d], c) == Shift(d, c) by { assert [d][1..] == []; }
      q := q0 + [d != Bit(c, 0)];
      TimesAppended(q0, d != Bit(c, 0), Generator());
      DividendAppended(m0, d, crc);
      DivisionStep(Dividend(m0, crc), Times(q0, Generator()), d, c, n);
    }
  }

  lemma DividendAppended(m: Poly, d: bool, crc: U16)
    ensures Dividend(m + [d], crc) == Sum(Dividend(m, crc) + [false], Zeros(|m|) + [d] + Zeros(16))
  {
    hide Bits;
    forall i | 0 <= i < |m| + 17
      ensures Dividend(m + [d], crc)[i] == Sum(Dividend(m, crc) + [false], Zeros(|m|) + [d] + Zeros(16))[i]
    {
    }
  }

  lemma DivisionStep(p: Poly, t: Poly, d: bool, c: U16, n: nat)
    requires |p| == |t| == n + 16 && p == Sum(t, Zeros(n) + Bits(c, 16))
    ensures var top := if d != Bit(c, 0) then Generator() else Zeros(17);
      Sum(p + [false], Zeros(n) + [d] + Zeros(16))
          == Sum(Sum(t + [false], Zeros(n) + top), Zeros(n + 1) + Bits(Shift(d, c), 16))
  {
    hide Bit, Shift;
    var top := if d != Bit(c, 0) then Generator() else Zeros(17);
    forall k | 0 <= k < 17
      ensures ((k < 16 && Bit(c, k)) != (k == 0 && d)) == (top[k] != (k > 0 && Bit(Shift(d, c), k - 1)))
    {
      if k > 0 {
        ShiftedBit(d, c, k - 1);
      }
    }
    forall i | 0 <= i < n + 17
      ensures Sum(p + [false], Zeros(n) + [d] + Zeros(16))[i] ==
        Sum(Sum(t + [false], Zeros(n) + top), Zeros(n + 1) + Bits(Shift(d, c), 16))[i]
    {
      if i < n + 16 {
        assert p[i] == (t[i] != (i >= n && Bit(c, i - n)));
      }
    }
  }

  // The CRC is linear in message and state together
  lemma {:induction false} CrcIsLinear(m: Poly, m': Poly, a: U16, b: U16, c: U16)
    requires |m| == |m'| && Bits(c, 16) == Sum(Bits(a, 16), Bits(b, 16))
    ensures Bits(Fold(Sum(m, m'), c), 16) == Sum(Bits(Fold(m, a), 16), Bits(Fold(m', b), 16))
  {
    if m != [] {
      var d, e := m[0], m'[0];
      ShiftIsLinear(d, e, a, b, c);
      assert Sum(m, m')[1..] == Sum(m[1..], m'[1..]) && Sum(m, m')[0] == (d != e);
      CrcIsLinear(m[1..], m'[1..], Shift(d, a), Shift(e, b), Shift(d != e, c));
    }
  }

  lemma ShiftIsLinear(d: bool, e: bool, a: U16, b: U16, c: U16)
    requires Bits(c, 16) == Sum(Bits(a, 16), Bits(b, 16))
    ensures Bits(Shift(d != e, c), 16) == Sum(Bits(Shift(d, a), 16), Bits(Shift(e, b), 16))
  {
    hide Bit, Shift;
    assert forall i | 0 <= i < 16 :: Bits(c, 16)[i] == (Bits(a, 16)[i] != Bits(b, 16)[i]);
    forall i | 0 <= i < 16
      ensures Bit(Shift(d != e, c), i) == (Bit(Shift(d, a), i) != Bit(Shift(e, b), i))
    {
      ShiftedBit(d != e, c, i);
      ShiftedBit(d, a, i);
      ShiftedBit(e, b, i);
      assert Bits(c, 16)[0] == Bit(c, 0) && Bits(a, 16)[0] == Bit(a, 0) && Bits(b, 16)[0] == Bit(b, 0);
      if i < 15 {
        var k := i + 1;
        assert Bits(c, 16)[k] == Bit(c, k) && Bits(a, 16)[k] == Bit(a, k) && Bits(b, 16)[k] == Bit(b, k);
      }
    }
  }

  // Two states that agree from bit k on, and whose next data bits are taken in alike
  ghost predicate Agree(x: U16, y: U16, k: nat) {
    forall i | k <= i < 16 :: Bit(x, i) == Bit(y, i)
  }

  lemma ShiftBack(d: bool, e: bool, x: U16, y: U16, k: nat)
    requires k <= 15 && Agree(Shift(d, x), Shift(e, y), k)
    ensures Agree(x, y, k + 1) && (d != Bit(x, 0)) == (e != Bit(y, 0))
  {
    hide Bit, Shift;
    ShiftedBit(d, x, 15);
    ShiftedBit(e, y, 15);
    forall i | k + 1 <= i < 16
      ensures Bit(x, i) == Bit(y, i)
    {
      ShiftedBit(d, x, i - 1);
      ShiftedBit(e, y, i - 1);
      var j := i - 1;
      assert Bit(Shift(d, x), j) == Bit(Shift(e, y), j);
    }
  }

  lemma {:induction false} FoldBack(w: Poly, w': Poly, x: U16, y: U16)
    requires |w| == |w'| <= 16 && Fold(w, x) == Fold(w', y)
    ensures Agree(x, y, |w|)
    ensures w != [] ==> (w[0] != Bit(x, 0)) == (w'[0] != Bit(y, 0))
  {
    if w != [] {
      FoldBack(w[1..], w'[1..], Shift(w[0], x), Shift(w'[0], y));
      ShiftBack(w[0], w'[0], x, y, |w| - 1);
    }
  }

  // From one state, different data of up to 16 bits lead to different states
  lemma {:induction false} ShortDataDiffer(w: Poly, w': Poly, c: U16)
    requires |w| == |w'| <= 16 && Fold(w, c) == Fold(w', c)
    ensures w == w'
  {
    if w != [] {
      FoldBack(w, w', c, c);
      ShortDataDiffer(w[1..], w'[1..], Shift(w[0], c));
      assert w == [w[0]] + w[1..] && w' == [w'[0]] + w'[1..];
    }
  }

  // The same data keep different states apart
  lemma {:induction false} StatesStayApart(m: Poly, x: U16, y: U16)
    requires Fold(m, x) == Fold(m, y)
    ensures x == y
  {
    if m != [] {
      StatesStayApart(m[1..], Shift(m[0], x), Shift(m[0], y));
      ShiftBack(m[0], m[0], x, y, 0);
      Pow2Values();
      hide Bit, Pow2;
      SameBits(x, y, 16);
    }
  }

  // Messages that differ within a window of 16 bits, and nowhere else, have different CRCs
  lemma BurstsAreDetected(front: Poly, w: Poly, w': Poly, back: Poly, crc: U16)
    requires |w| == |w'| <= 16 && w != w'
    ensures Fold(front + w + back, crc) != Fold(front + w' + back, crc)
  {
    var c := Fold(front, crc);
    FoldJoined(front + w, back, crc);
    FoldJoined(front + w', back, crc);
    FoldJoined(front, w, crc);
    FoldJoined(front, w', crc);
    if Fold(front + w + back, crc) == Fold(front + w' + back, crc) {
      StatesStayApart(back, Fold(w, c), Fold(w', c));
      ShortDataDiffer(w, w', c);
    }
  }

  // Byte streams

  ghost function BitStream(data: seq<U8>): Poly {
    if data == [] then [] else Bits(data[0], 8) + BitStream(data[1..])
  }

  method CrcBytes(data: seq<U8>) returns (crc: U16, ghost q: Poly)
    ensures crc == Fold(BitStream(data), 0)
    ensures Divides(BitStream(data) + Zeros(16), Generator(), q, Bits(crc, 16))
  {
    hide Bits, Divides, Generator, Times;
    crc := 0;
    ghost var rest := data;
    var i := 0;
    while i < |data|
      invariant 0 <= i <= |data| && rest == data[i..]
      invariant Fold(BitStream(data), 0) == Fold(BitStream(rest), crc)
    {
      FoldJoined(Bits(data[i], 8), BitStream(rest[1..]), crc);
      crc := Crcu8(data[i], crc);
      rest := rest[1..];
      i := i + 1;
    }
    q := CrcIsRemainder(BitStream(data), 0);
    FromZero(BitStream(data));
  }

  lemma FromZero(m: Poly)
    ensures Dividend(m, 0) == m + Zeros(16)
  {
    forall i | 0 <= i < 16
      ensures !Bit(0, i)
    {
      NoBit(0, 0, i);
    }
    hide Bit;
  }
}
