// sw/coremark/core_util.c: the 16-bit CRC.
module Crc {
  import opened Binary
  import opened MachineInts
  import opened Powers

  // One turn of the loop of crcu8, for the data bit it consumes
  function Shift(bit: bool, crc: U16): U16 {
    if bit != (crc % 2 == 1) then Flip(Flip(crc, 1), 14) / 2 % 0x8000 + 0x8000 else crc / 2 % 0x8000
  }

  // The bits move down by one place; those of the polynomial are inverted when data and state differ
  lemma ShiftedBit(bit: bool, crc: U16, i: nat)
    requires i < 16
    ensures Bit(Shift(bit, crc), i) ==
      ((i < 15 && Bit(crc, i + 1)) != (bit != Bit(crc, 0) && (i == 0 || i == 13 || i == 15)))
  {
    hide Flip, Pow2, Bit;
    Pow2Values();
    BitHalf(crc, i);
    assert crc / 2 % 0x8000 == crc / 2;
    if bit != Bit(crc, 0) {
      var x, y := Flip(crc, 1), Flip(Flip(crc, 1), 14);
      FlipInRange(crc, 1, 16);
      FlipInRange(x, 14, 16);
      assert y / 2 % 0x8000 == y / 2;
      TopBit(y / 2, 15, i);
      BitHalf(y, i);
      FlippedBit(crc, 1, i + 1);
      FlippedBit(x, 14, i + 1);
      NoBit(y / 2, 15, 15);
    } else {
      NoBit(crc, 16, 16);
    }
  }

  // The data bits, consumed in turn
  function Fold(bits: seq<bool>, crc: U16): U16 {
    if bits == [] then crc else Fold(bits[1..], Shift(bits[0], crc))
  }

  lemma {:induction false} FoldJoined(a: seq<bool>, b: seq<bool>, crc: U16)
    ensures Fold(a + b, crc) == Fold(b, Fold(a, crc))
  {
    if a == [] {
      assert a + b == b;
    } else {
      assert (a + b)[1..] == a[1..] + b;
      FoldJoined(a[1..], b, Shift(a[0], crc));
    }
  }

  method Crcu8(data0: U8, crc0: U16) returns (crc: U16)
    ensures crc == Fold(Bits(data0, 8), crc0)
  {
    hide Flip, Bits;
    crc := crc0;
    var data: U8 := data0;
    var i := 0;
    Pow2Values();
    while i < 8
      invariant 0 <= i <= 8
      invariant Fold(Bits(data0, 8), crc0) == Fold(Bits(data, 8 - i), crc)
    {
      BitsHalf(data, 8 - i);
      ghost var bit, crc1 := data % 2 == 1, crc;
      var x16 := (data % 2 + crc % 2) % 2;
      OneDiffers(data, crc);
      var carry;
      data := data / 2;
      if x16 == 1 {
        FlipInRange(crc, 1, 16);
        FlipInRange(Flip(crc, 1), 14, 16);
        crc := Flip(Flip(crc, 1), 14);
        carry := 1;
      } else {
        carry := 0;
      }
      crc := crc / 2;
      if carry != 0 {
        crc := crc % 0x8000 + 0x8000;
      } else {
        crc := crc % 0x8000;
      }
      assert crc == Shift(bit, crc1);
      i := i + 1;
    }
  }

  lemma OneDiffers(x: nat, y: nat)
    ensures (x % 2 + y % 2) % 2 == 1 <==> (x % 2 == 1) != (y % 2 == 1)
  {
  }

  lemma Halves(x: nat)
    ensures Bits(x, 16) == Bits(x % 0x100, 8) + Bits(x / 0x100, 8)
    ensures Bits(x, 32) == Bits(x % 0x1_0000, 16) + Bits(x / 0x1_0000, 16)
  {
    hide *;
    Pow2Values();
    Parts(x, 8);
    Parts(x, 16);
    BitsSplit(x, 8, 8);
    BitsSplit(x, 16, 16);
  }

  method Crcu16(newval: U16, crc0: U16) returns (crc: U16)
    ensures crc == Crc16(newval, crc0)
  {
    Halves(newval);
    FoldJoined(Bits(newval % 0x100, 8), Bits(newval / 0x100, 8), crc0);
    hide Fold, Bits;
    crc := Crcu8(newval % 0x100, crc0);
    crc := Crcu8(newval / 0x100, crc);
  }

  method Crcu32(newval: U32, crc0: U16) returns (crc: U16)
    ensures crc == Fold(Bits(newval, 32), crc0)
  {
    Halves(newval);
    FoldJoined(Bits(newval % 0x1_0000, 16), Bits(newval / 0x1_0000, 16), crc0);
    hide Fold, Bits;
    crc := Crcu16(newval % 0x1_0000, crc0);
    crc := Crcu16(newval / 0x1_0000, crc);
  }

  // crc16, which the list and the state benchmarks call
  function Crc16(newval: U16, crc: U16): U16 {
    Fold(Bits(newval, 16), crc)
  }
}
