// tools/decompress.c: the expansion of 16-bit parcels. A parcel is the low half of a word.
module Decompress {
  import opened Instructions

  function GetImm(v: Word, from: Word, to: Word, mask: Word): Word
    requires from <= 32 && to <= 32
  {
    (if from > to then v >> (from - to) else v << (to - from)) & (mask << to)
  }

  datatype Expansion = NotCompressed | Illegal | Inst(word: Word)

  function Op(p: Word): Word { p & 3 }
  function CFunc3(p: Word): Word { (p >> 13) & 7 }
  // ci.imm_l and cr.rs2, ci.rd and cr.rd, ci.imm_h
  function ImmL(p: Word): Word { (p >> 2) & 0x1f }
  function CRd(p: Word): Word { (p >> 7) & 0x1f }
  function ImmH(p: Word): Word { (p >> 12) & 1 }
  // cl.rd_ and cs.rs2_ and ca.rs2_, cl.imm_l and ca.func2, cl.rs1_ and ca.rd_ and cb.rs1_, cl.imm_h and cb.imm_h
  function Rd3(p: Word): Word { (p >> 2) & 7 }
  function ImmL2(p: Word): Word { (p >> 5) & 3 }
  function Rs3(p: Word): Word { (p >> 7) & 7 }
  function ImmH3(p: Word): Word { (p >> 10) & 7 }
  function CiwImm(p: Word): Word { (p >> 5) & 0xff }
  function CssImm(p: Word): Word { (p >> 7) & 0x3f }
  function CjOffset(p: Word): Word { (p >> 2) & 0x7ff }
  function CaFunc6(p: Word): Word { (p >> 10) & 0x3f }

  function Expand0(p: Word): Expansion {
    if CFunc3(p) == 0 then
      if CiwImm(p) != 0 then
        Inst(IType(0x13, 8 + Rd3(p), 0, 2,
                   GetImm(CiwImm(p), 0, 3, 1) + GetImm(CiwImm(p), 1, 2, 1) + GetImm(CiwImm(p), 2, 6, 0xf) +
                   GetImm(CiwImm(p), 6, 4, 3)))
      else Illegal
    else if CFunc3(p) == 2 then
      Inst(IType(0x03, 8 + Rd3(p), 2, 8 + Rs3(p),
          GetImm(ImmH3(p), 0, 3, 7) + GetImm(ImmL2(p), 0, 6, 1) + GetImm(ImmL2(p), 1, 2, 1)))
    else if CFunc3(p) == 6 then
      Inst(SType(0x23, GetImm(ImmH3(p), 0, 3, 3) + GetImm(ImmL2(p), 1, 2, 1), 2, 8 + Rs3(p), 8 + Rd3(p),
                 GetImm(ImmL2(p), 0, 1, 1) + GetImm(ImmH3(p), 2, 0, 1)))
    else Illegal
  }

  function BranchLow(p: Word): Word {
    GetImm(ImmH3(p), 0, 3, 3) + GetImm(ImmL(p), 1, 1, 3) + if ImmH3(p) & 4 != 0 then 1 else 0
  }

  function BranchHigh(p: Word): Word {
    (if ImmH3(p) & 4 != 0 then 0x78 else 0) + GetImm(ImmL(p), 3, 1, 3) + GetImm(ImmL(p), 0, 0, 1)
  }

  function Branch(p: Word, func3: Word): Word { SType(0x63, BranchLow(p), func3, Rs3(p) + 8, 0, BranchHigh(p)) }

  function JumpField(p: Word): Word {
    var o := CjOffset(p);
    (if o & 0x400 != 0 then 0x801ff else 0) + GetImm(o, 0, 13, 1) + GetImm(o, 1, 9, 7) + GetImm(o, 4, 15, 1)
    + GetImm(o, 5, 14, 1) + GetImm(o, 6, 18, 1) + GetImm(o, 7, 16, 3) + GetImm(o, 9, 12, 1)
  }

  function Jump(p: Word, rd: Word): Word { UType(0x6f, rd, JumpField(p)) }

  // imm[5:0], sign-extended to the 12 bits of an I-Type
  function Imm6(p: Word): Word { (if ImmH(p) != 0 then 0xfe0 else 0) + ImmL(p) }

  function Arithmetic(p: Word): Expansion {
    var r := Rs3(p) + 8;
    var s := Rd3(p) + 8;
    if CaFunc6(p) & 3 == 0 then Inst(RType(0x13, r, 5, r, ImmL(p), 0))
    else if CaFunc6(p) & 3 == 1 then Inst(RType(0x13, r, 5, r, ImmL(p), 0x20))
    else if CaFunc6(p) & 3 == 2 then
      Inst(IType(0x13, r, 7, r, (if ImmH3(p) & 4 != 0 then 0xfe0 else 0) + ImmL(p)))
    else if CaFunc6(p) == 0x27 then Illegal
    else if ImmL2(p) == 0 then Inst(RType(0x33, r, 0, r, s, 0x20))
    else if ImmL2(p) == 1 then Inst(RType(0x33, r, 4, r, s, 0))
    else if ImmL2(p) == 2 then Inst(RType(0x33, r, 6, r, s, 0))
    else Inst(RType(0x33, r, 7, r, s, 0))
  }

  function Expand1(p: Word): Expansion {
    if CFunc3(p) == 0 then
      if CRd(p) == 0 then Inst(IType(0x13, 0, 0, 0, 0)) else Inst(IType(0x13, CRd(p), 0, CRd(p), Imm6(p)))
    else if CFunc3(p) == 1 then Inst(Jump(p, 1))
    else if CFunc3(p) == 2 then
      if CRd(p) == 0 then Inst(IType(0x13, 0, 0, 0, 0)) else Inst(IType(0x13, CRd(p), 0, 0, Imm6(p)))
    else if CFunc3(p) == 3 then
      if CRd(p) == 2 then
        if ImmH(p) != 0 || ImmL(p) != 0 then
          Inst(IType(0x13, 2, 0, 2,
                     (if ImmH(p) != 0 then 0xe00 else 0) + GetImm(ImmL(p), 0, 5, 1) + GetImm(ImmL(p), 1, 7, 3)
                     + GetImm(ImmL(p), 3, 6, 1) + GetImm(ImmL(p), 4, 4, 1)))
        else Illegal
      else if CRd(p) != 0 then
        if ImmH(p) != 0 || ImmL(p) != 0
        then Inst(UType(0x37, CRd(p), (if ImmH(p) != 0 then 0xfffe0 else 0) + ImmL(p)))
        else Illegal
      else Inst(IType(0x13, 0, 0, 0, 0))
    else if CFunc3(p) == 4 then Arithmetic(p)
    else if CFunc3(p) == 5 then Inst(Jump(p, 0))
    else if CFunc3(p) == 6 then Inst(Branch(p, 0))
    else Inst(Branch(p, 1))
  }

  function Expand2(p: Word): Expansion {
    if CFunc3(p) == 0 then
      if ImmH(p) == 0 then Inst(RType(0x13, CRd(p), 1, CRd(p), ImmL(p), 0)) else Illegal
    else if CFunc3(p) == 2 then
      if CRd(p) != 0 then
        Inst(IType(0x03, CRd(p), 2, 2, GetImm(ImmH(p), 0, 5, 1) + GetImm(ImmL(p), 0, 6, 3) + GetImm(ImmL(p), 2, 2, 7)))
      else Illegal
    else if CFunc3(p) == 4 then
      if ImmH(p) == 0 && CRd(p) != 0 && ImmL(p) == 0 then Inst(IType(0x67, 0, 0, CRd(p), 0))
      else if ImmH(p) == 0 && ImmL(p) != 0 then Inst(RType(0x33, CRd(p), 0, 0, ImmL(p), 0))
      else if ImmH(p) == 1 && CRd(p) == 0 && ImmL(p) == 0 then Inst(0x00100073)
      else if ImmH(p) == 1 && CRd(p) != 0 && ImmL(p) == 0 then Inst(IType(0x67, 1, 0, CRd(p), 0))
      else if ImmH(p) == 1 && ImmL(p) != 0 then Inst(RType(0x33, CRd(p), 0, CRd(p), ImmL(p), 0))
      else Illegal
    else if CFunc3(p) == 6 then
      Inst(SType(0x23, GetImm(CssImm(p), 2, 2, 7), 2, 2, ImmL(p),
                 GetImm(CssImm(p), 1, 2, 1) + GetImm(CssImm(p), 0, 1, 1) + GetImm(CssImm(p), 5, 0, 1)))
    else Illegal
  }

  function Expand(p: Word): Expansion {
    if Op(p) == 3 then NotCompressed
    else if Op(p) == 0 then Expand0(p)
    else if Op(p) == 1 then Expand1(p)
    else Expand2(p)
  }
}
