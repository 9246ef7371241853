// tools/riscv-disas.c on 16-bit parcels, for rv32: the second decoder.
module Disassembly {
  import opened Compressed
  import opened Decompress
  import opened Instructions

  // rv_inst
  type Inst64 = bv64

  // The conversion to 32 bits of what the operand functions compute
  function Low(v: Inst64): Word { (v & 0xffff_ffff) as Word }

  // (inst >> lo) & mask
  function Select(i: Inst64, lo: Inst64, mask: Inst64): Word
    requires lo < 64
  {
    Low((i >> lo) & mask)
  }

  // (int64_t)v >> 63
  function Sign64(v: Inst64): Inst64 { if v & 0x8000_0000_0000_0000 != 0 then 0xffff_ffff_ffff_ffff else 0 }

  function Crdq(i: Inst64): Word { Low((i << 59) >> 61) }
  function Crs1q(i: Inst64): Word { Low((i << 54) >> 61) }
  function Crs2q(i: Inst64): Word { Low((i << 59) >> 61) }
  function Crd(i: Inst64): Word { Low((i << 52) >> 59) }
  function Crs2(i: Inst64): Word { Low((i << 57) >> 59) }
  function Cimmsh6(i: Inst64): Word { Low((((i << 51) >> 63) << 5) | ((i << 57) >> 59)) }
  function Cimmi(i: Inst64): Word { Low((Sign64(i << 51) << 5) | ((i << 57) >> 59)) }
  function Cimmui(i: Inst64): Word { Low((Sign64(i << 51) << 17) | (((i << 57) >> 59) << 12)) }
  function Cimmlwsp(i: Inst64): Word {
    Low((((i << 51) >> 63) << 5) | (((i << 57) >> 61) << 2) | (((i << 60) >> 62) << 6))
  }

  function Cimm16sp(i: Inst64): Word {
    Low((Sign64(i << 51) << 9) | (((i << 57) >> 63) << 4) | (((i << 58) >> 63) << 6) | (((i << 59) >> 62) << 7)
        | (((i << 61) >> 63) << 5))
  }

  function Cimmj(i: Inst64): Word {
    Low((Sign64(i << 51) << 11) | (((i << 52) >> 63) << 4) | (((i << 53) >> 62) << 8) | (((i << 55) >> 63) << 10)
        | (((i << 56) >> 63) << 6) | (((i << 57) >> 63) << 7) | (((i << 58) >> 61) << 1) | (((i << 61) >> 63) << 5))
  }

  function Cimmb(i: Inst64): Word {
    Low((Sign64(i << 51) << 8) | (((i << 52) >> 62) << 3) | (((i << 57) >> 62) << 6) | (((i << 59) >> 62) << 1)
        | (((i << 61) >> 63) << 5))
  }

  function Cimmswsp(i: Inst64): Word { Low((((i << 51) >> 60) << 2) | (((i << 55) >> 62) << 6)) }

  function Cimm4spn(i: Inst64): Word {
    Low((((i << 51) >> 62) << 4) | (((i << 53) >> 60) << 6) | (((i << 57) >> 63) << 2) | (((i << 58) >> 63) << 3))
  }

  function Cimmw(i: Inst64): Word {
    Low((((i << 51) >> 61) << 3) | (((i << 57) >> 63) << 2) | (((i << 58) >> 63) << 6))
  }

  // Foreign stands for instructions of other extensions
  datatype Reading = Rejected | Foreign | Reads(instr: Instr)

  // Pseudo-entries marked rvcd_imm_nz
  function NonZero(imm: Word, i: Instr): Reading { if imm == 0 then Rejected else Reads(i) }

  function Read0(i: Inst64): Reading {
    var f := Select(i, 13, 7);
    if f == 0 then NonZero(Cimm4spn(i), Addi(Crdq(i) + 8, 2, Cimm4spn(i)))
    else if f == 2 then Reads(Lw(Crdq(i) + 8, Crs1q(i) + 8, Cimmw(i)))
    else if f == 6 then Reads(Sw(Crs1q(i) + 8, Crs2q(i) + 8, Cimmw(i)))
    else if f == 4 then Rejected
    else Foreign
  }

  function ReadMisc(i: Inst64): Reading {
    var r, s, f := Crs1q(i) + 8, Crs2q(i) + 8, Select(i, 10, 3);
    if f == 0 then NonZero(Cimmsh6(i), Srli(r, r, Cimmsh6(i)))
    else if f == 1 then NonZero(Cimmsh6(i), Srai(r, r, Cimmsh6(i)))
    else if f == 2 then NonZero(Cimmi(i), Andi(r, r, Cimmi(i)))
    else
      var g := Select(i, 10, 4) | Select(i, 5, 3);
      if g == 0 then Reads(Sub(r, r, s))
      else if g == 1 then Reads(Xor(r, r, s))
      else if g == 2 then Reads(Or(r, r, s))
      else if g == 3 then Reads(And(r, r, s))
      else if g == 4 || g == 5 then Foreign
      else Rejected
  }

  function Read1(i: Inst64): Reading {
    var f := Select(i, 13, 7);
    if f == 0 then if Select(i, 2, 0x7ff) == 0 then Reads(Addi(0, 0, 0)) else Reads(Addi(Crd(i), Crd(i), Cimmi(i)))
    else if f == 1 then Reads(Jal(1, Cimmj(i)))
    else if f == 2 then Reads(Addi(Crd(i), 0, Cimmi(i)))
    else if f == 3 then
      if Select(i, 7, 0x1f) == 2 then NonZero(Cimm16sp(i), Addi(2, 2, Cimm16sp(i)))
      else NonZero(Cimmui(i), Lui(Crd(i), Cimmui(i)))
    else if f == 4 then ReadMisc(i)
    else if f == 5 then Reads(Jal(0, Cimmj(i)))
    else if f == 6 then Reads(Beq(Crs1q(i) + 8, 0, Cimmb(i)))
    else Reads(Bne(Crs1q(i) + 8, 0, Cimmb(i)))
  }

  function Read2(i: Inst64): Reading {
    var f := Select(i, 13, 7);
    if f == 0 then NonZero(Cimmsh6(i), Slli(Crd(i), Crd(i), Cimmsh6(i)))
    else if f == 2 then Reads(Lw(Crd(i), 2, Cimmlwsp(i)))
    else if f == 4 then
      if Select(i, 12, 1) == 0 then
        if Select(i, 2, 0x1f) == 0 then Reads(Jalr(0, Crd(i), 0)) else Reads(Addi(Crd(i), Crs2(i), 0))
      else if Select(i, 2, 0x1f) == 0 then
        if Select(i, 7, 0x1f) == 0 then Reads(Ebreak) else Reads(Jalr(1, Crd(i), 0))
      else Reads(Add(Crd(i), Crd(i), Crs2(i)))
    else if f == 6 then Reads(Sw(2, Crs2(i), Cimmswsp(i)))
    else Foreign
  }

  // A parcel as it is fetched
  function Wide(p: Word): Inst64 { (p & 0xffff) as Inst64 }

  function Disassemble(p: Word): Reading
    requires Op(p) != 3
  {
    if Op(p) == 0 then Read0(Wide(p)) else if Op(p) == 1 then Read1(Wide(p)) else Read2(Wide(p))
  }

  // shamt[5:0]
  function Amount(p: Word): Word { (ImmH(p) << 5) | ImmL(p) }

  // Parcel by parcel, in the fields of the standard

  lemma ReadsAddi4spn(p: Word)
    requires Op(p) == 0 && CFunc3(p) == 0
    ensures Disassemble(p) == NonZero(Addi4spnImm(p), Addi(PopularReg(p, 2), 2, Addi4spnImm(p)))
  {
  }

  lemma ReadsLw(p: Word)
    requires Op(p) == 0 && CFunc3(p) == 2
    ensures Disassemble(p) == Reads(Lw(PopularReg(p, 2), PopularReg(p, 7), LwImm(p)))
  {
  }

  lemma ReadsSw(p: Word)
    requires Op(p) == 0 && CFunc3(p) == 6
    ensures Disassemble(p) == Reads(Sw(PopularReg(p, 7), PopularReg(p, 2), LwImm(p)))
  {
  }

  lemma ReadsOther0(p: Word)
    requires Op(p) == 0 && CFunc3(p) != 0 && CFunc3(p) != 2 && CFunc3(p) != 6
    ensures Disassemble(p) == if CFunc3(p) == 4 then Rejected else Foreign
  {
  }

  lemma ReadsAddi(p: Word)
    requires Op(p) == 1 && CFunc3(p) == 0
    ensures Disassemble(p) == Reads(Addi(CRd(p), CRd(p), Imm6Of(p)))
  {
  }

  lemma ReadsLi(p: Word)
    requires Op(p) == 1 && CFunc3(p) == 2
    ensures Disassemble(p) == Reads(Addi(CRd(p), 0, Imm6Of(p)))
  {
  }

  lemma ReadsAddi16sp(p: Word)
    requires Op(p) == 1 && CFunc3(p) == 3 && CRd(p) == 2
    ensures Disassemble(p) == NonZero(Addi16spImm(p), Addi(2, 2, Addi16spImm(p)))
  {
  }

  lemma ReadsLui(p: Word)
    requires Op(p) == 1 && CFunc3(p) == 3 && CRd(p) != 2
    ensures Disassemble(p) == NonZero(LuiImm(p), Lui(CRd(p), LuiImm(p)))
  {
    hide Cimmui, LuiImm, Wide, Select, Crd, CRd, CFunc3;
    CimmuiMeans(p);
    SelectsQuadrant1(p);
    SelectsRd(p);
  }

  lemma CimmuiMeans(p: Word)
    ensures Cimmui(Wide(p)) == LuiImm(p)
  {
  }

  lemma SelectsRd(p: Word)
    ensures Crd(Wide(p)) == CRd(p) && Select(Wide(p), 7, 0x1f) == CRd(p)
  {
  }

  lemma ReadsSrli(p: Word)
    requires Op(p) == 1 && CFunc3(p) == 4 && CaFunc6(p) & 3 == 0
    ensures Disassemble(p) == NonZero(Amount(p), Srli(PopularReg(p, 7), PopularReg(p, 7), Amount(p)))
  {
  }

  lemma ReadsSrai(p: Word)
    requires Op(p) == 1 && CFunc3(p) == 4 && CaFunc6(p) & 3 == 1
    ensures Disassemble(p) == NonZero(Amount(p), Srai(PopularReg(p, 7), PopularReg(p, 7), Amount(p)))
  {
  }

  lemma ReadsAndi(p: Word)
    requires Op(p) == 1 && CFunc3(p) == 4 && CaFunc6(p) & 3 == 2
    ensures Disassemble(p) == NonZero(Imm6Of(p), Andi(PopularReg(p, 7), PopularReg(p, 7), Imm6Of(p)))
  {
  }

  lemma ReadsSub(p: Word)
    requires Op(p) == 1 && CFunc3(p) == 4 && CaFunc6(p) & 3 == 3 && ImmH(p) == 0 && ImmL2(p) == 0
    ensures Disassemble(p) == Reads(Sub(PopularReg(p, 7), PopularReg(p, 7), PopularReg(p, 2)))
  {
  }

  lemma ReadsXor(p: Word)
    requires Op(p) == 1 && CFunc3(p) == 4 && CaFunc6(p) & 3 == 3 && ImmH(p) == 0 && ImmL2(p) == 1
    ensures Disassemble(p) == Reads(Xor(PopularReg(p, 7), PopularReg(p, 7), PopularReg(p, 2)))
  {
  }

  lemma ReadsOr(p: Word)
    requires Op(p) == 1 && CFunc3(p) == 4 && CaFunc6(p) & 3 == 3 && ImmH(p) == 0 && ImmL2(p) == 2
    ensures Disassemble(p) == Reads(Or(PopularReg(p, 7), PopularReg(p, 7), PopularReg(p, 2)))
  {
  }

  lemma ReadsAnd(p: Word)
    requires Op(p) == 1 && CFunc3(p) == 4 && CaFunc6(p) & 3 == 3 && ImmH(p) == 0 && ImmL2(p) == 3
    ensures Disassemble(p) == Reads(And(PopularReg(p, 7), PopularReg(p, 7), PopularReg(p, 2)))
  {
  }

  lemma ReadsWide(p: Word)
    requires Op(p) == 1 && CFunc3(p) == 4 && CaFunc6(p) & 3 == 3 && ImmH(p) == 1
    ensures Disassemble(p) == if ImmL2(p) < 2 then Foreign else Rejected
  {
  }

  lemma CimmjLow(p: Word)
    ensures Cimmj(Wide(p)) & 0x7ff == JumpImm(p) & 0x7ff
  {
  }

  lemma CimmjHigh(p: Word)
    ensures Cimmj(Wide(p)) >> 11 == JumpImm(p) >> 11
  {
  }

  lemma TwoParts(x: Word, y: Word)
    requires x & 0x7ff == y & 0x7ff && x >> 11 == y >> 11
    ensures x == y
  {
  }

  lemma SelectsQuadrant1(p: Word)
    requires Op(p) == 1
    ensures Select(Wide(p), 13, 7) == CFunc3(p)
  {
  }

  lemma ReadsJal(p: Word)
    requires Op(p) == 1 && CFunc3(p) == 1
    ensures Disassemble(p) == Reads(Jal(1, JumpImm(p)))
  {
    hide Cimmj, JumpImm, Wide, Select;
    CimmjLow(p);
    CimmjHigh(p);
    TwoParts(Cimmj(Wide(p)), JumpImm(p));
    SelectsQuadrant1(p);
  }

  lemma ReadsJ(p: Word)
    requires Op(p) == 1 && CFunc3(p) == 5
    ensures Disassemble(p) == Reads(Jal(0, JumpImm(p)))
  {
    hide Cimmj, JumpImm, Wide, Select;
    CimmjLow(p);
    CimmjHigh(p);
    TwoParts(Cimmj(Wide(p)), JumpImm(p));
    SelectsQuadrant1(p);
  }

  lemma ReadsBeqz(p: Word)
    requires Op(p) == 1 && CFunc3(p) == 6
    ensures Disassemble(p) == Reads(Beq(PopularReg(p, 7), 0, BranchImm(p)))
  {
  }

  lemma ReadsBnez(p: Word)
    requires Op(p) == 1 && CFunc3(p) == 7
    ensures Disassemble(p) == Reads(Bne(PopularReg(p, 7), 0, BranchImm(p)))
  {
  }

  lemma ReadsSlli(p: Word)
    requires Op(p) == 2 && CFunc3(p) == 0
    ensures Disassemble(p) == NonZero(Amount(p), Slli(CRd(p), CRd(p), Amount(p)))
  {
  }

  lemma ReadsLwsp(p: Word)
    requires Op(p) == 2 && CFunc3(p) == 2
    ensures Disassemble(p) == Reads(Lw(CRd(p), 2, LwspImm(p)))
  {
  }

  lemma ReadsJr(p: Word)
    requires Op(p) == 2 && CFunc3(p) == 4 && ImmL(p) == 0 && (CRd(p) != 0 || ImmH(p) == 0)
    ensures Disassemble(p) == Reads(Jalr(ImmH(p), CRd(p), 0))
  {
  }

  lemma ReadsEbreak(p: Word)
    requires Op(p) == 2 && CFunc3(p) == 4 && ImmL(p) == 0 && CRd(p) == 0 && ImmH(p) == 1
    ensures Disassemble(p) == Reads(Ebreak)
  {
  }

  lemma ReadsMv(p: Word)
    requires Op(p) == 2 && CFunc3(p) == 4 && ImmL(p) != 0 && ImmH(p) == 0
    ensures Disassemble(p) == Reads(Addi(CRd(p), ImmL(p), 0))
  {
  }

  lemma ReadsAdd(p: Word)
    requires Op(p) == 2 && CFunc3(p) == 4 && ImmL(p) != 0 && ImmH(p) == 1
    ensures Disassemble(p) == Reads(Add(CRd(p), CRd(p), ImmL(p)))
  {
  }

  lemma ReadsSwsp(p: Word)
    requires Op(p) == 2 && CFunc3(p) == 6
    ensures Disassemble(p) == Reads(Sw(2, ImmL(p), SwspImm(p)))
  {
  }

  lemma ReadsOther2(p: Word)
    requires Op(p) == 2 && CFunc3(p) != 0 && CFunc3(p) != 2 && CFunc3(p) != 4 && CFunc3(p) != 6
    ensures Disassemble(p) == Foreign
  {
  }

  // Legal parcels that the disassembler takes for illegal: immediates of zero that are hints, or
  // for c.andi an ordinary operand
  predicate Strict(p: Word) {
    || (Op(p) == 1 && CFunc3(p) == 4 && CaFunc6(p) & 3 < 3 && ImmH(p) == 0 && ImmL(p) == 0)
    || (Op(p) == 2 && CFunc3(p) == 0 && ImmH(p) == 0 && ImmL(p) == 0)
  }

  // Reserved parcels that it reads: shifts by 32 and more, c.lwsp to x0 and c.jr through x0
  predicate LaxRead(p: Word) {
    || (Op(p) == 1 && CFunc3(p) == 4 && CaFunc6(p) & 3 < 2 && ImmH(p) == 1)
    || (Op(p) == 2 && CFunc3(p) == 0 && ImmH(p) == 1)
    || (Op(p) == 2 && CFunc3(p) == 2 && CRd(p) == 0)
    || (Op(p) == 2 && CFunc3(p) == 4 && ImmH(p) == 0 && ImmL(p) == 0 && CRd(p) == 0)
  }

  // What the disassembler reads where the standard gives a meaning, or none
  ghost predicate Consistent(r: Reading, m: Meaning, strict: bool, lax: bool) {
    match m
    case Means(i) => (r.Reads? <==> !strict) && (r.Reads? ==> SameEffect(r.instr, i))
    case Reserved => r.Reads? <==> lax
  }

  lemma Same(i: Instr)
    ensures SameEffect(i, i)
  {
  }

  lemma Zeros(p: Word)
    ensures Imm6Of(p) == 0 <==> ImmH(p) == 0 && ImmL(p) == 0
    ensures Addi16spImm(p) == 0 <==> ImmH(p) == 0 && ImmL(p) == 0
    ensures LuiImm(p) == 0 <==> ImmH(p) == 0 && ImmL(p) == 0
    ensures Amount(p) == 0 <==> ImmH(p) == 0 && ImmL(p) == 0
    ensures ImmH(p) == 0 ==> Amount(p) == ImmL(p)
  {
  }

  lemma Reading0(p: Word)
    requires Op(p) == 0
    ensures Consistent(Disassemble(p), Quadrant0(p), Strict(p), LaxRead(p))
  {
    hide Disassemble, SameEffect, Field, PopularReg, Addi4spnImm, LwImm, SwspImm, LwspImm, JumpImm, BranchImm, LuiImm,
      Addi16spImm, Imm6Of, Op, CFunc3, CaFunc6, CRd, ImmH, ImmL, ImmL2, Amount;
    Fields(p);
    if CFunc3(p) == 0 {
      ReadsAddi4spn(p);
    } else if CFunc3(p) == 2 {
      ReadsLw(p);
    } else if CFunc3(p) == 6 {
      ReadsSw(p);
    } else {
      ReadsOther0(p);
    }
    if Disassemble(p).Reads? {
      Same(Disassemble(p).instr);
    }
  }

  lemma ReadingMisc(p: Word)
    requires Op(p) == 1 && CFunc3(p) == 4
    ensures Consistent(Disassemble(p), Misc(p), Strict(p), LaxRead(p))
  {
    hide Disassemble, SameEffect, Field, PopularReg, Addi4spnImm, LwImm, SwspImm, LwspImm, JumpImm, BranchImm, LuiImm,
      Addi16spImm, Imm6Of, Op, CFunc3, CaFunc6, CRd, ImmH, ImmL, ImmL2, Amount;
    Fields(p);
    OneBit(p);
    Zeros(p);
    TwoBits(p);
    var f, g := CaFunc6(p) & 3, ImmL2(p);
    if f == 0 {
      ReadsSrli(p);
    } else if f == 1 {
      ReadsSrai(p);
    } else if f == 2 {
      ReadsAndi(p);
    } else if ImmH(p) == 1 {
      ReadsWide(p);
    } else if g == 0 {
      ReadsSub(p);
    } else if g == 1 {
      ReadsXor(p);
    } else if g == 2 {
      ReadsOr(p);
    } else {
      ReadsAnd(p);
    }
    if Disassemble(p).Reads? {
      Same(Disassemble(p).instr);
    }
  }

  lemma TwoBits(p: Word)
    ensures ImmL2(p) < 4 && CaFunc6(p) & 3 < 4
  {
  }

  lemma Reading1(p: Word)
    requires Op(p) == 1
    ensures Consistent(Disassemble(p), Quadrant1(p), Strict(p), LaxRead(p))
  {
    hide Disassemble, SameEffect, Misc, Field, PopularReg, Addi4spnImm, LwImm, SwspImm, LwspImm, JumpImm, BranchImm,
      LuiImm, Addi16spImm, Imm6Of, Op, CFunc3, CaFunc6, CRd, ImmH, ImmL, ImmL2, Amount;
    Fields(p);
    OneBit(p);
    Zeros(p);
    ThreeBits(p);
    var f := CFunc3(p);
    if f == 4 {
      ReadingMisc(p);
    } else if f == 0 {
      ReadsAddi(p);
    } else if f == 1 {
      ReadsJal(p);
    } else if f == 2 {
      ReadsLi(p);
    } else if f == 3 {
      if CRd(p) == 2 {
        ReadsAddi16sp(p);
      } else {
        ReadsLui(p);
      }
    } else if f == 5 {
      ReadsJ(p);
    } else if f == 6 {
      ReadsBeqz(p);
    } else {
      ReadsBnez(p);
    }
    if Disassemble(p).Reads? {
      Same(Disassemble(p).instr);
    }
  }

  lemma ThreeBits(p: Word)
    ensures CFunc3(p) < 8
  {
  }

  // c.mv is read as an addition of zero
  lemma MoveEffect(rd: Word, rs: Word)
    ensures SameEffect(Addi(rd, rs, 0), Add(rd, 0, rs))
  {
  }

  lemma Reading2(p: Word)
    requires Op(p) == 2
    ensures Consistent(Disassemble(p), Quadrant2(p), Strict(p), LaxRead(p))
  {
    hide Disassemble, SameEffect, Field, PopularReg, Addi4spnImm, LwImm, SwspImm, LwspImm, JumpImm, BranchImm, LuiImm,
      Addi16spImm, Imm6Of, Op, CFunc3, CaFunc6, CRd, ImmH, ImmL, ImmL2, Amount;
    Fields(p);
    OneBit(p);
    Zeros(p);
    var f := CFunc3(p);
    if f == 0 {
      ReadsSlli(p);
    } else if f == 2 {
      ReadsLwsp(p);
    } else if f == 4 {
      if ImmL(p) != 0 {
        if ImmH(p) == 0 {
          ReadsMv(p);
          MoveEffect(CRd(p), ImmL(p));
        } else {
          ReadsAdd(p);
        }
      } else if CRd(p) == 0 && ImmH(p) == 1 {
        ReadsEbreak(p);
      } else {
        ReadsJr(p);
      }
    } else if f == 6 {
      ReadsSwsp(p);
    } else {
      ReadsOther2(p);
    }
    if Disassemble(p).Reads? {
      Same(Disassemble(p).instr);
    }
  }

  // The disassembler and the standard, on every parcel
  lemma ReadingMeans(p: Word)
    requires Op(p) != 3
    ensures Consistent(Disassemble(p), MeaningOf(p), Strict(p), LaxRead(p))
  {
    OpIs(p);
    if Op(p) == 0 {
      Reading0(p);
    } else if Op(p) == 1 {
      Reading1(p);
    } else {
      Reading2(p);
    }
  }

  lemma SameEffectJoins(i: Instr, j: Instr, k: Instr)
    requires SameEffect(i, k) && SameEffect(j, k)
    ensures SameEffect(i, j)
  {
  }

  // Shifts right by 32 and more
  predicate WideShift(p: Word) {
    Op(p) == 1 && CFunc3(p) == 4 && CaFunc6(p) & 3 < 2 && ImmH(p) == 1
  }

  // The two decoders have the same effect wherever both accept a parcel, these shifts excepted
  lemma DecodersAgree(p: Word)
    requires Op(p) != 3 && Expand(p).Inst? && Disassemble(p).Reads?
    ensures SameEffect(Decode(Expand(p).word), Disassemble(p).instr) <==> !WideShift(p)
  {
    if WideShift(p) {
      WideAmount(p);
      if CaFunc6(p) & 3 == 0 {
        ExpandsSrli(p);
        ReadsSrli(p);
        WideDiffers(PopularReg(p, 7), ImmL(p), Amount(p));
      } else {
        TwoBits(p);
        ExpandsSrai(p);
        ReadsSrai(p);
        WideDiffers(PopularReg(p, 7), ImmL(p), Amount(p));
      }
    } else {
      ExpansionMeans(p);
      ReadingMeans(p);
      SameEffectJoins(Decode(Expand(p).word), Disassemble(p).instr, MeaningOf(p).instr);
    }
  }

  lemma WideAmount(p: Word)
    ensures ImmL(p) < 32 && (ImmH(p) == 1 ==> Amount(p) >= 32)
  {
  }

  lemma ShiftAccess(r: Word, n: Word, x: Word -> Word)
    ensures Execute(Srli(r, r, n), 2, 0, x).access == Execute(Srai(r, r, n), 2, 0, x).access
    ensures Execute(Srli(r, r, n), 2, 0, x).access == if n < 32 then NoAccess else Undefined
  {
    hide Srl, Sra;
  }

  lemma WideDiffers(r: Word, m: Word, n: Word)
    requires m < 32 <= n
    ensures !SameEffect(Srli(r, r, m), Srli(r, r, n)) && !SameEffect(Srai(r, r, m), Srai(r, r, n))
  {
    hide Execute;
    var x: Word -> Word := _ => 0;
    ShiftAccess(r, m, x);
    ShiftAccess(r, n, x);
  }
}
