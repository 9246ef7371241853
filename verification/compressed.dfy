// Chapter 16 of the RISC-V Unprivileged ISA 20191213: what the 16-bit parcels of RV32C without
// floating point stand for.
module Compressed {
  import opened Decompress
  import opened Instructions

  datatype Meaning = Reserved | Means(instr: Instr)

  // Bits hi to lo of a parcel
  function Field(p: Word, hi: Word, lo: Word): Word
    requires lo <= hi < 16
  {
    (p >> lo) & ((2 << (hi - lo)) - 1)
  }

  function SignExtend(v: Word, bits: Word): Word
    requires 0 < bits < 32
  {
    if (v >> (bits - 1)) & 1 == 1 then v | (0xffffffff << bits) else v
  }

  function PopularReg(p: Word, lo: Word): Word
    requires lo <= 13
  {
    8 + Field(p, lo + 2, lo)
  }

  function Imm6Of(p: Word): Word { SignExtend((Field(p, 12, 12) << 5) | Field(p, 6, 2), 6) }

  function Addi4spnImm(p: Word): Word {
    (Field(p, 12, 11) << 4) | (Field(p, 10, 7) << 6) | (Field(p, 6, 6) << 2) | (Field(p, 5, 5) << 3)
  }

  function LwImm(p: Word): Word { (Field(p, 12, 10) << 3) | (Field(p, 6, 6) << 2) | (Field(p, 5, 5) << 6) }

  function JumpImm(p: Word): Word {
    SignExtend((Field(p, 12, 12) << 11) | (Field(p, 11, 11) << 4) | (Field(p, 10, 9) << 8) | (Field(p, 8, 8) << 10)
               | (Field(p, 7, 7) << 6) | (Field(p, 6, 6) << 7) | (Field(p, 5, 3) << 1) | (Field(p, 2, 2) << 5), 12)
  }

  function Addi16spImm(p: Word): Word {
    SignExtend((Field(p, 12, 12) << 9) | (Field(p, 6, 6) << 4) | (Field(p, 5, 5) << 6) | (Field(p, 4, 3) << 7) |
        (Field(p, 2, 2) << 5), 10)
  }

  function LuiImm(p: Word): Word { SignExtend((Field(p, 12, 12) << 17) | (Field(p, 6, 2) << 12), 18) }

  function BranchImm(p: Word): Word {
    SignExtend((Field(p, 12, 12) << 8) | (Field(p, 11, 10) << 3) | (Field(p, 6, 5) << 6) | (Field(p, 4, 3) << 1) |
        (Field(p, 2, 2) << 5), 9)
  }

  function LwspImm(p: Word): Word { (Field(p, 12, 12) << 5) | (Field(p, 6, 4) << 2) | (Field(p, 3, 2) << 6) }

  function SwspImm(p: Word): Word { (Field(p, 12, 9) << 2) | (Field(p, 8, 7) << 6) }

  function Quadrant0(p: Word): Meaning {
    var f := Field(p, 15, 13);
    if f == 0 then if Addi4spnImm(p) == 0 then Reserved else Means(Addi(PopularReg(p, 2), 2, Addi4spnImm(p)))
    else if f == 2 then Means(Lw(PopularReg(p, 2), PopularReg(p, 7), LwImm(p)))
    else if f == 6 then Means(Sw(PopularReg(p, 7), PopularReg(p, 2), LwImm(p)))
    else Reserved
  }

  function Misc(p: Word): Meaning {
    var r, s := PopularReg(p, 7), PopularReg(p, 2);
    var f := Field(p, 11, 10);
    if f == 0 then if Field(p, 12, 12) == 1 then Reserved else Means(Srli(r, r, Field(p, 6, 2)))
    else if f == 1 then if Field(p, 12, 12) == 1 then Reserved else Means(Srai(r, r, Field(p, 6, 2)))
    else if f == 2 then Means(Andi(r, r, Imm6Of(p)))
    else if Field(p, 12, 12) == 1 then Reserved
    else if Field(p, 6, 5) == 0 then Means(Sub(r, r, s))
    else if Field(p, 6, 5) == 1 then Means(Xor(r, r, s))
    else if Field(p, 6, 5) == 2 then Means(Or(r, r, s))
    else Means(And(r, r, s))
  }

  function Quadrant1(p: Word): Meaning {
    var f, rd := Field(p, 15, 13), Field(p, 11, 7);
    if f == 0 then Means(Addi(rd, rd, Imm6Of(p)))
    else if f == 1 then Means(Jal(1, JumpImm(p)))
    else if f == 2 then Means(Addi(rd, 0, Imm6Of(p)))
    else if f == 3 then
      if Imm6Of(p) == 0 then Reserved
      else if rd == 2 then Means(Addi(2, 2, Addi16spImm(p)))
      else Means(Lui(rd, LuiImm(p)))
    else if f == 4 then Misc(p)
    else if f == 5 then Means(Jal(0, JumpImm(p)))
    else if f == 6 then Means(Beq(PopularReg(p, 7), 0, BranchImm(p)))
    else Means(Bne(PopularReg(p, 7), 0, BranchImm(p)))
  }

  function Quadrant2(p: Word): Meaning {
    var f, rd, rs2 := Field(p, 15, 13), Field(p, 11, 7), Field(p, 6, 2);
    if f == 0 then if Field(p, 12, 12) == 1 then Reserved else Means(Slli(rd, rd, rs2))
    else if f == 2 then if rd == 0 then Reserved else Means(Lw(rd, 2, LwspImm(p)))
    else if f == 4 then
      if Field(p, 12, 12) == 0 then
        if rs2 != 0 then Means(Add(rd, 0, rs2)) else if rd == 0 then Reserved else Means(Jalr(0, rd, 0))
      else if rs2 != 0 then Means(Add(rd, rd, rs2))
      else if rd == 0 then Means(Ebreak) else Means(Jalr(1, rd, 0))
    else if f == 6 then Means(Sw(2, rs2, SwspImm(p)))
    else Reserved
  }

  // Two instructions that do the same on every machine
  ghost predicate SameEffect(i: Instr, j: Instr) {
    forall len, pc, x :: Execute(i, len, pc, x) == Execute(j, len, pc, x)
  }

  function MeaningOf(p: Word): Meaning
    requires Op(p) != 3
  {
    if Op(p) == 0 then Quadrant0(p) else if Op(p) == 1 then Quadrant1(p) else Quadrant2(p)
  }

  // An expansion that stands for what the standard gives
  ghost predicate Agrees(e: Expansion, m: Meaning) {
    match m
    case Reserved => e == Illegal
    case Means(i) => e.Inst? && SameEffect(Decode(e.word), i)
  }

  ghost predicate StandsFor(e: Expansion, i: Instr) {
    e.Inst? && Decode(e.word) == i
  }

  // Instructions that write x0 only are hints
  lemma HintAgrees(rs: Word, imm: Word)
    ensures SameEffect(Addi(0, 0, 0), Addi(0, rs, imm)) && SameEffect(Addi(0, 0, 0), Lui(0, imm))
  {
  }

  lemma Hint(e: Expansion, rs: Word, imm: Word)
    requires StandsFor(e, Addi(0, 0, 0))
    ensures Agrees(e, Means(Addi(0, rs, imm))) && Agrees(e, Means(Lui(0, imm)))
  {
    hide Decode, SameEffect;
    HintAgrees(rs, imm);
  }

  lemma ExpandsAddi4spn(p: Word)
    requires Op(p) == 0 && CFunc3(p) == 0 && CiwImm(p) != 0
    ensures StandsFor(Expand(p), Addi(PopularReg(p, 2), 2, Addi4spnImm(p)))
  {
  }

  lemma ExpandsLw(p: Word)
    requires Op(p) == 0 && CFunc3(p) == 2
    ensures StandsFor(Expand(p), Lw(PopularReg(p, 2), PopularReg(p, 7), LwImm(p)))
  {
  }

  lemma ExpandsSw(p: Word)
    requires Op(p) == 0 && CFunc3(p) == 6
    ensures StandsFor(Expand(p), Sw(PopularReg(p, 7), PopularReg(p, 2), LwImm(p)))
  {
  }

  lemma ExpandsHint(p: Word)
    requires Op(p) == 1 && CRd(p) == 0 && (CFunc3(p) == 0 || CFunc3(p) == 2 || CFunc3(p) == 3)
    ensures StandsFor(Expand(p), Addi(0, 0, 0))
  {
  }

  lemma ExpandsAddi(p: Word)
    requires Op(p) == 1 && CFunc3(p) == 0 && CRd(p) != 0
    ensures StandsFor(Expand(p), Addi(CRd(p), CRd(p), Imm6Of(p)))
  {
  }

  lemma ExpandsLi(p: Word)
    requires Op(p) == 1 && CFunc3(p) == 2 && CRd(p) != 0
    ensures StandsFor(Expand(p), Addi(CRd(p), 0, Imm6Of(p)))
  {
  }

  lemma ExpandsAddi16sp(p: Word)
    requires Op(p) == 1 && CFunc3(p) == 3 && CRd(p) == 2 && (ImmH(p) != 0 || ImmL(p) != 0)
    ensures StandsFor(Expand(p), Addi(2, 2, Addi16spImm(p)))
  {
  }

  lemma DecodesLui(p: Word)
    ensures Decode(UType(0x37, CRd(p), (if ImmH(p) != 0 then 0xfffe0 else 0) + ImmL(p))) == Lui(CRd(p), LuiImm(p))
  {
  }

  lemma ExpandsLui(p: Word)
    requires Op(p) == 1 && CFunc3(p) == 3 && CRd(p) != 0 && CRd(p) != 2 && (ImmH(p) != 0 || ImmL(p) != 0)
    ensures StandsFor(Expand(p), Lui(CRd(p), LuiImm(p)))
  {
    hide Decode, UType, LuiImm;
    DecodesLui(p);
  }

  lemma ExpandsSrli(p: Word)
    requires Op(p) == 1 && CFunc3(p) == 4 && CaFunc6(p) & 3 == 0
    ensures StandsFor(Expand(p), Srli(PopularReg(p, 7), PopularReg(p, 7), ImmL(p)))
  {
  }

  lemma ExpandsSrai(p: Word)
    requires Op(p) == 1 && CFunc3(p) == 4 && CaFunc6(p) & 3 == 1
    ensures StandsFor(Expand(p), Srai(PopularReg(p, 7), PopularReg(p, 7), ImmL(p)))
  {
  }

  lemma ExpandsAndi(p: Word)
    requires Op(p) == 1 && CFunc3(p) == 4 && CaFunc6(p) & 3 == 2
    ensures StandsFor(Expand(p), Andi(PopularReg(p, 7), PopularReg(p, 7), Imm6Of(p)))
  {
  }

  lemma ExpandsSub(p: Word)
    requires Op(p) == 1 && CFunc3(p) == 4 && CaFunc6(p) & 3 == 3 && ImmH(p) == 0 && ImmL2(p) == 0
    ensures StandsFor(Expand(p), Sub(PopularReg(p, 7), PopularReg(p, 7), PopularReg(p, 2)))
  {
  }

  lemma ExpandsXor(p: Word)
    requires Op(p) == 1 && CFunc3(p) == 4 && CaFunc6(p) & 3 == 3 && ImmH(p) == 0 && ImmL2(p) == 1
    ensures StandsFor(Expand(p), Xor(PopularReg(p, 7), PopularReg(p, 7), PopularReg(p, 2)))
  {
  }

  lemma ExpandsOr(p: Word)
    requires Op(p) == 1 && CFunc3(p) == 4 && CaFunc6(p) & 3 == 3 && ImmH(p) == 0 && ImmL2(p) == 2
    ensures StandsFor(Expand(p), Or(PopularReg(p, 7), PopularReg(p, 7), PopularReg(p, 2)))
  {
  }

  lemma ExpandsAnd(p: Word)
    requires Op(p) == 1 && CFunc3(p) == 4 && CaFunc6(p) & 3 == 3 && ImmH(p) == 0 && ImmL2(p) == 3
    ensures StandsFor(Expand(p), And(PopularReg(p, 7), PopularReg(p, 7), PopularReg(p, 2)))
  {
  }

  // Bits 10 to 1 of a jump, in the order of the fields of an instruction word
  function JumpMiddle(p: Word): Word { JumpLower(p) | (JumpUpper(p) << 4) }

  function JumpLower(p: Word): Word { Field(p, 5, 3) | (Field(p, 11, 11) << 3) }

  function JumpUpper(p: Word): Word {
    Field(p, 2, 2) | (Field(p, 7, 7) << 1) | (Field(p, 6, 6) << 2) | (Field(p, 10, 9) << 3) | (Field(p, 8, 8) << 5)
  }

  lemma JumpFieldLower(p: Word)
    ensures (JumpField(p) >> 9) & 0xf == JumpLower(p)
  {
  }

  lemma JumpFieldUpper(p: Word)
    ensures (JumpField(p) >> 13) & 0x3f == JumpUpper(p)
  {
  }

  lemma TenBits(v: Word)
    ensures (v >> 9) & 0x3ff == ((v >> 9) & 0xf) | (((v >> 13) & 0x3f) << 4)
  {
  }

  lemma JumpFieldMiddle(p: Word)
    ensures (JumpField(p) >> 9) & 0x3ff == JumpMiddle(p)
  {
    hide JumpField, JumpLower, JumpUpper;
    JumpFieldLower(p);
    JumpFieldUpper(p);
    TenBits(JumpField(p));
  }

  lemma JumpFieldSigns(p: Word)
    ensures (JumpField(p) >> 19) & 1 == Field(p, 12, 12) && (JumpField(p) >> 8) & 1 == Field(p, 12, 12)
    ensures JumpField(p) & 0xff == if Field(p, 12, 12) == 1 then 0xff else 0
  {
  }

  lemma JumpImmParts(p: Word)
    ensures JumpImm(p) == SignExtend((JumpMiddle(p) << 1) | (Field(p, 12, 12) << 11), 12)
  {
  }

  lemma JumpOfParts(v: Word, middle: Word, sign: Word)
    requires (v >> 9) & 0x3ff == middle && (v >> 19) & 1 == sign && (v >> 8) & 1 == sign
    requires v & 0xff == if sign == 1 then 0xff else 0
    ensures ToImmJ(v) == SignExtend((middle << 1) | (sign << 11), 12)
  {
  }

  lemma JumpFieldMeans(p: Word)
    ensures ToImmJ(JumpField(p)) == JumpImm(p)
  {
    hide JumpField, JumpMiddle, Field, ToImmJ, JumpImm, SignExtend;
    JumpFieldMiddle(p);
    JumpFieldSigns(p);
    JumpImmParts(p);
    JumpOfParts(JumpField(p), JumpMiddle(p), Field(p, 12, 12));
  }

  lemma JumpFieldFits(p: Word)
    ensures JumpField(p) <= 0xf_ffff
  {
  }

  lemma JumpParts(rd: Word, imm: Word)
    requires rd < 32 && imm <= 0xf_ffff
    ensures var i := UType(0x6f, rd, imm); Opcode(i) == 0x6f && Rd(i) == rd && i >> 12 == imm
  {
  }

  lemma DecodesJump(p: Word, rd: Word)
    requires rd < 32
    ensures Decode(Jump(p, rd)) == Jal(rd, JumpImm(p))
  {
    hide JumpField, JumpImm, ToImmJ, UType, Opcode, Rd;
    JumpFieldMeans(p);
    JumpFieldFits(p);
    JumpParts(rd, JumpField(p));
    assert Decode(Jump(p, rd)) == Jal(Rd(Jump(p, rd)), ToImmJ(Jump(p, rd) >> 12));
  }

  lemma ExpandsJump(p: Word)
    requires Op(p) == 1 && (CFunc3(p) == 1 || CFunc3(p) == 5)
    ensures StandsFor(Expand(p), Jal(if CFunc3(p) == 1 then 1 else 0, JumpImm(p)))
  {
    hide Decode, Jump, JumpImm;
    DecodesJump(p, if CFunc3(p) == 1 then 1 else 0);
  }

  lemma DecodesBranch(low: Word, rs1: Word, high: Word)
    requires low <= 0x1f && rs1 < 32 && high <= 0x7f
    ensures Decode(SType(0x63, low, 0, rs1, 0, high)) == Beq(rs1, 0, ToImmB(high, low))
    ensures Decode(SType(0x63, low, 1, rs1, 0, high)) == Bne(rs1, 0, ToImmB(high, low))
  {
    hide ToImmB;
  }

  lemma BranchFits(p: Word)
    ensures BranchLow(p) <= 0x1f && BranchHigh(p) <= 0x7f
    ensures Rs3(p) + 8 == PopularReg(p, 7) < 32
  {
  }

  lemma BranchMeans(p: Word)
    ensures ToImmB(BranchHigh(p), BranchLow(p)) == BranchImm(p)
  {
  }

  lemma DecodesBeqz(p: Word)
    ensures Decode(Branch(p, 0)) == Beq(PopularReg(p, 7), 0, BranchImm(p))
  {
    hide BranchLow, BranchHigh, BranchImm, ToImmB, SType, Rs3, PopularReg, Decode;
    BranchMeans(p);
    BranchFits(p);
    DecodesBranch(BranchLow(p), Rs3(p) + 8, BranchHigh(p));
  }

  lemma DecodesBnez(p: Word)
    ensures Decode(Branch(p, 1)) == Bne(PopularReg(p, 7), 0, BranchImm(p))
  {
    hide BranchLow, BranchHigh, BranchImm, ToImmB, SType, Rs3, PopularReg, Decode;
    BranchMeans(p);
    BranchFits(p);
    DecodesBranch(BranchLow(p), Rs3(p) + 8, BranchHigh(p));
  }

  lemma ExpandsBeqz(p: Word)
    requires Op(p) == 1 && CFunc3(p) == 6
    ensures StandsFor(Expand(p), Beq(PopularReg(p, 7), 0, BranchImm(p)))
  {
    hide Decode, Branch, BranchImm;
    DecodesBeqz(p);
  }

  lemma ExpandsBnez(p: Word)
    requires Op(p) == 1 && CFunc3(p) == 7
    ensures StandsFor(Expand(p), Bne(PopularReg(p, 7), 0, BranchImm(p)))
  {
    hide Decode, Branch, BranchImm;
    DecodesBnez(p);
  }

  lemma ExpandsSlli(p: Word)
    requires Op(p) == 2 && CFunc3(p) == 0 && ImmH(p) == 0
    ensures StandsFor(Expand(p), Slli(CRd(p), CRd(p), ImmL(p)))
  {
  }

  lemma ExpandsLwsp(p: Word)
    requires Op(p) == 2 && CFunc3(p) == 2 && CRd(p) != 0
    ensures StandsFor(Expand(p), Lw(CRd(p), 2, LwspImm(p)))
  {
  }

  lemma ExpandsJr(p: Word)
    requires Op(p) == 2 && CFunc3(p) == 4 && ImmL(p) == 0 && CRd(p) != 0
    ensures StandsFor(Expand(p), Jalr(ImmH(p), CRd(p), 0))
  {
  }

  lemma DecodesAdd(rd: Word, rs1: Word, rs2: Word)
    requires rd < 32 && rs1 < 32 && rs2 < 32
    ensures Decode(RType(0x33, rd, 0, rs1, rs2, 0)) == Add(rd, rs1, rs2)
  {
  }

  lemma ExpandsAdd(p: Word)
    requires Op(p) == 2 && CFunc3(p) == 4 && ImmL(p) != 0
    ensures StandsFor(Expand(p), Add(CRd(p), if ImmH(p) == 0 then 0 else CRd(p), ImmL(p)))
  {
    hide Decode, RType;
    DecodesAdd(CRd(p), if ImmH(p) == 0 then 0 else CRd(p), ImmL(p));
  }

  lemma ExpandsEbreak(p: Word)
    requires Op(p) == 2 && CFunc3(p) == 4 && ImmL(p) == 0 && CRd(p) == 0 && ImmH(p) == 1
    ensures StandsFor(Expand(p), Ebreak)
  {
  }

  lemma ExpandsSwsp(p: Word)
    requires Op(p) == 2 && CFunc3(p) == 6
    ensures StandsFor(Expand(p), Sw(2, ImmL(p), SwspImm(p)))
  {
  }

  // The two names for a field
  lemma Fields(p: Word)
    ensures Field(p, 15, 13) == CFunc3(p) && Field(p, 11, 7) == CRd(p) && Field(p, 6, 2) == ImmL(p)
        && Field(p, 12, 12) == ImmH(p)
    ensures Field(p, 11, 10) == CaFunc6(p) & 3 && Field(p, 6, 5) == ImmL2(p)
  {
  }

  lemma ZeroImmediates(p: Word)
    ensures Addi4spnImm(p) == 0 <==> CiwImm(p) == 0
    ensures Imm6Of(p) == 0 <==> ImmH(p) == 0 && ImmL(p) == 0
  {
  }

  lemma ReservedArithmetic(p: Word)
    requires CaFunc6(p) & 3 == 3
    ensures CFunc3(p) == 4 ==> (CaFunc6(p) == 0x27 <==> ImmH(p) == 1)
  {
  }

  // Two families that RV32C reserves and the expander lets pass: shifts right by 32 and more, which
  // lose the upper bit of the amount, and c.lui with no immediate to x0
  predicate Lax(p: Word) {
    && Op(p) == 1
    && ((CFunc3(p) == 4 && CaFunc6(p) & 3 < 2 && ImmH(p) == 1)
        || (CFunc3(p) == 3 && CRd(p) == 0 && ImmH(p) == 0 && ImmL(p) == 0))
  }

  lemma Expansion0(p: Word)
    requires Op(p) == 0
    ensures Agrees(Expand(p), Quadrant0(p))
  {
    Fields(p);
    ZeroImmediates(p);
    if CFunc3(p) == 0 && CiwImm(p) != 0 {
      ExpandsAddi4spn(p);
    } else if CFunc3(p) == 2 {
      ExpandsLw(p);
    } else if CFunc3(p) == 6 {
      ExpandsSw(p);
    }
  }

  lemma ExpansionMisc(p: Word)
    requires Op(p) == 1 && CFunc3(p) == 4 && !Lax(p)
    ensures Agrees(Expand(p), Misc(p))
  {
    Fields(p);
    var f, g := CaFunc6(p) & 3, ImmL2(p);
    if f == 0 {
      ExpandsSrli(p);
    } else if f == 1 {
      ExpandsSrai(p);
    } else if f == 2 {
      ExpandsAndi(p);
    } else if ImmH(p) == 0 {
      if g == 0 {
        ExpandsSub(p);
      } else if g == 1 {
        ExpandsXor(p);
      } else if g == 2 {
        ExpandsOr(p);
      } else {
        ExpandsAnd(p);
      }
    } else {
      ReservedArithmetic(p);
    }
  }

  lemma Expansion1(p: Word)
    requires Op(p) == 1 && !Lax(p)
    ensures Agrees(Expand(p), Quadrant1(p))
  {
    Fields(p);
    ZeroImmediates(p);
    var f, rd := CFunc3(p), CRd(p);
    if f == 4 {
      ExpansionMisc(p);
    } else if f == 1 || f == 5 {
      ExpandsJump(p);
    } else if f == 6 {
      ExpandsBeqz(p);
    } else if f == 7 {
      ExpandsBnez(p);
    } else if rd == 0 {
      ExpandsHint(p);
      Hint(Expand(p), 0, Imm6Of(p));
      Hint(Expand(p), 0, LuiImm(p));
    } else if f == 0 {
      ExpandsAddi(p);
    } else if f == 2 {
      ExpandsLi(p);
    } else if rd == 2 && !(ImmH(p) == 0 && ImmL(p) == 0) {
      ExpandsAddi16sp(p);
    } else if !(ImmH(p) == 0 && ImmL(p) == 0) {
      ExpandsLui(p);
    }
  }

  lemma Expansion2(p: Word)
    requires Op(p) == 2
    ensures Agrees(Expand(p), Quadrant2(p))
  {
    Fields(p);
    var f, rd := CFunc3(p), CRd(p);
    if f == 0 && ImmH(p) == 0 {
      ExpandsSlli(p);
    } else if f == 2 && rd != 0 {
      ExpandsLwsp(p);
    } else if f == 4 && ImmL(p) != 0 {
      ExpandsAdd(p);
    } else if f == 4 && rd != 0 {
      ExpandsJr(p);
    } else if f == 4 && ImmH(p) == 1 {
      ExpandsEbreak(p);
    } else if f == 6 {
      ExpandsSwsp(p);
    }
    OneBit(p);
  }

  lemma OneBit(p: Word)
    ensures ImmH(p) == 0 || ImmH(p) == 1
  {
  }

  // The expander does what the standard says on every parcel but those two families
  lemma ExpansionMeans(p: Word)
    requires Op(p) != 3
    ensures Agrees(Expand(p), MeaningOf(p)) <==> !Lax(p)
  {
    OneBit(p);
    OpIs(p);
    if Lax(p) {
      Fields(p);
      ZeroImmediates(p);
      if CFunc3(p) == 3 {
        ExpandsHint(p);
      } else if CaFunc6(p) & 3 == 0 {
        ExpandsSrli(p);
      } else {
        ExpandsSrai(p);
      }
    } else if Op(p) == 0 {
      Expansion0(p);
    } else if Op(p) == 1 {
      Expansion1(p);
    } else {
      Expansion2(p);
    }
  }

  lemma OpIs(p: Word)
    ensures Op(p) == 0 || Op(p) == 1 || Op(p) == 2 || Op(p) == 3
  {
  }
}
