// Compressed parcels on the machine of tools/rvsim.c: the word that a parcel expands to does what the
// standard says of the parcel.
module Parcels {
  import opened Compressed
  import opened Decompress
  import I = Instructions
  import opened MachineInts
  import M = RvMachine
  import opened RvPerforms
  import opened Words

  // An instruction that has an effect
  predicate Defined(i: I.Instr) { !i.Other? && (i.Slli? || i.Srli? || i.Srai? ==> i.shamt < 32) }

  lemma UndefinedEffect(i: I.Instr, pc: bv32, x: bv32 -> bv32)
    ensures I.Execute(i, 4, pc, x).access == I.Undefined <==> !Defined(i)
  {
    hide I.Sll, I.Srl, I.Sra, I.Reg;
  }

  lemma AmountIsSmall(p: bv32)
    ensures ImmL(p) < 32
  {
  }

  lemma DefinedMeaning(p: bv32)
    requires Op(p) != 3 && MeaningOf(p).Means?
    ensures Defined(MeaningOf(p).instr)
  {
    hide Op, Field, PopularReg, Imm6Of, Addi4spnImm, LwImm, JumpImm, Addi16spImm, LuiImm, BranchImm, LwspImm, SwspImm,
      ImmL;
    Fields(p);
    AmountIsSmall(p);
  }

  lemma DefinedLax(p: bv32)
    requires Lax(p)
    ensures Expand(p).Inst? && !I.Decode(Expand(p).word).Other?
  {
    hide I.Decode, Expand, PopularReg, ImmL;
    SmallTwoBits(p);
    if CFunc3(p) == 3 {
      ExpandsHint(p);
    } else if CaFunc6(p) & 3 == 0 {
      ExpandsSrli(p);
    } else {
      ExpandsSrai(p);
    }
  }

  lemma SmallTwoBits(p: bv32)
    ensures CaFunc6(p) & 3 < 2 ==> CaFunc6(p) & 3 == 0 || CaFunc6(p) & 3 == 1
  {
  }

  // Every expansion is the word of an instruction
  lemma ExpansionIsDefined(p: bv32, pc: bv32, x: bv32 -> bv32)
    requires Expand(p).Inst?
    ensures !I.Decode(Expand(p).word).Other?
    ensures Op(p) != 3 && !Lax(p) ==>
        && MeaningOf(p).Means?
        && I.Execute(I.Decode(Expand(p).word), 4, pc, x) == I.Execute(MeaningOf(p).instr, 4, pc, x)
  {
    hide I.Decode, I.Execute, Lax, MeaningOf, Defined;
    ExpandsOnly(p);
    hide Expand;
    ExpansionMeans(p);
    if Lax(p) {
      DefinedLax(p);
    } else {
      DefinedMeaning(p);
      UndefinedEffect(MeaningOf(p).instr, pc, x);
      UndefinedEffect(I.Decode(Expand(p).word), pc, x);
      OtherIsUndefined();
    }
  }

  lemma OtherIsUndefined()
    ensures !Defined(I.Other)
  {
  }

  lemma ExpandsOnly(p: bv32)
    requires Expand(p).Inst?
    ensures Op(p) != 3
  {
    hide Expand0, Expand1, Expand2, Op;
  }

  // The machine does with the word of a parcel what the decoded word does on words; and that is what
  // the standard says, unless the parcel is of a family that the expander should have refused
  lemma ParcelPerforms(c: M.Config, env: M.Env, t: M.State, p: bv32, pc: bv32, x: bv32 -> bv32)
    requires Pictures(t, pc, x) && Expand(p).Inst?
    ensures Op(p) != 3 && !I.Decode(Expand(p).word).Other?
    ensures var w := Expand(p).word;
      var d, r := I.Decode(w), M.Execute(true, c, env, t, Value(w));
      var jumps := d.Jal? || d.Jalr?;
      if jumps && Halts(t, Value(w)) then r == M.Result(t, M.Exited)
      else
        && Performs(c, env, t, r, I.Execute(d, 4, pc, x), jumps)
        && (!Lax(p) ==>
          MeaningOf(p).Means? && Performs(c, env, t, r, I.Execute(MeaningOf(p).instr, 4, pc, x), jumps))
  {
    hide *;
    ExpandsOnly(p);
    ExpansionIsDefined(p, pc, x);
    InstructionPerforms(c, env, t, Expand(p).word, pc, x);
  }

  // As a parcel, two bytes long, an instruction does the same as in four bytes, but for where it goes
  // on when it does not jump and for the address that it links
  ghost predicate Scales(i: I.Instr, len: bv32, pc: bv32, x: bv32 -> bv32) {
    var e, f := I.Execute(i, len, pc, x), I.Execute(i, 4, pc, x);
    && e.access == f.access
    && e.write == (if (i.Jal? || i.Jalr?) && i.rd != 0 then I.WriteTo(i.rd, I.Ahead(pc, len)) else f.write)
    && e.pc == if i.Jal? || i.Jalr? || f.access == I.Breakpoint || f.access == I.Undefined then f.pc
               else if (i.Beq? || i.Bne?) && (I.Reg(x, i.rs1) == I.Reg(x, i.rs2)) == i.Beq? then f.pc
               else I.Ahead(pc, len)
  }

  lemma ImmediateScales(i: I.Instr, len: bv32, pc: bv32, x: bv32 -> bv32)
    requires IsImmediate(i) && Defined(i)
    ensures Scales(i, len, pc, x)
  {
    hide I.Execute, I.Ahead, I.Reg, ImmediateWord;
    EffectOfImmediate(i, len, pc, x);
    EffectOfImmediate(i, 4, pc, x);
  }

  lemma RegisterScales(i: I.Instr, len: bv32, pc: bv32, x: bv32 -> bv32)
    requires IsRegister(i)
    ensures Scales(i, len, pc, x)
  {
    hide I.Execute, I.Ahead, I.Reg, RegisterWord;
    EffectOfRegister(i, len, pc, x);
    EffectOfRegister(i, 4, pc, x);
  }

  lemma LuiScales(i: I.Instr, len: bv32, pc: bv32, x: bv32 -> bv32)
    requires i.Lui?
    ensures Scales(i, len, pc, x)
  {
    hide I.Execute, I.Ahead, I.Reg;
    EffectOfLui(i, len, pc, x);
    EffectOfLui(i, 4, pc, x);
  }

  lemma MemoryScales(i: I.Instr, len: bv32, pc: bv32, x: bv32 -> bv32)
    requires i.Lw? || i.Sw?
    ensures Scales(i, len, pc, x)
  {
    hide I.Ahead, I.Reg, I.Sll, I.Srl, I.Sra;
  }

  lemma JumpScales(i: I.Instr, len: bv32, pc: bv32, x: bv32 -> bv32)
    requires i.Jal? || i.Jalr?
    ensures Scales(i, len, pc, x)
  {
    hide I.Execute, I.Ahead, I.Reg;
    if i.Jal? {
      JalEffect(i, len, pc, x);
      JalEffect(i, 4, pc, x);
    } else {
      JalrEffect(i, len, pc, x);
      JalrEffect(i, 4, pc, x);
    }
  }

  lemma BranchScales(i: I.Instr, len: bv32, pc: bv32, x: bv32 -> bv32)
    requires i.Beq? || i.Bne?
    ensures Scales(i, len, pc, x)
  {
    hide I.Execute, I.Ahead, I.Reg;
    EffectOfBranch(i, len, pc, x);
    EffectOfBranch(i, 4, pc, x);
  }

  lemma StopScales(i: I.Instr, len: bv32, pc: bv32, x: bv32 -> bv32)
    requires i.Ebreak? || !Defined(i)
    ensures Scales(i, len, pc, x)
  {
    hide I.Ahead, I.Reg, I.Sll, I.Srl, I.Sra;
  }

  lemma LengthMatters(i: I.Instr, len: bv32, pc: bv32, x: bv32 -> bv32)
    ensures Scales(i, len, pc, x)
  {
    hide Scales;
    if i.Ebreak? || !Defined(i) {
      StopScales(i, len, pc, x);
    } else if IsImmediate(i) {
      ImmediateScales(i, len, pc, x);
    } else if IsRegister(i) {
      RegisterScales(i, len, pc, x);
    } else if i.Lui? {
      LuiScales(i, len, pc, x);
    } else if i.Lw? || i.Sw? {
      MemoryScales(i, len, pc, x);
    } else if i.Beq? || i.Bne? {
      BranchScales(i, len, pc, x);
    } else {
      JumpScales(i, len, pc, x);
    }
  }
}
