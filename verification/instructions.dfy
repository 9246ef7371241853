// The RV32I instructions that compressed parcels stand for, as tools/rvsim.c takes 32-bit words
// apart, and the effect of each.
module Instructions {
  type Word = bv32

  datatype Instr =
    | Addi(rd: Word, rs1: Word, imm: Word)
    | Andi(rd: Word, rs1: Word, imm: Word)
    | Slli(rd: Word, rs1: Word, shamt: Word)
    | Srli(rd: Word, rs1: Word, shamt: Word)
    | Srai(rd: Word, rs1: Word, shamt: Word)
    | Add(rd: Word, rs1: Word, rs2: Word)
    | Sub(rd: Word, rs1: Word, rs2: Word)
    | Xor(rd: Word, rs1: Word, rs2: Word)
    | Or(rd: Word, rs1: Word, rs2: Word)
    | And(rd: Word, rs1: Word, rs2: Word)
    | Lui(rd: Word, imm: Word)
    | Lw(rd: Word, rs1: Word, imm: Word)
    | Sw(rs1: Word, rs2: Word, imm: Word)
    | Jal(rd: Word, imm: Word)
    | Jalr(rd: Word, rs1: Word, imm: Word)
    | Beq(rs1: Word, rs2: Word, imm: Word)
    | Bne(rs1: Word, rs2: Word, imm: Word)
    | Ebreak
    | Other

  function Opcode(i: Word): Word { i & 0x7f }
  function Rd(i: Word): Word { (i >> 7) & 0x1f }
  function Func3(i: Word): Word { (i >> 12) & 7 }
  function Rs1(i: Word): Word { (i >> 15) & 0x1f }
  function Rs2(i: Word): Word { (i >> 20) & 0x1f }
  function Func7(i: Word): Word { (i >> 25) & 0x7f }

  // to_imm_i, to_imm_s, to_imm_b, to_imm_j and to_imm_u, on the fields they are given
  function ToImmI(n: Word): Word { if n & 0x800 != 0 then n | 0xfffff000 else n }

  function ToImmS(n1: Word, n2: Word): Word { ToImmI((n1 << 5) + n2) }

  function ToImmB(n1: Word, n2: Word): Word {
    var n := (n1 << 5) + n2;
    var m := (((n >> 11) & 1) << 12) | (((n >> 5) & 0x3f) << 5) | (((n >> 1) & 0xf) << 1) | ((n & 1) << 11);
    if m & 0x1000 != 0 then m | 0xffffe000 else m
  }

  function ToImmJ(n: Word): Word {
    var m := (((n >> 19) & 1) << 20) | (((n >> 9) & 0x3ff) << 1) | (((n >> 8) & 1) << 11) | ((n & 0xff) << 12);
    if m & 0x10_0000 != 0 then m | 0xffe00000 else m
  }

  function ToImmU(n: Word): Word { n << 12 }

  // What the switch on the opcode makes of a word
  function Decode(i: Word): Instr {
    if Opcode(i) == 0x13 then
      if Func3(i) == 0 then Addi(Rd(i), Rs1(i), ToImmI(i >> 20))
      else if Func3(i) == 7 then Andi(Rd(i), Rs1(i), ToImmI(i >> 20))
      else if Func3(i) == 1 && Func7(i) == 0 then Slli(Rd(i), Rs1(i), (i >> 20) & 0x1f)
      else if Func3(i) == 5 && Func7(i) == 0 then Srli(Rd(i), Rs1(i), (i >> 20) & 0x1f)
      else if Func3(i) == 5 && Func7(i) == 0x20 then Srai(Rd(i), Rs1(i), (i >> 20) & 0x1f)
      else Other
    else if Opcode(i) == 0x33 then
      if Func7(i) == 0 && Func3(i) == 0 then Add(Rd(i), Rs1(i), Rs2(i))
      else if Func7(i) == 0x20 && Func3(i) == 0 then Sub(Rd(i), Rs1(i), Rs2(i))
      else if Func7(i) == 0 && Func3(i) == 4 then Xor(Rd(i), Rs1(i), Rs2(i))
      else if Func7(i) == 0 && Func3(i) == 6 then Or(Rd(i), Rs1(i), Rs2(i))
      else if Func7(i) == 0 && Func3(i) == 7 then And(Rd(i), Rs1(i), Rs2(i))
      else Other
    else if Opcode(i) == 0x37 then Lui(Rd(i), ToImmU(i >> 12))
    else if Opcode(i) == 0x03 && Func3(i) == 2 then Lw(Rd(i), Rs1(i), ToImmI(i >> 20))
    else if Opcode(i) == 0x23 && Func3(i) == 2 then Sw(Rs1(i), Rs2(i), ToImmS(i >> 25, Rd(i)))
    else if Opcode(i) == 0x6f then Jal(Rd(i), ToImmJ(i >> 12))
    else if Opcode(i) == 0x67 then Jalr(Rd(i), Rs1(i), ToImmI(i >> 20))
    else if Opcode(i) == 0x63 && Func3(i) == 0 then Beq(Rs1(i), Rs2(i), ToImmB(i >> 25, Rd(i)))
    else if Opcode(i) == 0x63 && Func3(i) == 1 then Bne(Rs1(i), Rs2(i), ToImmB(i >> 25, Rd(i)))
    else if Opcode(i) == 0x73 && Func3(i) == 0 && (i >> 20) & 3 == 1 then Ebreak
    else Other
  }

  // Words from fields, as the bit-fields of opcode.h lay them out
  function RType(op: Word, rd: Word, func3: Word, rs1: Word, rs2: Word, func7: Word): Word {
    (op & 0x7f) | ((rd & 0x1f) << 7) | ((func3 & 7) << 12) | ((rs1 & 0x1f) << 15) | ((rs2 & 0x1f) << 20) |
        ((func7 & 0x7f) << 25)
  }

  function IType(op: Word, rd: Word, func3: Word, rs1: Word, imm: Word): Word {
    (op & 0x7f) | ((rd & 0x1f) << 7) | ((func3 & 7) << 12) | ((rs1 & 0x1f) << 15) | ((imm & 0xfff) << 20)
  }

  // S-Type and B-Type
  function SType(op: Word, imm1: Word, func3: Word, rs1: Word, rs2: Word, imm2: Word): Word {
    RType(op, imm1, func3, rs1, rs2, imm2)
  }

  // U-Type and J-Type
  function UType(op: Word, rd: Word, imm: Word): Word {
    (op & 0x7f) | ((rd & 0x1f) << 7) | ((imm & 0xf_ffff) << 12)
  }

  // What an instruction of the given length does at pc, the registers being x: where it goes on,
  // what it writes, and what it asks of memory. A write to x0 is none.
  datatype Effect = Effect(pc: Word, write: Write, access: Access)
  datatype Write = NoWrite | WriteTo(rd: Word, value: Word)
  datatype Access =
    NoAccess | LoadWord(rd: Word, address: Word) | StoreWord(address: Word, value: Word) | Breakpoint | Undefined

  function Reg(x: Word -> Word, r: Word): Word { if r == 0 then 0 else x(r) }

  function Writes(rd: Word, value: Word, next: Word): Effect {
    Effect(next, if rd == 0 then NoWrite else WriteTo(rd, value), NoAccess)
  }

  // Shifts by less than 32; there are no others on RV32
  function Sll(v: Word, n: Word): Word { if n < 32 then v << n else 0 }
  function Srl(v: Word, n: Word): Word { if n < 32 then v >> n else 0 }
  function Sra(v: Word, n: Word): Word { if v & 0x80000000 != 0 then !Srl(!v, n) else Srl(v, n) }

  function Shifts(rd: Word, n: Word, value: Word, next: Word, pc: Word): Effect {
    if n < 32 then Writes(rd, value, next) else Effect(pc, NoWrite, Undefined)
  }

  // An address at some distance from another
  function Ahead(v: Word, offset: Word): Word { v + offset }

  function Execute(i: Instr, len: Word, pc: Word, x: Word -> Word): Effect {
    match i
    case Addi(rd, rs1, imm) => Writes(rd, Reg(x, rs1) + imm, Ahead(pc, len))
    case Andi(rd, rs1, imm) => Writes(rd, Reg(x, rs1) & imm, Ahead(pc, len))
    case Slli(rd, rs1, n) => Shifts(rd, n, Sll(Reg(x, rs1), n), Ahead(pc, len), pc)
    case Srli(rd, rs1, n) => Shifts(rd, n, Srl(Reg(x, rs1), n), Ahead(pc, len), pc)
    case Srai(rd, rs1, n) => Shifts(rd, n, Sra(Reg(x, rs1), n), Ahead(pc, len), pc)
    case Add(rd, rs1, rs2) => Writes(rd, Reg(x, rs1) + Reg(x, rs2), Ahead(pc, len))
    case Sub(rd, rs1, rs2) => Writes(rd, Reg(x, rs1) - Reg(x, rs2), Ahead(pc, len))
    case Xor(rd, rs1, rs2) => Writes(rd, Reg(x, rs1) ^ Reg(x, rs2), Ahead(pc, len))
    case Or(rd, rs1, rs2) => Writes(rd, Reg(x, rs1) | Reg(x, rs2), Ahead(pc, len))
    case And(rd, rs1, rs2) => Writes(rd, Reg(x, rs1) & Reg(x, rs2), Ahead(pc, len))
    case Lui(rd, imm) => Writes(rd, imm, Ahead(pc, len))
    case Lw(rd, rs1, imm) => Effect(Ahead(pc, len), NoWrite, LoadWord(rd, Ahead(Reg(x, rs1), imm)))
    case Sw(rs1, rs2, imm) => Effect(Ahead(pc, len), NoWrite, StoreWord(Ahead(Reg(x, rs1), imm), Reg(x, rs2)))
    case Jal(rd, imm) => Writes(rd, Ahead(pc, len), Ahead(pc, imm) & 0xfffffffe)
    case Jalr(rd, rs1, imm) => Writes(rd, Ahead(pc, len), Ahead(Reg(x, rs1), imm) & 0xfffffffe)
    case Beq(rs1, rs2, imm) =>
      Effect(if Reg(x, rs1) == Reg(x, rs2) then Ahead(pc, imm) else Ahead(pc, len), NoWrite, NoAccess)
    case Bne(rs1, rs2, imm) =>
      Effect(if Reg(x, rs1) != Reg(x, rs2) then Ahead(pc, imm) else Ahead(pc, len), NoWrite, NoAccess)
    case Ebreak => Effect(pc, NoWrite, Breakpoint)
    case Other => Effect(pc, NoWrite, Undefined)
  }
}
