// The machine of tools/rvsim.c does to its registers and its memory what instructions.dfy says of the
// instructions that compressed parcels stand for.
module RvPerforms {
  import I = Instructions
  import opened MachineInts
  import M = RvMachine
  import opened MultiplyDivide
  import opened Options
  import opened Powers
  import RvAccess
  import opened RvEffects
  import opened RvSteps
  import RvSystem
  import RvTraps
  import RvWords
  import opened Words

  lemma AheadIs(v: bv32, u: bv32)
    ensures IsSum(I.Ahead(v, u), v, u)
  {
  }

  // Words and numbers stand for each other

  // pc and the registers x are those of t
  ghost predicate Pictures(t: M.State, pc: bv32, x: bv32 -> bv32) {
    && Value(pc) == Natural(t.pc)
    && forall r: bv32 | Value(r) < 32 :: Value(I.Reg(x, r)) == Natural(X(t, Value(r)))
  }

  function SignedValue(v: bv32): Int32 {
    if Value(v) < 0x8000_0000 then Value(v) else Value(v) - 0x1_0000_0000
  }

  // The registers of u are those of t, but for rd with the value n
  ghost predicate Wrote(t: M.State, u: M.State, rd: nat, n: nat) {
    rd < 32 && forall k: M.Index :: Natural(X(u, k)) == if k == rd && rd != 0 then n else Natural(X(t, k))
  }

  ghost predicate WroteTo(t: M.State, u: M.State, write: I.Write) {
    match write
    case NoWrite => Wrote(t, u, 0, 0)
    case WriteTo(rd, value) => rd != 0 && Wrote(t, u, Value(rd), Value(value))
  }

  ghost predicate GoesOn(r: M.Result, pc: bv32, mem: seq<U8>) {
    r.status == M.Okay && Natural(r.state.pc) == Value(pc) && r.state.mem == mem
  }

  ghost predicate TrapsWith(t: M.State, r: M.Result, cause: nat, val: Int32, mem: seq<U8>) {
    && r.status == M.Trapped && r.state.csr.mcause == cause && r.state.csr.mtval == val
    && r.state.csr.mepc == t.prevPc && Wrote(t, r.state, 0, 0) && r.state.mem == mem
  }

  ghost predicate Loads(c: M.Config, env: M.Env, t: M.State, r: M.Result, pc: bv32, rd: bv32, address: Int32) {
    if address % 4 != 0 then TrapsWith(t, r, 4, address, t.mem)
    else match M.Reached(c, t.mem, address, 4)
      case Inside =>
        GoesOn(r, pc, t.mem) && Wrote(t, r.state, Value(rd), RvAccess.Held(t.mem, address - c.base, 4))
      case Outside => r.status == M.Strayed
      case Refused =>
        match env.load(t.csr, address)
        case LoadFails => TrapsWith(t, r, 5, address, t.mem)
        case LoadGives(d) => GoesOn(r, pc, t.mem) && Wrote(t, r.state, Value(rd), Natural(d))
  }

  ghost predicate Stores(c: M.Config, env: M.Env, t: M.State, r: M.Result, pc: bv32, address: Int32, v: Int32) {
    if address % 4 != 0 then TrapsWith(t, r, 6, address, t.mem)
    else match M.Reached(c, t.mem, address, 4)
      case Inside =>
        && RvAccess.Stored(t.mem, r.state.mem, address - c.base, 4, Natural(v))
        && GoesOn(r, pc, r.state.mem) && Wrote(t, r.state, 0, 0)
      case Outside => r.status == M.Strayed
      case Refused =>
        if address == M.MMIO_EXIT then r.status == M.Trapped && r.state.csr.mcause == 2
        else
          var a := env.store(t.csr, t.mem, address, v, 4);
          var mem := if |a.mem| == |t.mem| then a.mem else t.mem;
          match a.status
          case Stored => GoesOn(r, pc, mem) && Wrote(t, r.state, 0, 0)
          case StoreExits => r.status == M.Exited
          case StoreFails => TrapsWith(t, r, 7, address, mem)
  }

  // r is what the effect e comes to from t. A jump to an address that is not a multiple of four writes
  // no register.
  ghost predicate Performs(c: M.Config, env: M.Env, t: M.State, r: M.Result, e: I.Effect, jumps: bool) {
    match e.access
    case NoAccess =>
      && GoesOn(r, e.pc, t.mem)
      && WroteTo(t, r.state, if jumps && Value(e.pc) % 4 != 0 then I.NoWrite else e.write)
    case LoadWord(rd, a) => Loads(c, env, t, r, e.pc, rd, SignedValue(a))
    case StoreWord(a, v) => Stores(c, env, t, r, e.pc, SignedValue(a), SignedValue(v))
    case Breakpoint => TrapsWith(t, r, 3, t.pc, t.mem)
    case Undefined => false
  }

  function RegisterWords(t: M.State): bv32 -> bv32 {
    r => if Value(r) < 32 then Of(Natural(X(t, Value(r))), 32) else 0
  }

  // Every state has such a picture
  lemma EveryState(t: M.State)
    ensures Pictures(t, Of(Natural(t.pc), 32), RegisterWords(t))
  {
    hide Value, Of, Natural;
    NaturalFits(t.pc);
    OfValue(Natural(t.pc));
    forall r: bv32 | Value(r) < 32
      ensures Value(I.Reg(RegisterWords(t), r)) == Natural(X(t, Value(r)))
    {
      ZeroValue(r);
      NaturalFits(X(t, Value(r)));
      OfValue(Natural(X(t, Value(r))));
      Constants();
      NaturalZero();
    }
  }

  lemma NaturalZero()
    ensures Natural(0) == 0
  {
  }

  lemma NaturalFits(v: Int32)
    ensures Natural(v) < 0x1_0000_0000
  {
  }

  lemma SignedIs(v: bv32, a: Int32)
    requires Value(v) == Natural(a)
    ensures SignedValue(v) == a
  {
    hide Value;
  }

  // Instructions that write a register and go on with the next

  lemma NextIs(t: M.State, pc: bv32)
    requires Value(pc) == Natural(t.pc)
    ensures Value(I.Ahead(pc, 4)) == Natural(Wrap(t.pc + 4))
  {
    hide Value, Natural, Wrap, IsSum, I.Ahead;
    Constants();
    NaturalFour();
    AheadIs(pc, 4);
    SumIs(pc, 4, I.Ahead(pc, 4), t.pc, 4);
  }

  lemma NaturalFour()
    ensures Natural(4) == 4
  {
  }

  lemma SetWrites(t: M.State, u: M.State, rd: bv32, v: Int32, value: bv32)
    requires Value(rd) < 32 && Value(value) == Natural(v) && u.regs == M.SetReg(true, t, Value(rd), v).regs
    ensures WroteTo(t, u, if rd == 0 then I.NoWrite else I.WriteTo(rd, value))
    ensures Wrote(t, u, Value(rd), Value(value))
  {
    hide Value, Natural;
    ZeroValue(rd);
  }

  lemma WritesPerform(c: M.Config, env: M.Env, t: M.State, r: M.Result, pc: bv32, rd: bv32, v: Int32, value: bv32)
    requires Value(pc) == Natural(t.pc) && Value(rd) < 32 && Value(value) == Natural(v)
    requires r == M.Result(M.Next(M.SetReg(true, t, Value(rd), v)), M.Okay)
    ensures Performs(c, env, t, r, I.Writes(rd, value, I.Ahead(pc, 4)), false)
  {
    hide I.Ahead, Value, Natural, Wrap, WroteTo;
    NextIs(t, pc);
    SetWrites(t, r.state, rd, v, value);
  }

  // The fields of a word
  lemma FieldsAre(w: bv32)
    ensures var i: U32 := Value(w);
      && M.Opcode(i) == Value(I.Opcode(w)) && M.Rd(i) == Value(I.Rd(w)) && M.Func3(i) == Value(I.Func3(w))
      && M.Rs1(i) == Value(I.Rs1(w)) && M.Rs2(i) == Value(I.Rs2(w)) && M.Func7(i) == Value(I.Func7(w))
      && M.ImmI(i) == SignedValue(I.ToImmI(w >> 20))
  {
    hide Value, I.Opcode, I.Rd, I.Func3, I.Rs1, I.Rs2, I.Func7, I.ToImmI, M.ImmI, SignedValue;
    RvWords.OpcodeValue(w);
    RvWords.RdValue(w);
    RvWords.Func3Value(w);
    RvWords.Rs1Value(w);
    RvWords.Rs2Value(w);
    RvWords.Func7Value(w);
    RvWords.ImmIValue(w);
    NaturalIs(M.ImmI(Value(w)));
    SignedIs(I.ToImmI(w >> 20), M.ImmI(Value(w)));
  }

  // Arithmetic with immediates

  predicate IsImmediate(d: I.Instr) { d.Addi? || d.Andi? || d.Slli? || d.Srli? || d.Srai? }

  lemma DecodedImmediate(w: bv32)
    requires IsImmediate(I.Decode(w))
    ensures I.Opcode(w) == 0x13
    ensures var d, f, g := I.Decode(w), I.Func3(w), I.Func7(w);
      && (d.Addi? ==> f == 0 && d == I.Addi(I.Rd(w), I.Rs1(w), I.ToImmI(w >> 20)))
      && (d.Andi? ==> f == 7 && d == I.Andi(I.Rd(w), I.Rs1(w), I.ToImmI(w >> 20)))
      && (d.Slli? ==> f == 1 && g == 0 && d == I.Slli(I.Rd(w), I.Rs1(w), I.Rs2(w)))
      && (d.Srli? ==> f == 5 && g == 0 && d == I.Srli(I.Rd(w), I.Rs1(w), I.Rs2(w)))
      && (d.Srai? ==> f == 5 && g == 0x20 && d == I.Srai(I.Rd(w), I.Rs1(w), I.Rs2(w)))
  {
    hide I.Opcode, I.Func3, I.Func7, I.Rd, I.Rs1, I.ToImmI, I.ToImmB, I.ToImmJ, I.ToImmS, I.ToImmU;
  }

  lemma ImmediateIs(i: U32, a: Int32)
    ensures var v, f, g := M.ImmediateValue(i, a), M.Func3(i), M.Func7(i);
      && (f == 0 ==> v == Some(Wrap(a + M.ImmI(i))))
      && (f == 7 ==> v == Some(M.Basic(7, g == 0x20, a, M.ImmI(i))))
      && (f == 1 && g == 0 ==> v == Some(M.Shl(a, M.Rs2(i))))
      && (f == 5 && g == 0 ==> v == Some(M.Shr(a, M.Rs2(i))))
      && (f == 5 && g == 0x20 ==> v == Some(M.Sar(a, M.Rs2(i))))
  {
    hide M.Func3, M.Func7, M.ImmI, M.Rs2, M.Shl, M.Shr, M.Sar, Wrap, Unsigned;
    AmountIs(i);
  }

  lemma AmountIs(i: U32)
    ensures Unsigned(M.ImmI(i)) % 32 == M.Rs2(i)
  {
  }

  lemma ExecutesImmediate(c: M.Config, env: M.Env, t: M.State, i: U32)
    requires M.Opcode(i) == 0x13 && M.ImmediateValue(i, X(t, M.Rs1(i))).Some?
    ensures M.Execute(true, c, env, t, i)
         == M.Result(M.Next(M.SetReg(true, t, M.Rd(i), M.ImmediateValue(i, X(t, M.Rs1(i))).value)), M.Okay)
  {
    hide M.Opcode, M.ImmediateValue, M.Next, M.SetReg, M.Rs1, M.Rd;
  }

  // The value that it writes, v being that of rs1
  function ImmediateWord(d: I.Instr, v: bv32): bv32 {
    match d
    case Addi(_, _, imm) => v + imm
    case Andi(_, _, imm) => v & imm
    case Slli(_, _, n) => I.Sll(v, n)
    case Srli(_, _, n) => I.Srl(v, n)
    case Srai(_, _, n) => I.Sra(v, n)
    case _ => v
  }

  lemma AmountFits(w: bv32)
    ensures I.Rs2(w) < 32
  {
  }

  lemma NaturalSigned(v: bv32)
    ensures Natural(SignedValue(v)) == Value(v)
  {
    hide Value;
  }

  lemma AddiWord(d: I.Instr, v: bv32)
    requires d.Addi? || d.Andi?
    ensures d.Addi? ==> IsSum(ImmediateWord(d, v), v, d.imm)
    ensures d.Andi? ==> IsAnd(ImmediateWord(d, v), v, d.imm)
  {
  }

  lemma AddiValue(w: bv32, v: bv32, a: Int32)
    requires I.Decode(w).Addi? && Value(v) == Natural(a)
    ensures M.ImmediateValue(Value(w), a).Some?
    ensures Value(ImmediateWord(I.Decode(w), v)) == Natural(M.ImmediateValue(Value(w), a).value)
  {
    hide I.Decode, I.Opcode, I.Func3, I.Func7, I.Rd, I.Rs1, I.Rs2, I.ToImmI, I.Sll, I.Srl, I.Sra, M.Opcode, M.Func3,
      M.Func7, M.Rd, M.Rs1, M.Rs2, M.ImmI, M.ImmediateValue, M.Basic, M.Shl, M.Shr, M.Sar, Value, Natural,
      SignedValue, Wrap, ImmediateWord, IsSum;
    FieldsAre(w);
    DecodedImmediate(w);
    Constants();
    ImmediateIs(Value(w), a);
    NaturalSigned(I.ToImmI(w >> 20));
    AddiWord(I.Decode(w), v);
    SumIs(v, I.ToImmI(w >> 20), ImmediateWord(I.Decode(w), v), a, M.ImmI(Value(w)));
  }

  lemma AndiValue(w: bv32, v: bv32, a: Int32)
    requires I.Decode(w).Andi? && Value(v) == Natural(a)
    ensures M.ImmediateValue(Value(w), a).Some?
    ensures Value(ImmediateWord(I.Decode(w), v)) == Natural(M.ImmediateValue(Value(w), a).value)
  {
    hide I.Decode, I.Opcode, I.Func3, I.Func7, I.Rd, I.Rs1, I.Rs2, I.ToImmI, I.Sll, I.Srl, I.Sra, M.Opcode, M.Func3,
      M.Func7, M.Rd, M.Rs1, M.Rs2, M.ImmI, M.ImmediateValue, M.Basic, M.Shl, M.Shr, M.Sar, Value, Natural,
      SignedValue, Wrap, ImmediateWord, IsAnd;
    FieldsAre(w);
    DecodedImmediate(w);
    Constants();
    ImmediateIs(Value(w), a);
    NaturalSigned(I.ToImmI(w >> 20));
    AddiWord(I.Decode(w), v);
    AndIs(v, I.ToImmI(w >> 20), ImmediateWord(I.Decode(w), v), a, M.ImmI(Value(w)), M.Func7(Value(w)) == 0x20);
  }

  lemma SlliValue(w: bv32, v: bv32, a: Int32)
    requires I.Decode(w).Slli? && Value(v) == Natural(a)
    ensures M.ImmediateValue(Value(w), a).Some?
    ensures Value(ImmediateWord(I.Decode(w), v)) == Natural(M.ImmediateValue(Value(w), a).value)
  {
    hide I.Decode, I.Opcode, I.Func3, I.Func7, I.Rd, I.Rs1, I.Rs2, I.ToImmI, I.Sll, I.Srl, I.Sra, M.Opcode, M.Func3,
      M.Func7, M.Rd, M.Rs1, M.Rs2, M.ImmI, M.ImmediateValue, M.Basic, M.Shl, M.Shr, M.Sar, Value, Natural,
      SignedValue, Wrap;
    FieldsAre(w);
    DecodedImmediate(w);
    Constants();
    ImmediateIs(Value(w), a);
    AmountFits(w);
    ShiftUpIs(v, I.Rs2(w), a, M.Rs2(Value(w)));
  }

  lemma SrliValue(w: bv32, v: bv32, a: Int32)
    requires I.Decode(w).Srli? && Value(v) == Natural(a)
    ensures M.ImmediateValue(Value(w), a).Some?
    ensures Value(ImmediateWord(I.Decode(w), v)) == Natural(M.ImmediateValue(Value(w), a).value)
  {
    hide I.Decode, I.Opcode, I.Func3, I.Func7, I.Rd, I.Rs1, I.Rs2, I.ToImmI, I.Sll, I.Srl, I.Sra, M.Opcode, M.Func3,
      M.Func7, M.Rd, M.Rs1, M.Rs2, M.ImmI, M.ImmediateValue, M.Basic, M.Shl, M.Shr, M.Sar, Value, Natural,
      SignedValue, Wrap;
    FieldsAre(w);
    DecodedImmediate(w);
    Constants();
    ImmediateIs(Value(w), a);
    AmountFits(w);
    ShiftDownIs(v, I.Rs2(w), a, M.Rs2(Value(w)));
  }

  lemma SraiValue(w: bv32, v: bv32, a: Int32)
    requires I.Decode(w).Srai? && Value(v) == Natural(a)
    ensures M.ImmediateValue(Value(w), a).Some?
    ensures Value(ImmediateWord(I.Decode(w), v)) == Natural(M.ImmediateValue(Value(w), a).value)
  {
    hide I.Decode, I.Opcode, I.Func3, I.Func7, I.Rd, I.Rs1, I.Rs2, I.ToImmI, I.Sll, I.Srl, I.Sra, M.Opcode, M.Func3,
      M.Func7, M.Rd, M.Rs1, M.Rs2, M.ImmI, M.ImmediateValue, M.Basic, M.Shl, M.Shr, M.Sar, Value, Natural,
      SignedValue, Wrap;
    FieldsAre(w);
    DecodedImmediate(w);
    Constants();
    ImmediateIs(Value(w), a);
    AmountFits(w);
    ArithmeticShiftIs(v, I.Rs2(w), a, M.Rs2(Value(w)));
  }

  lemma ImmediateValues(w: bv32, v: bv32, a: Int32)
    requires IsImmediate(I.Decode(w)) && Value(v) == Natural(a)
    ensures M.ImmediateValue(Value(w), a).Some?
    ensures Value(ImmediateWord(I.Decode(w), v)) == Natural(M.ImmediateValue(Value(w), a).value)
  {
    hide I.Decode, M.ImmediateValue, Value, Natural, ImmediateWord;
    match I.Decode(w)
    case Addi(_, _, _) => AddiValue(w, v, a);
    case Andi(_, _, _) => AndiValue(w, v, a);
    case Slli(_, _, _) => SlliValue(w, v, a);
    case Srli(_, _, _) => SrliValue(w, v, a);
    case Srai(_, _, _) => SraiValue(w, v, a);
  }

  lemma EffectOfImmediate(d: I.Instr, len: bv32, pc: bv32, x: bv32 -> bv32)
    requires IsImmediate(d) && (d.Slli? || d.Srli? || d.Srai? ==> d.shamt < 32)
    ensures I.Execute(d, len, pc, x) == I.Writes(d.rd, ImmediateWord(d, I.Reg(x, d.rs1)), I.Ahead(pc, len))
  {
    hide I.Ahead, I.Sll, I.Srl, I.Sra, I.Reg;
  }

  lemma ImmediateParts(w: bv32)
    requires IsImmediate(I.Decode(w))
    ensures var d := I.Decode(w);
      && d.rd == I.Rd(w) && d.rs1 == I.Rs1(w) && (d.Slli? || d.Srli? || d.Srai? ==> d.shamt < 32)
    ensures M.Opcode(Value(w)) == 0x13
  {
    hide I.Decode, I.Opcode, I.Func3, I.Func7, I.Rd, I.Rs1, I.Rs2, I.ToImmI, M.Opcode, Value;
    DecodedImmediate(w);
    AmountFits(w);
    FieldsAre(w);
    Opcodes();
  }

  lemma ImmediatePerforms(c: M.Config, env: M.Env, t: M.State, w: bv32, pc: bv32, x: bv32 -> bv32)
    requires Pictures(t, pc, x) && IsImmediate(I.Decode(w))
    ensures Performs(c, env, t, M.Execute(true, c, env, t, Value(w)), I.Execute(I.Decode(w), 4, pc, x), false)
  {
    hide *;
    FieldsAre(w);
    SourceIs(t, pc, x, I.Rs1(w));
    RegisterNames(w);
    var a, v := X(t, Value(I.Rs1(w))), I.Reg(x, I.Rs1(w));
    ImmediateValues(w, v, a);
    ImmediateParts(w);
    EffectOfImmediate(I.Decode(w), 4, pc, x);
    ExecutesImmediate(c, env, t, Value(w));
    WritesPerform(c, env, t, M.Execute(true, c, env, t, Value(w)), pc, I.Rd(w), M.ImmediateValue(Value(w), a).value,
                  ImmediateWord(I.Decode(w), v));
  }

  lemma SourceIs(t: M.State, pc: bv32, x: bv32 -> bv32, r: bv32)
    requires Pictures(t, pc, x)
    ensures Value(pc) == Natural(t.pc)
    ensures Value(r) < 32 ==> Value(I.Reg(x, r)) == Natural(X(t, Value(r)))
  {
  }

  lemma RegisterNames(w: bv32)
    ensures Value(I.Rd(w)) < 32 && Value(I.Rs1(w)) < 32 && Value(I.Rs2(w)) < 32
  {
    FieldsAre(w);
    hide *;
  }

  // Arithmetic on registers

  predicate IsRegister(d: I.Instr) { d.Add? || d.Sub? || d.Xor? || d.Or? || d.And? }

  lemma DecodedRegister(w: bv32)
    requires IsRegister(I.Decode(w))
    ensures var d, f, g := I.Decode(w), I.Func3(w), I.Func7(w);
      && I.Opcode(w) == 0x33 && d.rd == I.Rd(w) && d.rs1 == I.Rs1(w) && d.rs2 == I.Rs2(w)
      && g == (if d.Sub? then 0x20 else 0)
      && f == if d.Add? || d.Sub? then 0 else if d.Xor? then 4 else if d.Or? then 6 else 7
  {
    hide I.Opcode, I.Func3, I.Func7, I.Rd, I.Rs1, I.Rs2, I.ToImmI, I.ToImmB, I.ToImmJ, I.ToImmS, I.ToImmU;
  }

  // The value that it writes, v and u being those of rs1 and rs2
  function RegisterWord(d: I.Instr, v: bv32, u: bv32): bv32 {
    match d
    case Add(_, _, _) => v + u
    case Sub(_, _, _) => v - u
    case Xor(_, _, _) => v ^ u
    case Or(_, _, _) => v | u
    case And(_, _, _) => v & u
    case _ => v
  }

  lemma RegisterSum(d: I.Instr, v: bv32, u: bv32)
    ensures d.Add? ==> IsSum(RegisterWord(d, v, u), v, u)
    ensures d.Sub? ==> IsDifference(RegisterWord(d, v, u), v, u)
  {
  }

  lemma RegisterBits(d: I.Instr, v: bv32, u: bv32)
    ensures d.Xor? ==> IsXor(RegisterWord(d, v, u), v, u)
    ensures d.Or? ==> IsOr(RegisterWord(d, v, u), v, u)
    ensures d.And? ==> IsAnd(RegisterWord(d, v, u), v, u)
  {
  }

  function RegisterNumber(d: I.Instr, a: Int32, b: Int32): Int32 {
    match d
    case Add(_, _, _) => Wrap(a + b)
    case Sub(_, _, _) => Wrap(a as int - b as int)
    case Xor(_, _, _) => M.Basic(4, false, a, b)
    case Or(_, _, _) => M.Basic(6, false, a, b)
    case And(_, _, _) => M.Basic(7, false, a, b)
    case _ => a
  }

  lemma BitwiseValues(d: I.Instr, v: bv32, u: bv32, a: Int32, b: Int32)
    requires (d.Xor? || d.Or? || d.And?) && Value(v) == Natural(a) && Value(u) == Natural(b)
    ensures Value(RegisterWord(d, v, u)) == Natural(RegisterNumber(d, a, b))
  {
    hide Value, Natural, Wrap, IsXor, IsOr, IsAnd, RegisterWord, M.Basic;
    RegisterBits(d, v, u);
    if d.Xor? {
      XorIs(v, u, RegisterWord(d, v, u), a, b);
    } else if d.Or? {
      OrIs(v, u, RegisterWord(d, v, u), a, b);
    } else {
      AndIs(v, u, RegisterWord(d, v, u), a, b, false);
    }
  }

  lemma RegisterValues(d: I.Instr, v: bv32, u: bv32, a: Int32, b: Int32)
    requires IsRegister(d) && Value(v) == Natural(a) && Value(u) == Natural(b)
    ensures Value(RegisterWord(d, v, u)) == Natural(RegisterNumber(d, a, b))
  {
    hide Value, Natural, Wrap, IsSum, IsDifference, RegisterWord, M.Basic;
    RegisterSum(d, v, u);
    if d.Add? {
      SumIs(v, u, RegisterWord(d, v, u), a, b);
    } else if d.Sub? {
      DifferenceIs(v, u, RegisterWord(d, v, u), a, b);
    } else {
      BitwiseValues(d, v, u, a, b);
    }
  }

  lemma RegisterIs(i: U32, d: I.Instr, a: Int32, b: Int32)
    requires IsRegister(d) && M.Func7(i) == (if d.Sub? then 0x20 else 0)
    requires M.Func3(i) == if d.Add? || d.Sub? then 0 else if d.Xor? then 4 else if d.Or? then 6 else 7
    ensures M.RegisterValue(i, a, b) == Some(RegisterNumber(d, a, b))
  {
    hide M.Func7, M.Func3, Wrap, M.Shl, M.Shr, M.Sar;
  }

  lemma RegisterHeads(w: bv32)
    requires IsRegister(I.Decode(w))
    ensures var d, i := I.Decode(w), Value(w);
      && M.Opcode(i) == 0x33 && M.Func7(i) == (if d.Sub? then 0x20 else 0)
      && M.Func3(i) == if d.Add? || d.Sub? then 0 else if d.Xor? then 4 else if d.Or? then 6 else 7
  {
    hide I.Decode, I.Opcode, I.Func3, I.Func7, I.Rd, I.Rs1, I.Rs2, I.ToImmI, M.Opcode, M.Func3, M.Func7, M.ImmI, M.Rd,
      M.Rs1, M.Rs2, Value, SignedValue;
    DecodedRegister(w);
    FieldsAre(w);
    Opcodes();
    Constants();
  }

  lemma ExecutesRegister(c: M.Config, env: M.Env, t: M.State, i: U32)
    requires M.Opcode(i) == 0x33 && M.RegisterValue(i, X(t, M.Rs1(i)), X(t, M.Rs2(i))).Some?
    ensures M.Execute(true, c, env, t, i)
         == M.Result(M.Next(M.SetReg(true, t, M.Rd(i), M.RegisterValue(i, X(t, M.Rs1(i)), X(t, M.Rs2(i))).value)),
                     M.Okay)
  {
    hide M.Opcode, M.RegisterValue, M.Next, M.SetReg, M.Rs1, M.Rs2, M.Rd;
  }

  lemma EffectOfRegister(d: I.Instr, len: bv32, pc: bv32, x: bv32 -> bv32)
    requires IsRegister(d)
    ensures I.Execute(d, len, pc, x) == I.Writes(d.rd, RegisterWord(d, I.Reg(x, d.rs1), I.Reg(x, d.rs2)),
        I.Ahead(pc, len))
  {
    hide I.Ahead, I.Reg;
  }

  lemma RegisterPerforms(c: M.Config, env: M.Env, t: M.State, w: bv32, pc: bv32, x: bv32 -> bv32)
    requires Pictures(t, pc, x) && IsRegister(I.Decode(w))
    ensures Performs(c, env, t, M.Execute(true, c, env, t, Value(w)), I.Execute(I.Decode(w), 4, pc, x), false)
  {
    hide *;
    FieldsAre(w);
    RegisterNames(w);
    DecodedRegister(w);
    RegisterHeads(w);
    SourceIs(t, pc, x, I.Rs1(w));
    SourceIs(t, pc, x, I.Rs2(w));
    var d := I.Decode(w);
    var a, b, v, u := X(t, Value(I.Rs1(w))), X(t, Value(I.Rs2(w))), I.Reg(x, I.Rs1(w)), I.Reg(x, I.Rs2(w));
    RegisterIs(Value(w), d, a, b);
    RegisterValues(d, v, u, a, b);
    EffectOfRegister(d, 4, pc, x);
    ExecutesRegister(c, env, t, Value(w));
    WritesPerform(c, env, t, M.Execute(true, c, env, t, Value(w)), pc, I.Rd(w), RegisterNumber(d, a, b),
                  RegisterWord(d, v, u));
  }

  // LUI

  lemma DecodedLui(w: bv32)
    requires I.Decode(w).Lui?
    ensures I.Opcode(w) == 0x37 && I.Decode(w) == I.Lui(I.Rd(w), I.ToImmU(w >> 12))
  {
    hide I.Opcode, I.Func3, I.Func7, I.Rd, I.Rs1, I.Rs2, I.ToImmI, I.ToImmB, I.ToImmJ, I.ToImmS, I.ToImmU;
  }

  lemma ExecutesLui(c: M.Config, env: M.Env, t: M.State, i: U32)
    requires M.Opcode(i) == 0x37
    ensures M.Execute(true, c, env, t, i) == M.Result(M.Next(M.SetReg(true, t, M.Rd(i), M.ImmU(i))), M.Okay)
  {
    hide M.Opcode, M.Next, M.SetReg, M.Rd, M.ImmU;
  }

  lemma EffectOfLui(d: I.Instr, len: bv32, pc: bv32, x: bv32 -> bv32)
    requires d.Lui?
    ensures I.Execute(d, len, pc, x) == I.Writes(d.rd, d.imm, I.Ahead(pc, len))
  {
    hide I.Ahead, I.Reg, I.Sll, I.Srl, I.Sra;
  }

  lemma LuiPerforms(c: M.Config, env: M.Env, t: M.State, w: bv32, pc: bv32, x: bv32 -> bv32)
    requires Pictures(t, pc, x) && I.Decode(w).Lui?
    ensures Performs(c, env, t, M.Execute(true, c, env, t, Value(w)), I.Execute(I.Decode(w), 4, pc, x), false)
  {
    hide *;
    FieldsAre(w);
    RegisterNames(w);
    DecodedLui(w);
    Opcodes();
    SourceIs(t, pc, x, 0);
    EffectOfLui(I.Decode(w), 4, pc, x);
    ExecutesLui(c, env, t, Value(w));
    RvWords.ImmUValue(w);
    NaturalIs(M.ImmU(Value(w)));
    WritesPerform(c, env, t, M.Execute(true, c, env, t, Value(w)), pc, I.Rd(w), M.ImmU(Value(w)), I.ToImmU(w >> 12));
  }

  // LW and SW

  lemma DecodedMemory(w: bv32)
    requires I.Decode(w).Lw? || I.Decode(w).Sw?
    ensures I.Func3(w) == 2
    ensures I.Decode(w).Lw? ==> I.Opcode(w) == 0x03 && I.Decode(w) == I.Lw(I.Rd(w), I.Rs1(w), I.ToImmI(w >> 20))
    ensures I.Decode(w).Sw? ==>
        I.Opcode(w) == 0x23 && I.Decode(w) == I.Sw(I.Rs1(w), I.Rs2(w), I.ToImmS(w >> 25, I.Rd(w)))
  {
    hide I.Opcode, I.Func3, I.Func7, I.Rd, I.Rs1, I.Rs2, I.ToImmI, I.ToImmB, I.ToImmJ, I.ToImmS, I.ToImmU;
  }

  // The address of an access
  lemma AddressIs(v: bv32, imm: bv32, p: bv32, a: Int32, n: Int32)
    requires Value(v) == Natural(a) && Value(imm) == Natural(n) && IsSum(p, v, imm)
    ensures SignedValue(p) == Wrap(a + n)
  {
    hide Value, Wrap, IsSum;
    SumIs(v, imm, p, a, n);
    SignedIs(p, Wrap(a + n));
  }

  lemma TrapIs(c: M.Config, t: M.State, u: M.State, cause: nat, val: Int32)
    requires u.prevPc == t.prevPc && u.regs == t.regs && cause < 0x8000_0000
    ensures TrapsWith(t, M.Result(M.TrapTo(c, u, cause, val), M.Trapped), cause, val, u.mem)
  {
    hide M.Entered, M.Vector, Wrap;
    RvTraps.TrapToState(c, u, cause, val);
    RvTraps.WrapBackSigned(cause);
  }

  lemma RamKeeps(c: M.Config, t: M.State)
    ensures var u := M.RamCycle(c, t); u.pc == t.pc && u.prevPc == t.prevPc && u.regs == t.regs && u.mem == t.mem
  {
  }

  lemma GoesNext(u: M.State, t: M.State, rd: bv32, v: Int32, pc: bv32)
    requires Value(pc) == Natural(t.pc) && u.pc == t.pc && u.regs == t.regs && Value(rd) < 32
    ensures var r := M.Result(M.Next(M.SetReg(true, u, Value(rd), v)), M.Okay);
      GoesOn(r, I.Ahead(pc, 4), u.mem) && Wrote(t, r.state, Value(rd), Natural(v))
  {
    hide I.Ahead, Value, Natural, Wrap;
    NextIs(t, pc);
  }

  lemma LoadPerforms(c: M.Config, env: M.Env, t: M.State, i: U32, address: Int32, pc: bv32, rd: bv32)
    requires M.Opcode(i) == 0x03 && M.Func3(i) == 2 && M.Rd(i) == Value(rd) && Value(pc) == Natural(t.pc)
    requires address == Wrap(X(t, M.Rs1(i)) + M.ImmI(i))
    ensures Loads(c, env, t, M.Execute(true, c, env, t, i), I.Ahead(pc, 4), rd, address)
  {
    hide I.Ahead, Value, Natural, Wrap, M.Opcode, M.Func3, M.Rd, M.Rs1, M.ImmI, M.Reached, M.Bytes, M.Extended,
        M.SetReg, M.Next,
      M.TrapTo, M.RamCycle, M.AccessLength, M.Execute, RvAccess.Held, TrapsWith, GoesOn, Wrote, Unsigned;
    RvAccess.LengthIs(2);
    RvAccess.ExecutesLoad(c, env, t, i, address, 4);
    var u := M.RamCycle(c, t);
    RamKeeps(c, t);
    if address % 4 != 0 {
      TrapIs(c, t, u, 4, address);
    } else if M.Reached(c, t.mem, address, 4).Inside? {
      var k := address - c.base;
      RvAccess.BytesHeld(t.mem, k, 4);
      RvAccess.ExtendedMeans(2, M.Bytes(t.mem, k, 4));
      GoesNext(u, t, rd, M.Extended(2, M.Bytes(t.mem, k, 4)), pc);
    } else if M.Reached(c, t.mem, address, 4).Refused? {
      match env.load(t.csr, address)
      case LoadFails => TrapIs(c, t, u, 5, address);
      case LoadGives(d) =>
        RvAccess.ExtendedDevice(2, d);
        GoesNext(u, t, rd, M.Extended(2, Unsigned(d)), pc);
    }
  }

  lemma EffectOfMemory(d: I.Instr, len: bv32, pc: bv32, x: bv32 -> bv32)
    requires d.Lw? || d.Sw?
    ensures var e := I.Execute(d, len, pc, x);
      && e.pc == I.Ahead(pc, len)
      && (d.Lw? ==> e.access.LoadWord? && e.access.rd == d.rd)
      && (d.Sw? ==> e.access.StoreWord? && e.access.value == I.Reg(x, d.rs2))
      && e.access.address == I.Ahead(I.Reg(x, d.rs1), d.imm)
  {
    hide I.Ahead, I.Reg;
  }

  lemma LwPerforms(c: M.Config, env: M.Env, t: M.State, w: bv32, pc: bv32, x: bv32 -> bv32)
    requires Pictures(t, pc, x) && I.Decode(w).Lw?
    ensures Performs(c, env, t, M.Execute(true, c, env, t, Value(w)), I.Execute(I.Decode(w), 4, pc, x), false)
  {
    hide *;
    FieldsAre(w);
    RegisterNames(w);
    DecodedMemory(w);
    Opcodes();
    Constants();
    SourceIs(t, pc, x, I.Rs1(w));
    EffectOfMemory(I.Decode(w), 4, pc, x);
    NaturalSigned(I.ToImmI(w >> 20));
    var e := I.Execute(I.Decode(w), 4, pc, x);
    AheadIs(I.Reg(x, I.Rs1(w)), I.ToImmI(w >> 20));
    AddressIs(I.Reg(x, I.Rs1(w)), I.ToImmI(w >> 20), e.access.address, X(t, Value(I.Rs1(w))), M.ImmI(Value(w)));
    LoadPerforms(c, env, t, Value(w), SignedValue(e.access.address), pc, I.Rd(w));
    AccessPerforms(c, env, t, M.Execute(true, c, env, t, Value(w)), e);
  }

  lemma AccessPerforms(c: M.Config, env: M.Env, t: M.State, r: M.Result, e: I.Effect)
    requires e.access.LoadWord? || e.access.StoreWord?
    requires e.access.LoadWord? ==> Loads(c, env, t, r, e.pc, e.access.rd, SignedValue(e.access.address))
    requires e.access.StoreWord? ==>
        Stores(c, env, t, r, e.pc, SignedValue(e.access.address), SignedValue(e.access.value))
    ensures Performs(c, env, t, r, e, false)
  {
    hide Loads, Stores, SignedValue;
  }

  lemma GoesPlain(u: M.State, t: M.State, pc: bv32)
    requires Value(pc) == Natural(t.pc) && u.pc == t.pc && u.regs == t.regs
    ensures var r := M.Result(M.Next(u), M.Okay); GoesOn(r, I.Ahead(pc, 4), u.mem) && Wrote(t, r.state, 0, 0)
  {
    hide I.Ahead, Value, Natural, Wrap;
    NextIs(t, pc);
  }

  lemma StorePerforms(c: M.Config, env: M.Env, t: M.State, i: U32, address: Int32, pc: bv32)
    requires M.Opcode(i) == 0x23 && M.Func3(i) == 2 && Value(pc) == Natural(t.pc)
    requires address == Wrap(X(t, M.Rs1(i)) + M.ImmS(i))
    ensures Stores(c, env, t, M.Execute(true, c, env, t, i), I.Ahead(pc, 4), address, X(t, M.Rs2(i)))
  {
    hide I.Ahead, Value, Natural, Wrap, M.Opcode, M.Func3, M.Rd, M.Rs1, M.Rs2, M.ImmS, M.Reached, M.Stores,
        M.StoreOutside,
      M.Next, M.TrapTo, M.RamCycle, M.AccessLength, M.Execute, RvAccess.Stored, TrapsWith, Wrote, Unsigned;
    RvAccess.LengthIs(2);
    RvAccess.ExecutesStore(c, env, t, i, address, 4);
    var v := X(t, M.Rs2(i));
    RamKeeps(c, t);
    NaturalIs(v);
    if address % 4 != 0 {
      TrapIs(c, t, M.RamCycle(c, t), 6, address);
    } else if M.Reached(c, t.mem, address, 4).Inside? {
      var k := address - c.base;
      var u := t.(mem := M.Stores(t.mem, k, Unsigned(v), 4));
      RvAccess.StoresStored(t.mem, k, Unsigned(v), 4);
      RamKeeps(c, u);
      GoesPlain(M.RamCycle(c, u), t, pc);
    } else if M.Reached(c, t.mem, address, 4).Refused? {
      if address == M.MMIO_EXIT {
        ExitIs(c, env, t, i);
      } else {
        DevicePerforms(c, env, t, address, v, pc);
      }
    }
  }

  lemma ExitIs(c: M.Config, env: M.Env, t: M.State, i: U32)
    requires M.Opcode(i) == 0x23 && M.Func3(i) == 2 && Wrap(X(t, M.Rs1(i)) + M.ImmS(i)) == M.MMIO_EXIT
    requires M.Reached(c, t.mem, M.MMIO_EXIT, 4).Refused?
    ensures var r := M.Execute(true, c, env, t, i); r.status == M.Trapped && r.state.csr.mcause == 2
  {
    hide M.Opcode, M.Func3, M.Rs1, M.Rs2, M.ImmS, M.Reached, M.Stores, M.StoreOutside, M.Next, M.TrapTo, M.RamCycle,
      Wrap;
    RvTraps.TrapToState(c, M.RamCycle(c, t), 2, Wrap(i));
    RvTraps.WrapBackSigned(2);
  }

  lemma DevicePerforms(c: M.Config, env: M.Env, t: M.State, address: Int32, v: Int32, pc: bv32)
    requires Value(pc) == Natural(t.pc)
    ensures var r, a := M.StoreOutside(c, env, t, address, v, 4), env.store(t.csr, t.mem, address, v, 4);
      var mem := if |a.mem| == |t.mem| then a.mem else t.mem;
      && (a.status.Stored? ==> GoesOn(r, I.Ahead(pc, 4), mem) && Wrote(t, r.state, 0, 0))
      && (a.status.StoreExits? ==> r.status == M.Exited)
      && (a.status.StoreFails? ==> TrapsWith(t, r, 7, address, mem))
  {
    hide I.Ahead, Value, Natural, M.Next, M.TrapTo, M.RamCycle, TrapsWith, GoesOn, Wrote;
    var a := env.store(t.csr, t.mem, address, v, 4);
    var u := M.Devices(t, a);
    RamKeeps(c, u);
    if a.status.Stored? {
      GoesPlain(M.RamCycle(c, u), t, pc);
    } else if a.status.StoreFails? {
      TrapIs(c, t, M.RamCycle(c, u), 7, address);
    }
  }

  lemma SwPerforms(c: M.Config, env: M.Env, t: M.State, w: bv32, pc: bv32, x: bv32 -> bv32)
    requires Pictures(t, pc, x) && I.Decode(w).Sw?
    ensures Performs(c, env, t, M.Execute(true, c, env, t, Value(w)), I.Execute(I.Decode(w), 4, pc, x), false)
  {
    hide *;
    FieldsAre(w);
    RegisterNames(w);
    DecodedMemory(w);
    Opcodes();
    Constants();
    SourceIs(t, pc, x, I.Rs1(w));
    SourceIs(t, pc, x, I.Rs2(w));
    EffectOfMemory(I.Decode(w), 4, pc, x);
    RvWords.ImmSValue(w);
    NaturalIs(M.ImmS(Value(w)));
    var e, a := I.Execute(I.Decode(w), 4, pc, x), X(t, Value(I.Rs1(w)));
    AheadIs(I.Reg(x, I.Rs1(w)), I.ToImmS(w >> 25, I.Rd(w)));
    AddressIs(I.Reg(x, I.Rs1(w)), I.ToImmS(w >> 25, I.Rd(w)), e.access.address, a, M.ImmS(Value(w)));
    SignedIs(I.Reg(x, I.Rs2(w)), X(t, Value(I.Rs2(w))));
    StorePerforms(c, env, t, Value(w), SignedValue(e.access.address), pc);
    AccessPerforms(c, env, t, M.Execute(true, c, env, t, Value(w)), e);
  }

  // Jumps and branches

  lemma DecodedJump(w: bv32)
    requires I.Decode(w).Jal? || I.Decode(w).Jalr?
    ensures I.Decode(w).Jal? ==> I.Opcode(w) == 0x6f && I.Decode(w) == I.Jal(I.Rd(w), I.ToImmJ(w >> 12))
    ensures I.Decode(w).Jalr? ==>
        I.Opcode(w) == 0x67 && I.Decode(w) == I.Jalr(I.Rd(w), I.Rs1(w), I.ToImmI(w >> 20))
  {
    hide I.Opcode, I.Func3, I.Func7, I.Rd, I.Rs1, I.Rs2, I.ToImmI, I.ToImmB, I.ToImmJ, I.ToImmS, I.ToImmU;
  }

  predicate IsEvened(e: bv32, v: bv32) { e == v & 0xfffffffe }

  lemma EvenedParts(e: bv32, v: bv32)
    requires IsEvened(e, v)
    ensures exists b: bv32 :: b == v & 1 && IsJoin(v, e, b)
  {
    var b := v & 1;
    assert b == v & 1 && IsJoin(v, e, b);
  }

  lemma EvenedValue(e: bv32, v: bv32, a: Int32)
    requires IsEvened(e, v) && Value(v) == Natural(a)
    ensures Value(e) == Natural(Evened(a)) == Value(v) - Value(v) % 2
  {
    hide Value, IsEvened, IsJoin, IsMask, Pow2;
    EvenedParts(e, v);
    var b: bv32 :| b == v & 1 && IsJoin(v, e, b);
    JoinValue(v, e, b);
    Masks();
    RvWords.PowerValues();
    MaskedValue(v, 1, 1);
  }

  lemma JalEffect(d: I.Instr, len: bv32, pc: bv32, x: bv32 -> bv32)
    requires d.Jal?
    ensures I.Execute(d, len, pc, x) == I.Writes(d.rd, I.Ahead(pc, len), I.Ahead(pc, d.imm) & 0xfffffffe)
  {
    hide I.Ahead, I.Writes, I.Sll, I.Srl, I.Sra, I.Shifts, I.Reg;
  }

  lemma JalrEffect(d: I.Instr, len: bv32, pc: bv32, x: bv32 -> bv32)
    requires d.Jalr?
    ensures I.Execute(d, len, pc, x) == I.Writes(d.rd, I.Ahead(pc, len), I.Ahead(I.Reg(x, d.rs1), d.imm) & 0xfffffffe)
  {
    hide I.Ahead, I.Writes, I.Sll, I.Srl, I.Sra, I.Shifts, I.Reg;
  }

  // A jump to sum, without its lowest bit, that leaves the address link in rd
  ghost predicate Links(e: I.Effect, rd: bv32, link: bv32, sum: bv32) {
    e.access.NoAccess? && IsEvened(e.pc, sum) && e.write == if rd == 0 then I.NoWrite else I.WriteTo(rd, link)
  }

  lemma WritesLink(rd: bv32, link: bv32, sum: bv32)
    ensures Links(I.Writes(rd, link, sum & 0xfffffffe), rd, link, sum)
  {
  }

  lemma EffectOfJal(d: I.Instr, pc: bv32, x: bv32 -> bv32)
    requires d.Jal?
    ensures Links(I.Execute(d, 4, pc, x), d.rd, I.Ahead(pc, 4), I.Ahead(pc, d.imm))
  {
    hide *;
    JalEffect(d, 4, pc, x);
    WritesLink(d.rd, I.Ahead(pc, 4), I.Ahead(pc, d.imm));
  }

  lemma EffectOfJalr(d: I.Instr, pc: bv32, x: bv32 -> bv32)
    requires d.Jalr?
    ensures Links(I.Execute(d, 4, pc, x), d.rd, I.Ahead(pc, 4), I.Ahead(I.Reg(x, d.rs1), d.imm))
  {
    hide *;
    JalrEffect(d, 4, pc, x);
    WritesLink(d.rd, I.Ahead(pc, 4), I.Ahead(I.Reg(x, d.rs1), d.imm));
  }

  // The target of a jump on numbers
  function JumpTarget(t: M.State, i: U32): Int32 {
    Wrap(if M.Opcode(i) == 0x6f then t.pc + M.ImmJ(i) else X(t, M.Rs1(i)) + M.ImmI(i))
  }

  // Jumps to themselves: these end the program
  predicate Halts(t: M.State, i: U32) {
    if M.Opcode(i) == 0x6f then M.ImmJ(i) == 0 else M.Opcode(i) == 0x67 && JumpTarget(t, i) == t.pc
  }

  lemma ExecutesJump(c: M.Config, env: M.Env, t: M.State, i: U32)
    requires M.Opcode(i) == 0x6f || M.Opcode(i) == 0x67
    ensures M.Execute(true, c, env, t, i)
         == if Halts(t, i) then M.Result(t, M.Exited) else M.Jumped(true, c, t, M.Rd(i), JumpTarget(t, i))
  {
    hide M.Opcode, M.Rs1, M.Rd, M.ImmI, M.ImmJ, M.Jumped, Wrap;
  }

  lemma JumpedPerforms(c: M.Config, t: M.State, rd: bv32, target: Int32, pc: bv32, sum: bv32, e: I.Effect)
    requires Value(rd) < 32 && Value(pc) == Natural(t.pc) && Value(sum) == Natural(target)
    requires Links(e, rd, I.Ahead(pc, 4), sum)
    ensures var r := M.Jumped(true, c, t, Value(rd), target);
      && GoesOn(r, e.pc, t.mem)
      && WroteTo(t, r.state, if Value(e.pc) % 4 != 0 then I.NoWrite else e.write)
  {
    hide I.Ahead, Value, Wrap, Natural, Evened, WroteTo, IsEvened;
    EvenedIs(target);
    EvenedValue(e.pc, sum, target);
    NextIs(t, pc);
    AlignedNatural(Evened(target));
    var r := M.Jumped(true, c, t, Value(rd), target);
    if Evened(target) % 4 == 0 {
      SetWrites(t, r.state, rd, Wrap(t.pc + 4), I.Ahead(pc, 4));
    } else {
      NothingWritten(t, r.state);
    }
  }

  lemma LinksOnly(e: I.Effect, rd: bv32, link: bv32, sum: bv32)
    requires Links(e, rd, link, sum)
    ensures e.access.NoAccess?
  {
  }

  lemma NothingWritten(t: M.State, u: M.State)
    requires u.regs == t.regs
    ensures WroteTo(t, u, I.NoWrite)
  {
  }

  lemma AlignedNatural(v: Int32)
    ensures Natural(v) % 4 == v % 4
  {
  }

  lemma LinkPerforms(c: M.Config, env: M.Env, t: M.State, i: U32, rd: bv32, pc: bv32, sum: bv32, e: I.Effect)
    requires (M.Opcode(i) == 0x6f || M.Opcode(i) == 0x67) && M.Rd(i) == Value(rd)
    requires Value(pc) == Natural(t.pc) && Value(sum) == Natural(JumpTarget(t, i)) && Links(e, rd, I.Ahead(pc, 4), sum)
    ensures var r := M.Execute(true, c, env, t, i);
      if Halts(t, i) then r == M.Result(t, M.Exited) else Performs(c, env, t, r, e, true)
  {
    hide *;
    ExecutesJump(c, env, t, i);
    JumpedPerforms(c, t, rd, JumpTarget(t, i), pc, sum, e);
    LinksOnly(e, rd, I.Ahead(pc, 4), sum);
    if !Halts(t, i) {
      NoAccessPerforms(c, env, t, M.Execute(true, c, env, t, i), e, true);
    }
  }

  lemma SumPerforms(c: M.Config, env: M.Env, t: M.State, i: U32, rd: bv32, pc: bv32, v: bv32, imm: bv32, e: I.Effect)
    requires (M.Opcode(i) == 0x6f || M.Opcode(i) == 0x67) && M.Rd(i) == Value(rd)
    requires Value(pc) == Natural(t.pc)
    requires Value(v) == Natural(if M.Opcode(i) == 0x6f then t.pc else X(t, M.Rs1(i)))
    requires Value(imm) == Natural(if M.Opcode(i) == 0x6f then M.ImmJ(i) else M.ImmI(i))
    requires Links(e, rd, I.Ahead(pc, 4), I.Ahead(v, imm))
    ensures var r := M.Execute(true, c, env, t, i);
      if Halts(t, i) then r == M.Result(t, M.Exited) else Performs(c, env, t, r, e, true)
  {
    hide *;
    AheadIs(v, imm);
    TargetIs(t, i, I.Ahead(v, imm), v, imm, M.Opcode(i) == 0x6f);
    LinkPerforms(c, env, t, i, rd, pc, I.Ahead(v, imm), e);
  }

  lemma JalEffectPerforms(c: M.Config, env: M.Env, t: M.State, i: U32, d: I.Instr, pc: bv32, x: bv32 -> bv32)
    requires d.Jal? && M.Opcode(i) == 0x6f && M.Rd(i) == Value(d.rd) && Value(d.imm) == Natural(M.ImmJ(i))
    requires Value(pc) == Natural(t.pc)
    ensures var r := M.Execute(true, c, env, t, i);
      if Halts(t, i) then r == M.Result(t, M.Exited) else Performs(c, env, t, r, I.Execute(d, 4, pc, x), true)
  {
    hide *;
    EffectOfJal(d, pc, x);
    SumPerforms(c, env, t, i, d.rd, pc, pc, d.imm, I.Execute(d, 4, pc, x));
  }

  lemma JalPerforms(c: M.Config, env: M.Env, t: M.State, w: bv32, pc: bv32, x: bv32 -> bv32)
    requires Pictures(t, pc, x) && I.Decode(w).Jal?
    ensures var r, e := M.Execute(true, c, env, t, Value(w)), I.Execute(I.Decode(w), 4, pc, x);
      if Halts(t, Value(w)) then r == M.Result(t, M.Exited) else Performs(c, env, t, r, e, true)
  {
    hide *;
    FieldsAre(w);
    DecodedJump(w);
    Opcodes();
    SourceIs(t, pc, x, 0);
    RvWords.ImmJValue(w);
    NaturalIs(M.ImmJ(Value(w)));
    var d := I.Decode(w);
    JalEffectPerforms(c, env, t, Value(w), d, pc, x);
  }

  lemma JalrEffectPerforms(c: M.Config, env: M.Env, t: M.State, i: U32, d: I.Instr, pc: bv32, x: bv32 -> bv32)
    requires d.Jalr? && M.Opcode(i) == 0x67 && M.Rd(i) == Value(d.rd) && Value(d.imm) == Natural(M.ImmI(i))
    requires Value(pc) == Natural(t.pc)
    requires Value(I.Reg(x, d.rs1)) == Natural(X(t, M.Rs1(i)))
    ensures var r := M.Execute(true, c, env, t, i);
      if Halts(t, i) then r == M.Result(t, M.Exited) else Performs(c, env, t, r, I.Execute(d, 4, pc, x), true)
  {
    hide *;
    EffectOfJalr(d, pc, x);
    SumPerforms(c, env, t, i, d.rd, pc, I.Reg(x, d.rs1), d.imm, I.Execute(d, 4, pc, x));
  }

  lemma JalrPerforms(c: M.Config, env: M.Env, t: M.State, w: bv32, pc: bv32, x: bv32 -> bv32)
    requires Pictures(t, pc, x) && I.Decode(w).Jalr?
    ensures var r, e := M.Execute(true, c, env, t, Value(w)), I.Execute(I.Decode(w), 4, pc, x);
      if Halts(t, Value(w)) then r == M.Result(t, M.Exited) else Performs(c, env, t, r, e, true)
  {
    hide *;
    FieldsAre(w);
    RegisterNames(w);
    DecodedJump(w);
    Opcodes();
    SourceIs(t, pc, x, I.Rs1(w));
    NaturalSigned(I.ToImmI(w >> 20));
    var d := I.Decode(w);
    JalrEffectPerforms(c, env, t, Value(w), d, pc, x);
  }

  lemma TargetIs(t: M.State, i: U32, sum: bv32, v: bv32, imm: bv32, direct: bool)
    requires IsSum(sum, v, imm) && M.Opcode(i) == if direct then 0x6f else 0x67
    requires Value(v) == Natural(if direct then t.pc else X(t, M.Rs1(i)))
    requires Value(imm) == Natural(if direct then M.ImmJ(i) else M.ImmI(i))
    ensures Value(sum) == Natural(JumpTarget(t, i))
  {
    hide Value, IsSum, Natural, Wrap, M.Opcode, M.Rs1, M.ImmJ, M.ImmI;
    SumIs(v, imm, sum, if direct then t.pc else X(t, M.Rs1(i)), if direct then M.ImmJ(i) else M.ImmI(i));
  }

  lemma NoAccessPerforms(c: M.Config, env: M.Env, t: M.State, r: M.Result, e: I.Effect, jumps: bool)
    requires e.access.NoAccess? && GoesOn(r, e.pc, t.mem)
    requires WroteTo(t, r.state, if jumps && Value(e.pc) % 4 != 0 then I.NoWrite else e.write)
    ensures Performs(c, env, t, r, e, jumps)
  {
    hide Value, GoesOn, WroteTo;
  }

  lemma DecodedBranch(w: bv32)
    requires I.Decode(w).Beq? || I.Decode(w).Bne?
    ensures var d, imm := I.Decode(w), I.ToImmB(w >> 25, I.Rd(w));
      && I.Opcode(w) == 0x63 && I.Func3(w) == (if d.Beq? then 0 else 1)
      && d == if d.Beq? then I.Beq(I.Rs1(w), I.Rs2(w), imm) else I.Bne(I.Rs1(w), I.Rs2(w), imm)
  {
    hide I.Opcode, I.Func3, I.Func7, I.Rd, I.Rs1, I.Rs2, I.ToImmI, I.ToImmB, I.ToImmJ, I.ToImmS, I.ToImmU;
  }

  lemma EffectOfBranch(d: I.Instr, len: bv32, pc: bv32, x: bv32 -> bv32)
    requires d.Beq? || d.Bne?
    ensures var taken := (I.Reg(x, d.rs1) == I.Reg(x, d.rs2)) == d.Beq?;
      I.Execute(d, len, pc, x)
      == I.Effect(if taken then I.Ahead(pc, d.imm) else I.Ahead(pc, len), I.NoWrite, I.NoAccess)
  {
    hide I.Reg, I.Ahead, I.Sll, I.Srl, I.Sra, I.Shifts, I.Writes;
  }

  lemma OpcodeNames()
    ensures M.BRANCH == 0x63 && M.SYSTEM == 0x73
  {
  }

  lemma SameValues(v: bv32, u: bv32, a: Int32, b: Int32)
    requires Value(v) == Natural(a) && Value(u) == Natural(b)
    ensures v == u <==> a == b
  {
    hide Value;
    if a == b {
      ValueFixes(v, u);
    }
  }

  lemma BranchedPerforms(c: M.Config, env: M.Env, t: M.State, offset: Int32, pc: bv32, imm: bv32)
    requires Value(pc) == Natural(t.pc) && Value(imm) == Natural(offset)
    ensures Performs(c, env, t, M.Branched(c, t, offset), I.Effect(I.Ahead(pc, imm), I.NoWrite, I.NoAccess), false)
  {
    hide Value, Natural, Wrap, IsSum, I.Ahead;
    AheadIs(pc, imm);
    SumIs(pc, imm, I.Ahead(pc, imm), t.pc, offset);
  }

  lemma NextPerforms(c: M.Config, env: M.Env, t: M.State, pc: bv32)
    requires Value(pc) == Natural(t.pc)
    ensures Performs(c, env, t, M.Result(M.Next(t), M.Okay), I.Effect(I.Ahead(pc, 4), I.NoWrite, I.NoAccess), false)
  {
    hide Value, Natural, Wrap, I.Ahead;
    NextIs(t, pc);
  }

  lemma BranchEffectPerforms(c: M.Config, env: M.Env, t: M.State, i: U32, d: I.Instr, pc: bv32, x: bv32 -> bv32)
    requires (d.Beq? || d.Bne?) && M.Opcode(i) == 0x63 && M.Func3(i) == (if d.Beq? then 0 else 1)
    requires Value(pc) == Natural(t.pc) && Value(d.imm) == Natural(M.ImmB(i))
    requires I.Reg(x, d.rs1) == I.Reg(x, d.rs2) <==> X(t, M.Rs1(i)) == X(t, M.Rs2(i))
    ensures Performs(c, env, t, M.Execute(true, c, env, t, i), I.Execute(d, 4, pc, x), false)
  {
    hide *;
    OpcodeNames();
    EffectOfBranch(d, 4, pc, x);
    var taken := ExecutesBranch(c, env, t, i);
    if taken {
      BranchedPerforms(c, env, t, M.ImmB(i), pc, d.imm);
    } else {
      NextPerforms(c, env, t, pc);
    }
  }

  lemma BranchPerforms(c: M.Config, env: M.Env, t: M.State, w: bv32, pc: bv32, x: bv32 -> bv32)
    requires Pictures(t, pc, x) && (I.Decode(w).Beq? || I.Decode(w).Bne?)
    ensures Performs(c, env, t, M.Execute(true, c, env, t, Value(w)), I.Execute(I.Decode(w), 4, pc, x), false)
  {
    hide *;
    FieldsAre(w);
    RegisterNames(w);
    DecodedBranch(w);
    Opcodes();
    Constants();
    SourceIs(t, pc, x, I.Rs1(w));
    SourceIs(t, pc, x, I.Rs2(w));
    SameValues(I.Reg(x, I.Rs1(w)), I.Reg(x, I.Rs2(w)), X(t, Value(I.Rs1(w))), X(t, Value(I.Rs2(w))));
    RvWords.ImmBValue(w);
    NaturalIs(M.ImmB(Value(w)));
    BranchEffectPerforms(c, env, t, Value(w), I.Decode(w), pc, x);
  }

  // EBREAK

  lemma DecodedEbreak(w: bv32)
    requires I.Decode(w).Ebreak?
    ensures I.Opcode(w) == 0x73 && I.Func3(w) == 0 && (w >> 20) & 3 == 1
  {
    hide I.Opcode, I.Func3, I.Func7, I.Rd, I.Rs1, I.Rs2, I.ToImmI, I.ToImmB, I.ToImmJ, I.ToImmS, I.ToImmU;
  }

  lemma EbreakPerforms(c: M.Config, env: M.Env, t: M.State, w: bv32, pc: bv32, x: bv32 -> bv32)
    requires Pictures(t, pc, x) && I.Decode(w).Ebreak?
    ensures Performs(c, env, t, M.Execute(true, c, env, t, Value(w)), I.Execute(I.Decode(w), 4, pc, x), false)
  {
    hide *;
    FieldsAre(w);
    DecodedEbreak(w);
    Opcodes();
    Constants();
    Amounts();
    Masks();
    RvWords.PowerValues();
    RvWords.FieldValue(w, 20, 20, 3, 2);
    OpcodeNames();
    RvSystem.ExecutesSystem(c, env, t, Value(w), Value(w) / 0x10_0000);
    TrapIs(c, t, t, 3, t.pc);
    BreakPerforms(c, env, t, M.Execute(true, c, env, t, Value(w)), pc, x, I.Decode(w));
  }

  lemma BreakPerforms(c: M.Config, env: M.Env, t: M.State, r: M.Result, pc: bv32, x: bv32 -> bv32, d: I.Instr)
    requires d.Ebreak? && TrapsWith(t, r, 3, t.pc, t.mem)
    ensures Performs(c, env, t, r, I.Execute(d, 4, pc, x), false)
  {
    hide TrapsWith;
  }

  // Every instruction

  // A word that stands for an instruction of instructions.dfy does on the machine what that
  // instruction does on words, in every state and whatever the devices answer
  lemma InstructionPerforms(c: M.Config, env: M.Env, t: M.State, w: bv32, pc: bv32, x: bv32 -> bv32)
    requires Pictures(t, pc, x) && !I.Decode(w).Other?
    ensures var d, r := I.Decode(w), M.Execute(true, c, env, t, Value(w));
      if (d.Jal? || d.Jalr?) && Halts(t, Value(w)) then r == M.Result(t, M.Exited)
      else Performs(c, env, t, r, I.Execute(d, 4, pc, x), d.Jal? || d.Jalr?)
  {
    hide I.Decode, I.Execute, M.Execute, Value, Performs, Pictures, Halts;
    var d := I.Decode(w);
    if IsImmediate(d) {
      ImmediatePerforms(c, env, t, w, pc, x);
    } else if IsRegister(d) {
      RegisterPerforms(c, env, t, w, pc, x);
    } else {
      match d
      case Lui(_, _) => LuiPerforms(c, env, t, w, pc, x);
      case Lw(_, _, _) => LwPerforms(c, env, t, w, pc, x);
      case Sw(_, _, _) => SwPerforms(c, env, t, w, pc, x);
      case Jal(_, _) => JalPerforms(c, env, t, w, pc, x);
      case Jalr(_, _, _) => JalrPerforms(c, env, t, w, pc, x);
      case Beq(_, _, _) => BranchPerforms(c, env, t, w, pc, x);
      case Bne(_, _, _) => BranchPerforms(c, env, t, w, pc, x);
      case Ebreak => EbreakPerforms(c, env, t, w, pc, x);
    }
  }
}
