// What a step of the machine of tools/rvsim.c does, instruction by instruction, on encoded words and
// in plain arithmetic. x0 is hard-wired; the simulator itself agrees with this machine by RvTheory.
module RvSteps {
  import opened MachineInts
  import opened MultiplyDivide
  import opened Options
  import opened Powers
  import opened RvMachine
  import opened RvMeaning
  import opened RvRuns
  import opened RvTraps

  // Registers and numbers

  function X(s: State, n: Index): Int32 { if n == 0 then 0 else s.regs[n] }

  function Natural(v: Int32): nat { if v < 0 then v + 0x1_0000_0000 else v }

  predicate Congruent(x: int, y: int) { (x - y) % 0x1_0000_0000 == 0 }

  // The even number at or below x
  function Evened(x: Int32): Int32 { if x % 2 == 0 then x else x - 1 }

  function Following(pc: Int32): Int32 { if pc < 0x7fff_fffc then pc + 4 else pc + 4 - 0x1_0000_0000 }

  // The step begun at s fetches w
  predicate Runs(c: Config, s: State, w: U32) {
    HasWord(c, Begun(true, c, s)) && Word(c, Begun(true, c, s)) == w
  }

  // The control registers after a step of n cycles that writes none
  function Ticked(csr: Csr, n: int): Csr {
    csr.(cycle := csr.cycle + n, mtime := csr.mtime + n, instret := csr.instret + 1, time := csr.time + 1)
  }

  // A step from b goes on at pc with the given memory and control registers, and writes v to rd
  ghost predicate Leaves(b: State, r: Option<Result>, pc: Int32, rd: Index, v: Int32, mem: seq<U8>, csr: Csr) {
    && r.Some? && r.value.status == Okay
    && r.value.state.pc == pc && r.value.state.mem == mem && r.value.state.csr == csr
    && forall k: Index :: X(r.value.state, k) == if k == rd && rd != 0 then v else X(b, k)
  }

  // The same with memory and control registers as they were, but for the counters
  ghost predicate Ends(b: State, r: Option<Result>, pc: Int32, rd: Index, v: Int32, cycles: int) {
    Leaves(b, r, pc, rd, v, b.mem, Ticked(b.csr, cycles))
  }

  // A step from b traps, the counters being those of cycles
  ghost predicate Faults(c: Config, b: State, r: Option<Result>, cause: nat, val: Int32, cycles: int) {
    && r.Some? && r.value.status == Trapped
    && var t := r.value.state;
    && t.csr.mcause == cause && t.csr.mepc == b.pc && t.csr.mtval == val
    && !Has(t.csr.mstatus, 3) && Has(t.csr.mstatus, 7) == Has(b.csr.mstatus, 3)
    && (forall j | 0 <= j && j != 3 && j != 7 :: Has(t.csr.mstatus, j) == Has(b.csr.mstatus, j))
    && (b.csr.mtvec % 2 == 0 ==> t.pc == b.csr.mtvec)
    && (b.csr.mtvec % 2 == 1 ==> Congruent(t.pc, b.csr.mtvec - 1 + 4 * cause))
    && t.csr.cycle == b.csr.cycle + cycles + c.penalty && t.csr.instret == b.csr.instret + 1
    && t.mem == b.mem && forall k: Index :: X(t, k) == X(b, k)
  }

  lemma WrapCongruent(x: int)
    ensures Congruent(Wrap(x), x)
  {
    var q, r := x / WORD, x % WORD;
    assert x == WORD * q + r;
    SameResidue(Wrap(x), x, if r < 0x8000_0000 then -q else -1 - q);
  }

  lemma SameResidue(x: int, y: int, k: int)
    requires x == y + 0x1_0000_0000 * k
    ensures Congruent(x, y)
  {
  }

  lemma FollowingIs(pc: Int32)
    ensures Wrap(pc + 4) == Following(pc)
  {
  }

  lemma NaturalIs(v: Int32)
    ensures Unsigned(v) == Natural(v)
  {
  }

  lemma InterruptKeepsTime(c: Config, s: State, latched: bool, number: nat)
    ensures Interrupt(c, s, latched, number).timeWritten == s.timeWritten
  {
    hide Has, Entered, Wrap, WithBit, Vector;
  }

  lemma TrapKeepsTime(c: Config, s: State, cause: nat, val: Int32)
    ensures TrapTo(c, s, cause, val).timeWritten == s.timeWritten
  {
    hide Entered, Wrap, Vector;
  }

  lemma BegunTime(c: Config, s: State)
    ensures !Begun(true, c, s).timeWritten
  {
    hide Interrupt, TrapTo;
    var t := s.(timeWritten := false);
    var t1 := Interrupt(c, t, t.irq.timer, TIMER);
    var t2 := Interrupt(c, t1, t.irq.swNext, SOFTWARE);
    InterruptKeepsTime(c, t, t.irq.timer, TIMER);
    InterruptKeepsTime(c, t1, t.irq.swNext, SOFTWARE);
    InterruptKeepsTime(c, t2, t.irq.extNext, EXTERNAL);
    InterruptsKeepTime(c, t);
    var u := TakeInterrupts(c, t);
    TrapKeepsTime(c, u, 1, u.pc);
    var v := if OutOfRange(c, u) then TrapTo(c, u, 1, u.pc) else u;
    TrapKeepsTime(c, v, 0, v.pc);
  }

  lemma InterruptsKeepTime(c: Config, s: State)
    ensures TakeInterrupts(c, s).timeWritten == s.timeWritten
  {
    AtMostOneInterrupt(c, s);
    InterruptKeepsTime(c, s, true, TIMER);
    InterruptKeepsTime(c, s, true, SOFTWARE);
    InterruptKeepsTime(c, s, true, EXTERNAL);
    hide TakeInterrupts, Has, IntTo;
  }

  // The instruction of a step starts in this state
  lemma StepRuns(c: Config, env: Env, s: State, w: U32)
    requires Runs(c, s, w)
    ensures var b, t := Begun(true, c, s), Counted(Begun(true, c, s), w);
      && Step(true, c, env, s) == Some(Execute(true, c, env, t, w))
      && t.pc == b.pc && t.prevPc == b.pc && t.regs == b.regs && t.mem == b.mem && t.csr == Ticked(b.csr, 1)
      && !t.timeWritten
  {
    hide Begun, HasWord, Word, Execute, Latched;
    BegunTime(c, s);
    StepIs(true, c, env, s);
  }

  lemma EndsNext(b: State, t: State, rd: Index, v: Int32)
    requires t.pc == b.pc && t.regs == b.regs && t.mem == b.mem && t.csr == Ticked(b.csr, 1)
    ensures Ends(b, Some(Result(Next(SetReg(true, t, rd, v)), Okay)), Following(b.pc), rd, v, 1)
  {
    FollowingIs(b.pc);
    hide Wrap, Following, Ticked;
  }

  // Branches

  lemma ExecutesBranch(c: Config, env: Env, t: State, w: U32) returns (taken: bool)
    requires Opcode(w) == BRANCH && Func3(w) in {0, 1, 4, 5, 6, 7}
    ensures var f, x, y := Func3(w), X(t, Rs1(w)), X(t, Rs2(w));
      taken <==> || (f == 0 && x == y) || (f == 1 && x != y) || (f == 4 && x < y) || (f == 5 && x >= y)
                 || (f == 6 && Natural(x) < Natural(y)) || (f == 7 && Natural(x) >= Natural(y))
    ensures Execute(true, c, env, t, w) == if taken then Branched(c, t, ImmB(w)) else Result(Next(t), Okay)
  {
    hide Opcode, Func3, Rs1, Rs2, ImmB, Branched, Next, Natural, Unsigned;
    var x, y := X(t, Rs1(w)), X(t, Rs2(w));
    NaturalIs(x);
    NaturalIs(y);
    taken := Taken(Func3(w), x, y).value;
  }

  lemma BranchedEnds(c: Config, b: State, t: State, imm: Int32) returns (pc: Int32)
    requires t.pc == b.pc && t.regs == b.regs && t.mem == b.mem && t.csr == Ticked(b.csr, 1) && !t.timeWritten
    ensures Congruent(pc, b.pc + imm)
    ensures Ends(b, Some(Branched(c, t, imm)), pc, 0, 0,
                 if (!c.predict || imm > 0) && pc % 4 == 0 then 1 + c.penalty else 1)
  {
    hide Wrap;
    pc := Wrap(b.pc + imm);
    WrapCongruent(b.pc + imm);
  }

  // Where the six branches go and what they cost
  lemma BranchSteps(c: Config, env: Env, s: State, func3: nat, rs1: Index, rs2: Index, imm: int)
      returns (taken: bool, pc: Int32)
    requires func3 in {0, 1, 4, 5, 6, 7} && -0x1000 <= imm < 0x1000 && imm % 2 == 0
    requires Runs(c, s, EncodeB(0x63, func3, rs1, rs2, imm))
    ensures var b, r := Begun(true, c, s), Step(true, c, env, s);
      && Ends(b, r, pc, 0, 0, if taken && (!c.predict || imm > 0) && pc % 4 == 0 then 1 + c.penalty else 1)
      && Congruent(pc, b.pc + if taken then imm else 4)
    ensures var x, y := X(Begun(true, c, s), rs1), X(Begun(true, c, s), rs2);
      && (func3 == 0 ==> (taken <==> x == y)) && (func3 == 1 ==> (taken <==> x != y))
      && (func3 == 4 ==> (taken <==> x < y)) && (func3 == 5 ==> (taken <==> x >= y))
      && (func3 == 6 ==> (taken <==> Natural(x) < Natural(y)))
      && (func3 == 7 ==> (taken <==> Natural(x) >= Natural(y)))
  {
    hide Begun, Step, Runs, Execute, Branched, Next, Counted, EncodeB, Opcode, Func3, Rs1, Rs2, ImmB, Ends, Following,
      Congruent, Natural, Ticked;
    var w := EncodeB(0x63, func3, rs1, rs2, imm);
    DecodeB(0x63, func3, rs1, rs2, imm);
    StepRuns(c, env, s, w);
    var b := Begun(true, c, s);
    var t := Counted(b, w);
    taken := ExecutesBranch(c, env, t, w);
    if taken {
      pc := BranchedEnds(c, b, t, imm);
    } else {
      pc := Following(b.pc);
      FollowingCongruent(b.pc);
      EndsNextPlain(b, t);
    }
  }

  lemma FollowingCongruent(pc: Int32)
    ensures Congruent(Following(pc), pc + 4)
  {
  }

  lemma EndsNextPlain(b: State, t: State)
    requires t.pc == b.pc && t.regs == b.regs && t.mem == b.mem && t.csr == Ticked(b.csr, 1)
    ensures Ends(b, Some(Result(Next(t), Okay)), Following(b.pc), 0, 0, 1)
  {
    EndsNext(b, t, 0, 0);
    hide Ends, Ticked;
  }

  // Jumps

  lemma JumpedEnds(c: Config, b: State, t: State, rd: Index, target: Int32)
    requires t.pc == b.pc && t.regs == b.regs && t.mem == b.mem && t.csr == Ticked(b.csr, 1) && !t.timeWritten
    requires Evened(target) % 4 == 0
    ensures Ends(b, Some(Jumped(true, c, t, rd, target)), Evened(target), rd, Following(b.pc), 1 + c.penalty)
  {
    FollowingIs(b.pc);
    EvenedIs(target);
    hide Wrap, Following, Evened;
  }

  lemma EvenedIs(x: Int32)
    ensures x - x % 2 == Evened(x)
  {
  }

  // JAL to an aligned address, other than itself
  lemma JumpSteps(c: Config, env: Env, s: State, rd: Index, imm: int) returns (pc: Int32)
    requires -0x10_0000 <= imm < 0x10_0000 && imm % 2 == 0 && Runs(c, s, EncodeJ(0x6f, rd, imm))
    ensures var b, r := Begun(true, c, s), Step(true, c, env, s);
      && (imm == 0 ==> r.Some? && r.value.status == Exited)
      && Congruent(pc, b.pc + imm)
      && (imm != 0 && pc % 4 == 0 ==> Ends(b, r, pc, rd, Following(b.pc), 1 + c.penalty))
  {
    hide Begun, Step, Runs, Jumped, Counted, EncodeJ, Opcode, Rd, ImmJ, Ends, Following, Congruent, Wrap, Ticked;
    var w := EncodeJ(0x6f, rd, imm);
    DecodeJ(0x6f, rd, imm);
    StepRuns(c, env, s, w);
    var b := Begun(true, c, s);
    var t := Counted(b, w);
    pc := Wrap(b.pc + imm);
    WrapCongruent(b.pc + imm);
    assert Execute(true, c, env, t, w) == Jump(true, c, t, w);
    if imm != 0 && pc % 4 == 0 {
      EvenIs(pc);
      JumpedEnds(c, b, t, rd, pc);
    }
  }

  lemma EvenIs(pc: int)
    requires pc % 4 == 0
    ensures pc % 2 == 0
  {
    Quarters(pc / 4, 0);
    assert pc == 4 * (pc / 4);
  }

  // JALR: the lowest bit of the sum is dropped
  lemma JumpRegisterSteps(c: Config, env: Env, s: State, rd: Index, func3: nat, rs1: Index, imm: int)
      returns (sum: Int32)
    requires func3 < 8 && -0x800 <= imm < 0x800 && Runs(c, s, EncodeI(0x67, rd, func3, rs1, imm))
    ensures var b, r := Begun(true, c, s), Step(true, c, env, s);
      && Congruent(sum, X(b, rs1) + imm)
      && (sum == b.pc ==> r.Some? && r.value.status == Exited)
      && (sum != b.pc && Evened(sum) % 4 == 0 ==> Ends(b, r, Evened(sum), rd, Following(b.pc), 1 + c.penalty))
  {
    hide Begun, Step, Runs, Jumped, Counted, EncodeI, Opcode, Rd, Rs1, ImmI, Ends, Following, Congruent, Wrap, Ticked;
    var w := EncodeI(0x67, rd, func3, rs1, imm);
    DecodeI(0x67, rd, func3, rs1, imm);
    StepRuns(c, env, s, w);
    var b := Begun(true, c, s);
    var t := Counted(b, w);
    sum := Wrap(X(b, rs1) + imm);
    WrapCongruent(X(b, rs1) + imm);
    assert Execute(true, c, env, t, w) == Jump(true, c, t, w);
    if sum != b.pc && Evened(sum) % 4 == 0 {
      JumpedEnds(c, b, t, rd, sum);
    }
  }

  // Upper immediates: LUI and AUIPC
  lemma UpperSteps(c: Config, env: Env, s: State, op: nat, rd: Index, imm: nat) returns (v: Int32)
    requires op in {0x37, 0x17} && imm < 0x10_0000 && Runs(c, s, EncodeU(op, rd, imm))
    ensures var b, r := Begun(true, c, s), Step(true, c, env, s);
      && Ends(b, r, Following(b.pc), rd, v, 1)
      && Congruent(v, if op == 0x37 then 0x1000 * imm else b.pc + 0x1000 * imm)
  {
    hide Begun, Step, Runs, Counted, EncodeU, Opcode, Rd, ImmU, Ends, Following, Congruent, Wrap, Ticked, Next, SetReg;
    var w := EncodeU(op, rd, imm);
    DecodeU(op, rd, imm);
    StepRuns(c, env, s, w);
    var b := Begun(true, c, s);
    var t := Counted(b, w);
    v := if op == 0x37 then ImmU(w) else Wrap(t.pc + ImmU(w));
    WrapCongruent(imm * 0x1000);
    WrapCongruent(b.pc + ImmU(w));
    CongruentSum(ImmU(w), imm * 0x1000, b.pc, v);
    EndsNext(b, t, rd, v);
    assert Execute(true, c, env, t, w) == Result(Next(SetReg(true, t, rd, v)), Okay);
  }

  lemma CongruentSum(x: int, y: int, z: int, v: int)
    requires Congruent(x, y)
    ensures Congruent(v, z + x) ==> Congruent(v, z + y)
  {
    if Congruent(v, z + x) {
      var i, j := (x - y) / WORD, (v - (z + x)) / WORD;
      SameResidue(v, z + y, i + j);
    }
  }

  // Arithmetic on registers

  lemma ExecutesRegister(c: Config, env: Env, b: State, t: State, w: U32, v: Int32)
    requires Opcode(w) == ARITHR && t.pc == b.pc && t.regs == b.regs && t.mem == b.mem && t.csr == Ticked(b.csr, 1)
    requires RegisterValue(w, X(b, Rs1(w)), X(b, Rs2(w))) == Some(v)
    ensures Ends(b, Some(Execute(true, c, env, t, w)), Following(b.pc), Rd(w), v, 1)
  {
    hide Opcode, Rs1, Rs2, Rd, RegisterValue, Ends, Following, Ticked, Next, SetReg;
    EndsNext(b, t, Rd(w), v);
    assert Execute(true, c, env, t, w) == Result(Next(SetReg(true, t, Rd(w), v)), Okay);
  }

  lemma RegisterStep(c: Config, env: Env, s: State, rd: Index, func3: nat, rs1: Index, rs2: Index, func7: nat, v: Int32)
    requires func3 < 8 && func7 < 0x80 && Runs(c, s, EncodeR(0x33, rd, func3, rs1, rs2, func7))
    requires var b := Begun(true, c, s);
      RegisterValue(EncodeR(0x33, rd, func3, rs1, rs2, func7), X(b, rs1), X(b, rs2)) == Some(v)
    ensures var b := Begun(true, c, s); Ends(b, Step(true, c, env, s), Following(b.pc), rd, v, 1)
  {
    hide Begun, Step, Runs, Execute, Counted, EncodeR, Opcode, Rd, Rs1, Rs2, Func3, Func7, Ends, Following, Ticked,
      RegisterValue;
    var w := EncodeR(0x33, rd, func3, rs1, rs2, func7);
    DecodeR(0x33, rd, func3, rs1, rs2, func7);
    StepRuns(c, env, s, w);
    ExecutesRegister(c, env, Begun(true, c, s), Counted(Begun(true, c, s), w), w, v);
  }

  lemma RegisterValueIs(w: U32, func3: nat, func7: nat, x: Int32, y: Int32)
    requires func3 < 8 && Func3(w) == func3 && Func7(w) == func7
    ensures func7 == 1 ==> RegisterValue(w, x, y) == Some(Multiplicative(func3, x, y))
    ensures func7 == 0 ==> RegisterValue(w, x, y) == Some(Basic(func3, false, x, y))
    ensures func7 == 0x20 && func3 == 0 ==> RegisterValue(w, x, y) == Some(Wrap(x - y))
    ensures func7 == 0x20 && func3 == 5 ==> RegisterValue(w, x, y) == Some(Basic(5, true, x, y))
  {
    hide Func3, Func7, Multiplicative, Basic, Wrap;
  }

  // What the operation func3 makes of x and y, the right shift being arithmetic or not
  lemma BasicMeans(func3: nat, arithmetic: bool, x: Int32, y: Int32)
    requires func3 < 8
    ensures var v, n := Basic(func3, arithmetic, x, y), Natural(y) % 32;
      && (func3 == 0 ==> Congruent(v, x + y))
      && (func3 == 1 ==> forall k: nat | k < 32 :: Has(v, k) == (k >= n && Has(x, k - n)))
      && (func3 == 2 ==> v == if x < y then 1 else 0)
      && (func3 == 3 ==> v == if Natural(x) < Natural(y) then 1 else 0)
      && (func3 == 4 ==> forall k: nat | k < 32 :: Has(v, k) == (Has(x, k) != Has(y, k)))
      && (func3 == 5 ==> forall k: nat | k < 32 ::
            Has(v, k) == if n + k < 32 then Has(x, n + k) else arithmetic && x < 0)
      && (func3 == 6 ==> forall k: nat | k < 32 :: Has(v, k) == (Has(x, k) || Has(y, k)))
      && (func3 == 7 ==> forall k: nat | k < 32 :: Has(v, k) == (Has(x, k) && Has(y, k)))
  {
    hide Natural, Unsigned, Wrap, Has, Congruent, Basic;
    NaturalIs(x);
    NaturalIs(y);
    BasicNumbers(func3, arithmetic, x, y);
    WrapCongruent(x + y);
    if func3 in {1, 4, 5, 6, 7} {
      BasicBits(func3, arithmetic, x, y, Natural(y) % 32);
    }
  }

  lemma BasicNumbers(func3: nat, arithmetic: bool, x: Int32, y: Int32)
    requires func3 < 8
    ensures func3 == 0 ==> Basic(func3, arithmetic, x, y) == Wrap(x + y)
    ensures func3 == 2 ==> Basic(func3, arithmetic, x, y) == if x < y then 1 else 0
    ensures func3 == 3 ==> Basic(func3, arithmetic, x, y) == if Unsigned(x) < Unsigned(y) then 1 else 0
  {
    hide Unsigned, Wrap;
  }

  // Bit k of the result of an operation that works on bits
  ghost predicate BitOf(func3: nat, arithmetic: bool, x: Int32, y: Int32, n: nat, k: nat) {
    if func3 == 1 then k >= n && Has(x, k - n)
    else if func3 == 4 then Has(x, k) != Has(y, k)
    else if func3 == 5 then if n + k < 32 then Has(x, n + k) else arithmetic && x < 0
    else if func3 == 6 then Has(x, k) || Has(y, k)
    else Has(x, k) && Has(y, k)
  }

  lemma BasicBit(func3: nat, arithmetic: bool, x: Int32, y: Int32, n: nat, k: nat)
    requires func3 in {1, 4, 5, 6, 7} && n == Unsigned(y) % 32 && k < 32
    ensures Has(Basic(func3, arithmetic, x, y), k) == BitOf(func3, arithmetic, x, y, n, k)
  {
    hide Has, Unsigned, Shl, Shr, Sar, Basic;
    BasicCases(func3, arithmetic, x, y, n);
    if func3 == 1 {
      ShlBits(x, n, k);
    } else if func3 == 5 {
      ShrBits(x, n, k);
      SarBits(x, n, k);
    } else {
      LogicalBits(x, y, k);
    }
  }

  lemma BasicBits(func3: nat, arithmetic: bool, x: Int32, y: Int32, n: nat)
    requires func3 in {1, 4, 5, 6, 7} && n == Unsigned(y) % 32
    ensures forall k: nat | k < 32 :: Has(Basic(func3, arithmetic, x, y), k) == BitOf(func3, arithmetic, x, y, n, k)
  {
    hide Has, Unsigned, Basic, BitOf;
    forall k: nat | k < 32
      ensures Has(Basic(func3, arithmetic, x, y), k) == BitOf(func3, arithmetic, x, y, n, k)
    {
      BasicBit(func3, arithmetic, x, y, n, k);
    }
  }

  lemma BasicCases(func3: nat, arithmetic: bool, x: Int32, y: Int32, n: nat)
    requires func3 in {1, 4, 5, 6, 7} && n == Unsigned(y) % 32
    ensures func3 == 1 ==> Basic(func3, arithmetic, x, y) == Shl(x, n)
    ensures func3 == 5 ==> Basic(func3, arithmetic, x, y) == if arithmetic then Sar(x, n) else Shr(x, n)
    ensures func3 in {4, 6, 7} ==> Basic(func3, arithmetic, x, y) == Basic(func3, false, x, y)
  {
    hide Unsigned, Shl, Shr, Sar, Wrap;
  }

  // ADD, SUB, SLL, SLT, SLTU, XOR, SRL, SRA, OR, AND
  lemma RegisterSteps(c: Config, env: Env, s: State, rd: Index, func3: nat, rs1: Index, rs2: Index, func7: nat)
      returns (v: Int32)
    requires func3 < 8 && (func7 == 0 || (func7 == 0x20 && (func3 == 0 || func3 == 5)))
    requires Runs(c, s, EncodeR(0x33, rd, func3, rs1, rs2, func7))
    ensures var b := Begun(true, c, s); Ends(b, Step(true, c, env, s), Following(b.pc), rd, v, 1)
    ensures var x, y := X(Begun(true, c, s), rs1), X(Begun(true, c, s), rs2);
      var n := Natural(y) % 32;
      && (func3 == 0 && func7 == 0 ==> Congruent(v, x + y)) && (func3 == 0 && func7 != 0 ==> Congruent(v, x - y))
      && (func3 == 1 ==> forall k: nat | k < 32 :: Has(v, k) == (k >= n && Has(x, k - n)))
      && (func3 == 2 ==> v == if x < y then 1 else 0)
      && (func3 == 3 ==> v == if Natural(x) < Natural(y) then 1 else 0)
      && (func3 == 4 ==> forall k: nat | k < 32 :: Has(v, k) == (Has(x, k) != Has(y, k)))
      && (func3 == 5 ==> forall k: nat | k < 32 ::
            Has(v, k) == if n + k < 32 then Has(x, n + k) else func7 == 0x20 && x < 0)
      && (func3 == 6 ==> forall k: nat | k < 32 :: Has(v, k) == (Has(x, k) || Has(y, k)))
      && (func3 == 7 ==> forall k: nat | k < 32 :: Has(v, k) == (Has(x, k) && Has(y, k)))
  {
    hide Begun, Step, Runs, EncodeR, Ends, Following, RegisterValue, Basic, Has, Natural, Congruent, Wrap, Func3, Func7;
    var b := Begun(true, c, s);
    var x, y := X(b, rs1), X(b, rs2);
    DecodeR(0x33, rd, func3, rs1, rs2, func7);
    RegisterValueIs(EncodeR(0x33, rd, func3, rs1, rs2, func7), func3, func7, x, y);
    if func7 == 0x20 && func3 == 0 {
      var d: int := x as int - y as int;
      v := Wrap(d);
      WrapCongruent(d);
    } else {
      v := Basic(func3, func7 == 0x20, x, y);
      BasicMeans(func3, func7 == 0x20, x, y);
    }
    RegisterStep(c, env, s, rd, func3, rs1, rs2, func7, v);
  }

  // Arithmetic with an immediate

  lemma ExecutesImmediate(c: Config, env: Env, b: State, t: State, w: U32, v: Int32)
    requires Opcode(w) == ARITHI && t.pc == b.pc && t.regs == b.regs && t.mem == b.mem && t.csr == Ticked(b.csr, 1)
    requires ImmediateValue(w, X(b, Rs1(w))) == Some(v)
    ensures Ends(b, Some(Execute(true, c, env, t, w)), Following(b.pc), Rd(w), v, 1)
  {
    hide Opcode, Rs1, Rs2, Rd, ImmediateValue, Ends, Following, Ticked, Next, SetReg;
    EndsNext(b, t, Rd(w), v);
    assert Execute(true, c, env, t, w) == Result(Next(SetReg(true, t, Rd(w), v)), Okay);
  }

  lemma ImmediateStep(c: Config, env: Env, s: State, w: U32, v: Int32)
    requires Runs(c, s, w) && Opcode(w) == ARITHI
    requires ImmediateValue(w, X(Begun(true, c, s), Rs1(w))) == Some(v)
    ensures var b := Begun(true, c, s); Ends(b, Step(true, c, env, s), Following(b.pc), Rd(w), v, 1)
  {
    hide Begun, Step, Runs, Execute, Counted, Opcode, Rd, Rs1, Ends, Following, Ticked, ImmediateValue;
    StepRuns(c, env, s, w);
    ExecutesImmediate(c, env, Begun(true, c, s), Counted(Begun(true, c, s), w), w, v);
  }

  lemma ImmediateValueIs(w: U32, x: Int32)
    requires (Func3(w) == 1 ==> Func7(w) == 0) && (Func3(w) == 5 ==> Func7(w) == 0 || Func7(w) == 0x20)
    ensures ImmediateValue(w, x) == Some(Basic(Func3(w), Func7(w) == 0x20, x, ImmI(w)))
  {
    hide Func3, Func7, ImmI, Basic;
  }

  // ADDI, SLTI, SLTIU, XORI, ORI, ANDI: the immediate is extended with its sign
  lemma ImmediateSteps(c: Config, env: Env, s: State, rd: Index, func3: nat, rs1: Index, imm: Int32)
      returns (v: Int32)
    requires func3 in {0, 2, 3, 4, 6, 7} && -0x800 <= imm < 0x800 && Runs(c, s, EncodeI(0x13, rd, func3, rs1, imm))
    ensures var b := Begun(true, c, s); Ends(b, Step(true, c, env, s), Following(b.pc), rd, v, 1)
    ensures var x := X(Begun(true, c, s), rs1);
      && (func3 == 0 ==> Congruent(v, x + imm))
      && (func3 == 2 ==> v == if x < imm then 1 else 0)
      && (func3 == 3 ==> v == if Natural(x) < Natural(imm) then 1 else 0)
      && (func3 == 4 ==> forall k: nat | k < 32 :: Has(v, k) == (Has(x, k) != Has(imm, k)))
      && (func3 == 6 ==> forall k: nat | k < 32 :: Has(v, k) == (Has(x, k) || Has(imm, k)))
      && (func3 == 7 ==> forall k: nat | k < 32 :: Has(v, k) == (Has(x, k) && Has(imm, k)))
  {
    hide Begun, Step, Runs, EncodeI, Ends, Following, ImmediateValue, Basic, Has, Natural, Congruent, Func3, Func7,
        ImmI,
      Opcode, Rd, Rs1;
    var w := EncodeI(0x13, rd, func3, rs1, imm);
    var x := X(Begun(true, c, s), rs1);
    DecodeI(0x13, rd, func3, rs1, imm);
    ImmediateValueIs(w, x);
    v := Basic(func3, Func7(w) == 0x20, x, imm);
    BasicMeans(func3, Func7(w) == 0x20, x, imm);
    ImmediateStep(c, env, s, w, v);
  }

  lemma ShiftAmount(rd: Index, func3: nat, rs1: Index, n: Index, func7: nat)
    requires func3 < 8 && func7 < 0x40
    ensures var i := ImmI(EncodeR(0x13, rd, func3, rs1, n, func7)); i >= 0 && i % 32 == n
  {
    var w := EncodeR(0x13, rd, func3, rs1, n, func7);
    Cut(w, 0x10_0000, n + 32 * func7, 0x13 + 0x80 * rd + 0x1000 * func3 + 0x8000 * rs1);
    Cut(n + 32 * func7, 32, func7, n);
  }

  // SLLI, SRLI and SRAI
  lemma ShiftSteps(c: Config, env: Env, s: State, rd: Index, func3: nat, rs1: Index, n: Index, func7: nat)
      returns (v: Int32)
    requires (func3 == 1 && func7 == 0) || (func3 == 5 && (func7 == 0 || func7 == 0x20))
    requires Runs(c, s, EncodeR(0x13, rd, func3, rs1, n, func7))
    ensures var b := Begun(true, c, s); Ends(b, Step(true, c, env, s), Following(b.pc), rd, v, 1)
    ensures var x := X(Begun(true, c, s), rs1);
      && (func3 == 1 ==> forall k: nat | k < 32 :: Has(v, k) == (k >= n && Has(x, k - n)))
      && (func3 == 5 ==> forall k: nat | k < 32 ::
            Has(v, k) == if n + k < 32 then Has(x, n + k) else func7 == 0x20 && x < 0)
  {
    hide Begun, Step, Runs, EncodeR, Ends, Following, ImmediateValue, Basic, Has, Func3, Func7, ImmI, Opcode, Rd, Rs1,
      Congruent;
    var w := EncodeR(0x13, rd, func3, rs1, n, func7);
    var x := X(Begun(true, c, s), rs1);
    DecodeR(0x13, rd, func3, rs1, n, func7);
    ShiftAmount(rd, func3, rs1, n, func7);
    ImmediateValueIs(w, x);
    v := Basic(func3, func7 == 0x20, x, ImmI(w));
    BasicMeans(func3, func7 == 0x20, x, ImmI(w));
    ImmediateStep(c, env, s, w, v);
  }

  // Multiplication and division

  lemma MultiplyMeans(func3: nat, x: Int32, y: Int32)
    requires func3 < 4
    ensures var v := Multiplicative(func3, x, y);
      && (func3 == 0 ==> Congruent(v, x * y))
      && (func3 == 1 ==> v * 0x1_0000_0000 <= x * y < v * 0x1_0000_0000 + 0x1_0000_0000)
      && (func3 == 2 ==> v * 0x1_0000_0000 <= x * Natural(y) < v * 0x1_0000_0000 + 0x1_0000_0000)
      && (func3 == 3 ==> Natural(v) * 0x1_0000_0000 <= Natural(x) * Natural(y))
      && (func3 == 3 ==> Natural(x) * Natural(y) < Natural(v) * 0x1_0000_0000 + 0x1_0000_0000)
  {
    WrapCongruent(x * y);
    NaturalIs(x);
    NaturalIs(y);
    NaturalIs(Mulhu(x, y));
    MulhExact(x, y);
    MulhsuExact(x, y);
    MulhuExact(x, y);
    var low := Unsigned(Mul(x, y));
    assert 0 <= low < 0x1_0000_0000;
    hide Mulh, Mulhsu, Mulhu, Unsigned, Natural, Congruent, Wrap;
  }

  // w is the remainder that belongs to a quotient v, and the quotient that belongs to a remainder v
  lemma DivideMeans(func3: nat, x: Int32, y: Int32) returns (w: int)
    requires 4 <= func3 < 8
    ensures var v := Multiplicative(func3, x, y);
      && (func3 == 4 && y == 0 ==> v == -1) && (func3 == 6 && y == 0 ==> v == x)
      && (func3 == 5 && y == 0 ==> v == -1) && (func3 == 7 && y == 0 ==> v == x)
      && (func3 == 4 && x == -0x8000_0000 && y == -1 ==> v == x)
      && (func3 == 6 && x == -0x8000_0000 && y == -1 ==> v == 0)
      && (func3 == 4 && y != 0 && !(x == -0x8000_0000 && y == -1) ==>
            x == y * v + w && AbsOf(w) < AbsOf(y) && (w == 0 || (w < 0) == (x < 0)))
      && (func3 == 6 && y != 0 && !(x == -0x8000_0000 && y == -1) ==>
            x == y * w + v && AbsOf(v) < AbsOf(y) && (v == 0 || (v < 0) == (x < 0)))
      && (func3 == 5 && y != 0 ==>
            Natural(x) == Natural(y) * Natural(v) + w && 0 <= w < Natural(y))
      && (func3 == 7 && y != 0 ==>
            Natural(x) == Natural(y) * w + Natural(v) && Natural(v) < Natural(y))
  {
    hide Div, Rem, Divu, Remu, Unsigned, Natural;
    if func3 == 4 {
      w := Rem(x, y);
      DivRem(x, y);
    } else if func3 == 6 {
      w := Div(x, y);
      DivRem(x, y);
    } else {
      NaturalIs(x);
      NaturalIs(y);
      NaturalIs(Divu(x, y));
      NaturalIs(Remu(x, y));
      DivuRemu(x, y);
      AllOnes(Divu(x, y));
      w := if func3 == 5 then Natural(Remu(x, y)) else Natural(Divu(x, y));
      NonZero(y);
    }
  }

  lemma AllOnes(v: Int32)
    ensures Natural(v) == 0xffff_ffff ==> v == -1
  {
  }

  lemma NonZero(y: Int32)
    ensures y != 0 ==> Natural(y) > 0
  {
  }

  // MUL, MULH, MULHSU, MULHU
  lemma MultiplySteps(c: Config, env: Env, s: State, rd: Index, func3: nat, rs1: Index, rs2: Index) returns (v: Int32)
    requires func3 < 4 && Runs(c, s, EncodeR(0x33, rd, func3, rs1, rs2, 1))
    ensures var b := Begun(true, c, s); Ends(b, Step(true, c, env, s), Following(b.pc), rd, v, 1)
    ensures var x, y := X(Begun(true, c, s), rs1), X(Begun(true, c, s), rs2);
      && (func3 == 0 ==> Congruent(v, x * y))
      && (func3 == 1 ==> v * 0x1_0000_0000 <= x * y < v * 0x1_0000_0000 + 0x1_0000_0000)
      && (func3 == 2 ==> v * 0x1_0000_0000 <= x * Natural(y) < v * 0x1_0000_0000 + 0x1_0000_0000)
      && (func3 == 3 ==> Natural(v) * 0x1_0000_0000 <= Natural(x) * Natural(y))
      && (func3 == 3 ==> Natural(x) * Natural(y) < Natural(v) * 0x1_0000_0000 + 0x1_0000_0000)
  {
    hide Begun, Step, Runs, EncodeR, Ends, Following, RegisterValue, Multiplicative, Natural, Congruent, Func3, Func7;
    var x, y := X(Begun(true, c, s), rs1), X(Begun(true, c, s), rs2);
    DecodeR(0x33, rd, func3, rs1, rs2, 1);
    RegisterValueIs(EncodeR(0x33, rd, func3, rs1, rs2, 1), func3, 1, x, y);
    v := Multiplicative(func3, x, y);
    MultiplyMeans(func3, x, y);
    RegisterStep(c, env, s, rd, func3, rs1, rs2, 1, v);
  }

  // DIV, DIVU, REM, REMU
  lemma DivideSteps(c: Config, env: Env, s: State, rd: Index, func3: nat, rs1: Index, rs2: Index)
      returns (v: Int32, w: int)
    requires 4 <= func3 < 8 && Runs(c, s, EncodeR(0x33, rd, func3, rs1, rs2, 1))
    ensures var b := Begun(true, c, s); Ends(b, Step(true, c, env, s), Following(b.pc), rd, v, 1)
    ensures var x, y := X(Begun(true, c, s), rs1), X(Begun(true, c, s), rs2);
      && (func3 == 4 && y == 0 ==> v == -1) && (func3 == 6 && y == 0 ==> v == x)
      && (func3 == 5 && y == 0 ==> v == -1) && (func3 == 7 && y == 0 ==> v == x)
      && (func3 == 4 && x == -0x8000_0000 && y == -1 ==> v == x)
      && (func3 == 6 && x == -0x8000_0000 && y == -1 ==> v == 0)
      && (func3 == 4 && y != 0 && !(x == -0x8000_0000 && y == -1) ==>
            x == y * v + w && AbsOf(w) < AbsOf(y) && (w == 0 || (w < 0) == (x < 0)))
      && (func3 == 6 && y != 0 && !(x == -0x8000_0000 && y == -1) ==>
            x == y * w + v && AbsOf(v) < AbsOf(y) && (v == 0 || (v < 0) == (x < 0)))
      && (func3 == 5 && y != 0 ==>
            Natural(x) == Natural(y) * Natural(v) + w && 0 <= w < Natural(y))
      && (func3 == 7 && y != 0 ==>
            Natural(x) == Natural(y) * w + Natural(v) && Natural(v) < Natural(y))
  {
    hide Begun, Step, Runs, EncodeR, Ends, Following, RegisterValue, Multiplicative, Natural, AbsOf, Func3, Func7;
    var x, y := X(Begun(true, c, s), rs1), X(Begun(true, c, s), rs2);
    DecodeR(0x33, rd, func3, rs1, rs2, 1);
    RegisterValueIs(EncodeR(0x33, rd, func3, rs1, rs2, 1), func3, 1, x, y);
    v := Multiplicative(func3, x, y);
    w := DivideMeans(func3, x, y);
    RegisterStep(c, env, s, rd, func3, rs1, rs2, 1, v);
  }
}
