// The instructions of the machine of tools/rvsim.c that concern the machine itself, as steps on
// encoded words: control registers, calls, breakpoints, returns from handlers, words that are no
// instructions, and the requests for interrupts that every step leaves behind.
module RvSystem {
  import opened MachineInts
  import opened MultiplyDivide
  import opened Options
  import opened RvAccess
  import opened RvMachine
  import opened RvMeaning
  import opened RvRuns
  import opened RvSteps
  import opened RvTraps

  lemma FenceSteps(c: Config, env: Env, s: State, w: U32)
    requires w % 0x80 == 0x0f && Runs(c, s, w)
    ensures var b := Begun(true, c, s); Ends(b, Step(true, c, env, s), Following(b.pc), 0, 0, 1)
  {
    hide Begun, Step, Runs, Counted, Ends, Following, Ticked, Next;
    StepRuns(c, env, s, w);
    var b := Begun(true, c, s);
    EndsNextPlain(b, Counted(b, w));
  }

  // Control and status registers

  predicate Known(n: nat) {
    n in {0xc00, 0xc80, 0xc02, 0xc82, 0xf11, 0xf12, 0xf13, 0xf14} || Writable(n)
  }

  // x is what register n reads as: the counters as they are before the instruction, 32 bits of each
  predicate ReadsAs(csr: Csr, n: nat, x: Int32) {
    && (n == 0xc00 ==> Congruent(x, csr.cycle)) && (n == 0xc80 ==> Congruent(x, csr.cycle / 0x1_0000_0000))
    && (n == 0xc02 ==> Congruent(x, csr.instret)) && (n == 0xc82 ==> Congruent(x, csr.instret / 0x1_0000_0000))
    && (n in {0xf11, 0xf12, 0xf13, 0xf14} ==> x == 0)
    && (n == 0x300 ==> x == csr.mstatus) && (n == 0x301 ==> x == csr.misa) && (n == 0x304 ==> x == csr.mie)
    && (n == 0x305 ==> x == csr.mtvec) && (n == 0x310 ==> x == csr.mstatush) && (n == 0x340 ==> x == csr.mscratch)
    && (n == 0x341 ==> x == csr.mepc) && (n == 0x342 ==> x == csr.mcause) && (n == 0x343 ==> x == csr.mtval)
    && (n == 0x344 ==> x == csr.mip)
  }

  // Register n takes v, and nothing else changes
  predicate Assigned(was: Csr, now: Csr, n: nat, v: Int32) {
    && now.mstatus == (if n == 0x300 then v else was.mstatus) && now.misa == (if n == 0x301 then v else was.misa)
    && now.mie == (if n == 0x304 then v else was.mie) && now.mtvec == (if n == 0x305 then v else was.mtvec)
    && now.mstatush == (if n == 0x310 then v else was.mstatush)
    && now.mscratch == (if n == 0x340 then v else was.mscratch) && now.mepc == (if n == 0x341 then v else was.mepc)
    && now.mcause == (if n == 0x342 then v else was.mcause) && now.mtval == (if n == 0x343 then v else was.mtval)
    && now.mip == (if n == 0x344 then v else was.mip)
    && now.msip == was.msip && now.cycle == was.cycle && now.instret == was.instret && now.time == was.time
    && now.mtime == was.mtime && now.mtimecmp == was.mtimecmp
  }

  // The bits that CSRRW, CSRRS and CSRRC leave
  ghost predicate Combines(f: nat, x: Int32, y: Int32, v: Int32) {
    && (f % 4 == 1 ==> v == y)
    && (f % 4 == 2 ==> forall k: nat | k < 32 :: Has(v, k) == (Has(x, k) || Has(y, k)))
    && (f % 4 == 3 ==> forall k: nat | k < 32 :: Has(v, k) == (Has(x, k) && !Has(y, k)))
  }

  lemma ReadIs(csr: Csr, n: nat)
    ensures CsrRead(Ticked(csr, 1), n).Some? <==> Known(n)
    ensures Known(n) ==> ReadsAs(csr, n, CsrRead(Ticked(csr, 1), n).value)
  {
    WrapCongruent(csr.cycle);
    WrapCongruent(csr.cycle / WORD);
    WrapCongruent(csr.instret);
    WrapCongruent(csr.instret / WORD);
    hide Wrap, Congruent;
  }

  lemma WriteIs(csr: Csr, n: nat, v: Int32)
    ensures Assigned(csr, CsrWrite(csr, n, v), n, v)
  {
  }

  lemma UpdatedIs(f: nat, x: Int32, y: Int32)
    requires f % 4 != 0
    ensures Combines(f, x, y, Updated(f % 4, x, y))
  {
    hide Has, Updated;
    forall k: nat | k < 32
      ensures Has(Updated(2, x, y), k) == (Has(x, k) || Has(y, k))
      ensures Has(Updated(3, x, y), k) == (Has(x, k) && !Has(y, k))
    {
      UpdatedBits(x, y, k);
    }
    assert Updated(1, x, y) == y by {
      UpdatedFirst(x, y);
    }
  }

  lemma UpdatedFirst(x: Int32, y: Int32)
    ensures Updated(1, x, y) == y
  {
  }

  lemma ExecutesCsr(c: Config, env: Env, t: State, w: U32, n: nat, y: Int32)
    requires Opcode(w) == SYSTEM && Func3(w) % 4 != 0 && n == w / 0x10_0000
    requires y == if Func3(w) >= 4 then Rs1(w) else X(t, Rs1(w))
    ensures var r, x := Execute(true, c, env, t, w), CsrRead(t.csr, n);
      && (x.None? ==> r == Result(TrapTo(c, t, 2, 0), Trapped))
      && (x.Some? ==>
        var u := t.(csr := CsrWrite(t.csr, n, Updated(Func3(w) % 4, x.value, y)));
        var writes := Func3(w) % 4 == 1 || Rs1(w) != 0;
        r == Result(Next(SetReg(true, if writes then u else t, Rd(w), x.value)), Okay))
  {
    hide Opcode, Func3, Rs1, Rd, CsrRead, CsrWrite, Updated, SetReg, Next, TrapTo;
  }

  lemma SameField(n: nat, m: int)
    requires n < 0x1000 && (m == n || m == n - 0x1000)
    ensures Field(m, 0x1000) == n && Field(n, 0x1000) == n
  {
  }

  lemma EncodeNumber(rd: Index, f: nat, rs1: Index, n: nat)
    requires f < 8 && n < 0x1000
    ensures var w := EncodeI(0x73, rd, f, rs1, n);
      Opcode(w) == 0x73 && Rd(w) == rd && Func3(w) == f && Rs1(w) == rs1 && w / 0x10_0000 == n
  {
    hide Opcode, Rd, Func3, Rs1, Field;
    var m: int := if n >= 0x800 then n - 0x1000 else n;
    SameField(n, m);
    DecodeI(0x73, rd, f, rs1, m);
    Cut(EncodeI(0x73, rd, f, rs1, n), 0x10_0000, n, 0x73 + 0x80 * rd + 0x1000 * f + 0x8000 * rs1);
  }

  lemma LeavesNext(b: State, t: State, rd: Index, x: Int32)
    requires t.pc == b.pc && t.regs == b.regs && t.mem == b.mem
    ensures Leaves(b, Some(Result(Next(SetReg(true, t, rd, x)), Okay)), Following(b.pc), rd, x, b.mem, t.csr)
  {
    FollowingIs(b.pc);
    hide Wrap, Following;
  }

  // CSRRW, CSRRS, CSRRC and their immediate forms: the old value goes to rd, and the new one comes
  // from rs1. Setting or clearing by x0 or by 0 is no write.
  lemma CsrSteps(c: Config, env: Env, s: State, rd: Index, f: nat, rs1: Index, n: nat)
      returns (x: Int32, v: Int32, csr: Csr)
    requires f < 8 && f % 4 != 0 && n < 0x1000 && Runs(c, s, EncodeI(0x73, rd, f, rs1, n))
    ensures var b, r := Begun(true, c, s), Step(true, c, env, s);
      && (!Known(n) ==> Faults(c, b, r, 2, 0, 1))
      && (Known(n) ==>
        && Leaves(b, r, Following(b.pc), rd, x, b.mem, csr)
        && ReadsAs(b.csr, n, x)
        && (f % 4 != 1 && rs1 == 0 ==> csr == Ticked(b.csr, 1))
        && (f % 4 == 1 || rs1 != 0 ==>
          && Combines(f, x, if f >= 4 then rs1 else X(b, rs1), v)
          && Assigned(Ticked(b.csr, 1), csr, n, v)))
  {
    hide Begun, Step, Runs, Execute, Counted, EncodeI, Opcode, Func3, Rd, Rs1, Leaves, Faults, Following, Ticked, Next,
      SetReg, TrapTo, CsrRead, CsrWrite, Updated, Known, ReadsAs, Combines, Assigned;
    var w := EncodeI(0x73, rd, f, rs1, n);
    EncodeNumber(rd, f, rs1, n);
    StepRuns(c, env, s, w);
    var b := Begun(true, c, s);
    var t := Counted(b, w);
    var y := if f >= 4 then rs1 else X(b, rs1);
    ReadIs(b.csr, n);
    ExecutesCsr(c, env, t, w, n, y);
    x, v, csr := 0, 0, t.csr;
    if !Known(n) {
      TrapFaults(c, b, t, 2, 0, 1);
    } else {
      x := CsrRead(t.csr, n).value;
      v := Updated(f % 4, x, y);
      UpdatedIs(f, x, y);
      if f % 4 == 1 || rs1 != 0 {
        csr := CsrWrite(t.csr, n, v);
        WriteIs(t.csr, n, v);
      }
      LeavesNext(b, t.(csr := csr), rd, x);
    }
  }

  // ECALL, EBREAK and MRET

  lemma ExecutesSystem(c: Config, env: Env, t: State, w: U32, n: nat)
    requires Opcode(w) == SYSTEM && Func3(w) == 0 && n == w / 0x10_0000
    ensures var r := Execute(true, c, env, t, w);
      && (n % 4 == 0 ==>
        var a := env.call(Arguments(t), t.mem);
        r == if a.exits then Result(t, Exited) else Result(TrapTo(c, Called(t, a), 11, 0), Trapped))
      && (n % 4 == 1 ==> r == Result(TrapTo(c, t, 3, t.pc), Trapped))
      && (n % 4 == 2 ==> r == Result(MretTo(c, t), Okay))
      && (n % 4 == 3 ==> r == Result(TrapTo(c, t, 2, 0), Trapped))
  {
    hide Opcode, Func3, TrapTo, MretTo, Called, Arguments;
  }

  lemma MretEnds(c: Config, b: State, t: State)
    requires t.pc == b.pc && t.regs == b.regs && t.mem == b.mem && t.csr == Ticked(b.csr, 1) && !t.timeWritten
    ensures var m := MretTo(c, t).csr.mstatus;
      && Leaves(b, Some(Result(MretTo(c, t), Okay)), b.csr.mepc, 0, 0, b.mem,
                Ticked(b.csr, if b.csr.mepc % 4 == 0 then 1 + c.penalty else 1).(mstatus := m))
      && (forall k: nat | k < 32 :: Has(m, k) == Has(b.csr.mstatus, if k == 3 then 7 else k))
  {
    hide Has, WithBit, WithoutBit;
    forall k: nat | k < 32
      ensures Has(MretTo(c, t).csr.mstatus, k) == Has(b.csr.mstatus, if k == 3 then 7 else k)
    {
      WithBits(b.csr.mstatus, MIE, k);
    }
  }

  // MRET goes on at mepc with MIE as MPIE was
  lemma ReturnSteps(c: Config, env: Env, s: State, rd: Index, rs1: Index, n: nat) returns (mstatus: Int32)
    requires n < 0x1000 && n % 4 == 2 && Runs(c, s, EncodeI(0x73, rd, 0, rs1, n))
    ensures var b, r := Begun(true, c, s), Step(true, c, env, s);
      && Leaves(b, r, b.csr.mepc, 0, 0, b.mem,
                Ticked(b.csr, if b.csr.mepc % 4 == 0 then 1 + c.penalty else 1).(mstatus := mstatus))
      && (forall k: nat | k < 32 :: Has(mstatus, k) == Has(b.csr.mstatus, if k == 3 then 7 else k))
  {
    hide Begun, Step, Runs, Execute, Counted, EncodeI, Opcode, Func3, Leaves, Ticked, MretTo, Has, Called, TrapTo;
    var w := EncodeI(0x73, rd, 0, rs1, n);
    EncodeNumber(rd, 0, rs1, n);
    StepRuns(c, env, s, w);
    var b := Begun(true, c, s);
    var t := Counted(b, w);
    ExecutesSystem(c, env, t, w, n);
    mstatus := MretTo(c, t).csr.mstatus;
    MretEnds(c, b, t);
  }

  lemma BreakSteps(c: Config, env: Env, s: State, rd: Index, rs1: Index, n: nat)
    requires n < 0x1000 && n % 4 == 1 && Runs(c, s, EncodeI(0x73, rd, 0, rs1, n))
    ensures var b := Begun(true, c, s); Faults(c, b, Step(true, c, env, s), 3, b.pc, 1)
  {
    hide Begun, Step, Runs, Execute, Counted, EncodeI, Opcode, Func3, Faults, Ticked, MretTo, Called, TrapTo;
    var w := EncodeI(0x73, rd, 0, rs1, n);
    EncodeNumber(rd, 0, rs1, n);
    StepRuns(c, env, s, w);
    var b := Begun(true, c, s);
    var t := Counted(b, w);
    ExecutesSystem(c, env, t, w, n);
    TrapFaults(c, b, t, 3, b.pc, 1);
  }

  // The system call is told a7 and a0 to a5. Its answer goes to a0 unless it is -1, memory is as the
  // call leaves it, and then the instruction traps.
  lemma CallSteps(c: Config, env: Env, s: State, rd: Index, rs1: Index, n: nat)
    requires n < 0x1000 && n % 4 == 0 && Runs(c, s, EncodeI(0x73, rd, 0, rs1, n))
    ensures var b, r := Begun(true, c, s), Step(true, c, env, s);
      var a := env.call([b.regs[17], b.regs[10], b.regs[11], b.regs[12], b.regs[13], b.regs[14], b.regs[15]], b.mem);
      var told := b.(mem := if |a.mem| == |b.mem| then a.mem else b.mem,
                     regs := if a.res == -1 then b.regs else b.regs[10 := a.res]);
      && (a.exits ==> r.Some? && r.value.status == Exited)
      && (!a.exits ==> Faults(c, told, r, 11, 0, 1))
  {
    hide Begun, Step, Runs, Execute, Counted, EncodeI, Opcode, Func3, Faults, Ticked, MretTo, TrapTo;
    var w := EncodeI(0x73, rd, 0, rs1, n);
    EncodeNumber(rd, 0, rs1, n);
    StepRuns(c, env, s, w);
    var b := Begun(true, c, s);
    var t := Counted(b, w);
    ExecutesSystem(c, env, t, w, n);
    var a := env.call(Arguments(t), t.mem);
    if !a.exits {
      var told := b.(mem := if |a.mem| == |b.mem| then a.mem else b.mem,
                     regs := if a.res == -1 then b.regs else b.regs[10 := a.res]);
      TrapFaults(c, told, Called(t, a), 11, 0, 1);
    }
  }

  // Words that are no instructions

  // Those that the opcode, func3 and func7 rule out
  predicate Unknown(w: U32) {
    var op, f, g := w % 0x80, w / 0x1000 % 8, w / 0x200_0000;
    || op !in {0x37, 0x17, 0x6f, 0x67, 0x63, 0x03, 0x23, 0x13, 0x33, 0x0f, 0x73}
    || (op == 0x63 && f in {2, 3})
    || (op == 0x03 && f in {3, 6, 7})
    || (op == 0x23 && f in {3, 4, 5, 6, 7})
    || (op == 0x13 && ((f == 1 && g != 0) || (f == 5 && g != 0 && g != 0x20)))
    || (op == 0x33 && g != 0 && g != 1 && !(g == 0x20 && f in {0, 5}))
    || (op == 0x73 && f == 4)
  }

  lemma ExecutesUnknown(c: Config, env: Env, t: State, w: U32)
    requires Unknown(w)
    ensures Execute(true, c, env, t, w) == Illegal(c, if w % 0x80 in {0x03, 0x23} then RamCycle(c, t) else t, w)
  {
    hide Rs1, Rs2, Rd, ImmI, ImmS, Wrap, Reached, Stores, Unsigned, Next, TrapTo, RamCycle, AccessLength, StoreOutside,
      Bytes, Extended, SetReg, Basic, Multiplicative, CsrAccess, MretTo, Called, Arguments, Branched;
  }

  lemma IllegalSteps(c: Config, env: Env, s: State, w: U32) returns (val: Int32)
    requires Unknown(w) && Runs(c, s, w)
    ensures Congruent(val, w)
    ensures var b := Begun(true, c, s);
      Faults(c, b, Step(true, c, env, s), 2, val, if w % 0x80 in {0x03, 0x23} && c.singleRam then 2 else 1)
  {
    hide Begun, Step, Runs, Execute, Counted, Faults, Ticked, TrapTo, RamCycle, Wrap, Congruent, Unknown;
    StepRuns(c, env, s, w);
    var b := Begun(true, c, s);
    var t := Counted(b, w);
    RamTicks(c, b, t);
    ExecutesUnknown(c, env, t, w);
    val := Wrap(w);
    WrapCongruent(w);
    if w % 0x80 in {0x03, 0x23} {
      TrapFaults(c, b, RamCycle(c, t), 2, val, if c.singleRam then 2 else 1);
    } else {
      TrapFaults(c, b, t, 2, val, 1);
    }
  }

  // Interrupts

  lemma JumpKeepsLatches(c: Config, s: State, i: U32)
    ensures Jump(true, c, s, i).state.irq == s.irq && Branch(true, c, s, i).state.irq == s.irq
  {
    hide Opcode, Func3, Rd, Rs1, Rs2, ImmB, ImmI, ImmJ, Wrap, TrapTo, Taken;
    TrapKeepsLatches(c, s, 2, Wrap(i));
  }

  lemma TrapKeepsLatches(c: Config, s: State, cause: nat, val: Int32)
    ensures TrapTo(c, s, cause, val).irq == s.irq
  {
    hide Entered, Wrap, Vector;
  }

  lemma LoadKeepsLatches(c: Config, env: Env, s: State, i: U32)
    ensures Load(true, c, env, s, i).state.irq == s.irq && Store(true, c, env, s, i).state.irq == s.irq
  {
    hide Opcode, Func3, Rd, Rs1, Rs2, ImmI, ImmS, Wrap, Vector, Entered, Reached, Stores, Bytes, Extended,
      AccessLength, Unsigned;
  }

  lemma ArithmeticKeepsLatches(c: Config, s: State, i: U32)
    ensures Arithmetic(true, c, s, i).state.irq == s.irq
  {
    hide Opcode, Rd, Rs1, Rs2, ImmediateValue, RegisterValue, Wrap, Vector, Entered;
  }

  lemma ExecuteKeepsLatches(c: Config, env: Env, s: State, i: U32)
    ensures Execute(true, c, env, s, i).state.irq == s.irq
  {
    hide Opcode, Func3, Rd, ImmU, Wrap, Jump, Branch, Load, Store, Arithmetic, System, TrapTo;
    JumpKeepsLatches(c, s, i);
    LoadKeepsLatches(c, env, s, i);
    ArithmeticKeepsLatches(c, s, i);
    TrapKeepsLatches(c, s, 2, Wrap(i));
    if Opcode(i) == SYSTEM {
      SystemKeepsLatches(true, c, env, s, i);
    }
  }

  // What a step asks for: the timer, once mtime has reached mtimecmp; a software and an external
  // request one step after msip has shown it; and each only when enabled, not by a system instruction
  lemma RequestSteps(c: Config, env: Env, s: State, w: U32)
    requires Runs(c, s, w)
    ensures var b, r := Begun(true, c, s), Step(true, c, env, s);
      var open := Has(b.csr.mstatus, 3) && w % 0x80 != 0x73;
      && r.Some?
      && var q := r.value.state.irq;
      && (q.timer <==> b.csr.mtimecmp <= b.csr.mtime && open && Has(b.csr.mie, 7))
      && (q.sw <==> Has(b.csr.msip, 0)) && (q.swNext <==> b.irq.sw && open && Has(b.csr.mie, 3))
      && (q.ext <==> Has(b.csr.msip, 16)) && (q.extNext <==> b.irq.ext && open && Has(b.csr.mie, 11))
  {
    hide Begun, Step, Runs, Execute, Has, Ticked;
    StepRuns(c, env, s, w);
    ExecuteKeepsLatches(c, env, Counted(Begun(true, c, s), w), w);
  }

  lemma IntToParts(c: Config, s: State, number: nat)
    requires number < 32
    ensures var t := IntTo(c, s, number);
      && t.pc == Vector(s.csr.mtvec, number)
      && forall k: nat | k < 32 :: Has(t.csr.mip, k) == (Has(s.csr.mip, k) || k == number)
  {
    hide Entered, Wrap, Vector, Has, WithBit;
    forall k: nat | k < 32
      ensures Has(WithBit(s.csr.mip, number), k) == (Has(s.csr.mip, k) || k == number)
    {
      WithBits(s.csr.mip, number, k);
    }
  }

  // A step that takes an interrupt: the timer before software before external
  lemma InterruptSteps(c: Config, s: State)
    requires Has(s.csr.mstatus, 3) && (s.irq.timer || s.irq.swNext || s.irq.extNext)
    ensures var t, number := AfterInterrupts(true, c, s), if s.irq.timer then 7 else if s.irq.swNext then 3 else 11;
      && Congruent(t.csr.mcause, 0x8000_0000 + number) && t.csr.mepc == s.pc
      && !Has(t.csr.mstatus, 3) && Has(t.csr.mstatus, 7)
      && (forall k: nat | k < 32 && k != 3 && k != 7 :: Has(t.csr.mstatus, k) == Has(s.csr.mstatus, k))
      && (forall k: nat | k < 32 :: Has(t.csr.mip, k) == (Has(s.csr.mip, k) || k == number))
      && (s.csr.mtvec % 2 == 0 ==> t.pc == s.csr.mtvec)
      && (s.csr.mtvec % 2 == 1 ==> Congruent(t.pc, s.csr.mtvec - 1 + 4 * number))
      && t.regs == s.regs && t.mem == s.mem
  {
    hide TakeInterrupts, Has, IntTo, Entered, Vector, Congruent, Wrap;
    var u := s.(timeWritten := false);
    var number := if s.irq.timer then 7 else if s.irq.swNext then 3 else 11;
    AtMostOneInterrupt(c, u);
    IntToState(c, u, number);
    IntToParts(c, u, number);
    WrapCongruent(0x8000_0000 + number);
    VectorIs(s.csr.mtvec, number);
    EnteredBits(s.csr.mstatus, 3);
    EnteredBits(s.csr.mstatus, 7);
    forall k: nat | k < 32 && k != 3 && k != 7
      ensures Has(Entered(s.csr.mstatus), k) == Has(s.csr.mstatus, k)
    {
      EnteredBits(s.csr.mstatus, k);
    }
  }

  // Fetching

  // Where a step begins when no interrupt is taken and memory ends below 2^31: at the pc, or in the
  // handler of an access fault outside of memory or of a misaligned address
  lemma FetchSteps(c: Config, s: State)
    requires !(Has(s.csr.mstatus, 3) && (s.irq.timer || s.irq.swNext || s.irq.extNext))
    requires c.base + |s.mem| < 0x8000_0000 && s.csr.mtvec % 4 < 2
    ensures var b, inside := Begun(true, c, s), c.base <= s.pc < c.base + |s.mem|;
      && b.regs == s.regs && b.mem == s.mem
      && (inside && s.pc % 4 == 0 ==> b == s.(timeWritten := false))
      && (!inside || s.pc % 4 != 0 ==>
        var cause := if inside then 0 else 1;
        && b.csr.mcause == cause && b.csr.mtval == s.pc && b.csr.mepc == s.prevPc
        && !Has(b.csr.mstatus, 3) && Has(b.csr.mstatus, 7) == Has(s.csr.mstatus, 3)
        && (s.csr.mtvec % 2 == 0 ==> b.pc == s.csr.mtvec)
        && (s.csr.mtvec % 2 == 1 ==> Congruent(b.pc, s.csr.mtvec - 1 + 4 * cause)))
  {
    hide Has, Entered, Vector, Congruent, TakeInterrupts, TrapTo, OutOfRange;
    NothingTaken(true, c, s);
    var t := s.(timeWritten := false);
    RangeIs(c, t);
    var cause := if c.base <= s.pc < c.base + |s.mem| then 0 else 1;
    EnteredBits(s.csr.mstatus, 3);
    EnteredBits(s.csr.mstatus, 7);
    VectorIs(s.csr.mtvec, cause);
    if s.pc % 4 != 0 {
      MisalignedTraps(c, t);
    } else if OutOfRange(c, t) {
      TrapToState(c, t, 1, s.pc);
      AlignedVector(s.csr.mtvec, 1);
      WrapBackSigned(1);
    }
  }

  lemma RangeIs(c: Config, s: State)
    requires c.base + |s.mem| < 0x8000_0000
    ensures OutOfRange(c, s) <==> !(c.base <= s.pc < c.base + |s.mem|)
  {
    WrapBackSigned(c.base + |s.mem|);
    hide Wrap;
  }
}
