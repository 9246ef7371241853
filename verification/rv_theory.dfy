// What holds of every run of the machine of tools/rvsim.c.
module RvTheory {
  import opened Binary
  import opened MachineInts
  import opened MultiplyDivide
  import opened Options
  import opened Powers
  import opened RvMachine

  // Runs

  // One environment for each step; a run ends early when the program exits or strays
  function Run(hard: bool, c: Config, envs: seq<Env>, s: State): Option<Result> {
    if envs == [] then Some(Result(s, Okay)) else
      match Step(hard, c, envs[0], s)
      case None => None
      case Some(r) => if r.status == Exited || r.status == Strayed then Some(r) else Run(hard, c, envs[1..], r.state)
  }

  // x0 is no register

  // The two states differ in x0 at most
  ghost predicate Same(s: State, t: State) {
    && s.pc == t.pc && s.prevPc == t.prevPc && s.csr == t.csr && s.mem == t.mem && s.irq == t.irq
    && s.timeWritten == t.timeWritten
    && forall k | 0 < k < 32 :: s.regs[k] == t.regs[k]
  }

  ghost predicate SameResult(a: Result, b: Result) {
    a.status == b.status && Same(a.state, b.state)
  }

  ghost predicate SameOption(a: Option<Result>, b: Option<Result>) {
    match a
    case None => b.None?
    case Some(x) => b.Some? && SameResult(x, b.value)
  }

  // A lazy state at the start of an instruction, and a hard-wired one
  ghost predicate Cleared(s: State, t: State) { Same(s, t) && s.regs[0] == 0 }

  lemma SameRegs(s: State, t: State, n: Index)
    requires Cleared(s, t)
    ensures Reg(false, s, n) == Reg(true, t, n)
  {
  }

  lemma SameSet(s: State, t: State, n: Index, v: Int32)
    requires Same(s, t)
    ensures Same(SetReg(false, s, n, v), SetReg(true, t, n, v))
  {
  }

  lemma SameTrap(c: Config, s: State, t: State, cause: nat, val: Int32)
    requires Same(s, t)
    ensures Same(TrapTo(c, s, cause, val), TrapTo(c, t, cause, val))
  {
  }

  lemma SameIllegal(c: Config, s: State, t: State, i: U32)
    requires Same(s, t)
    ensures SameResult(Illegal(c, s, i), Illegal(c, t, i))
  {
    SameTrap(c, s, t, 2, Wrap(i));
  }

  lemma SameNext(s: State, t: State, n: Index, v: Int32)
    requires Same(s, t)
    ensures SameResult(Result(Next(SetReg(false, s, n, v)), Okay), Result(Next(SetReg(true, t, n, v)), Okay))
  {
    SameSet(s, t, n, v);
  }

  lemma SameParts(s: State, t: State)
    requires Same(s, t)
    ensures s.pc == t.pc && s.prevPc == t.prevPc && s.csr == t.csr && s.mem == t.mem && s.irq == t.irq
    ensures s.timeWritten == t.timeWritten
  {
  }

  lemma SameRamCycle(c: Config, s: State, t: State)
    requires Same(s, t)
    ensures Same(RamCycle(c, s), RamCycle(c, t))
  {
  }

  lemma SameTrapped(c: Config, s: State, t: State, cause: nat, val: Int32)
    requires Same(s, t)
    ensures SameResult(Result(TrapTo(c, s, cause, val), Trapped), Result(TrapTo(c, t, cause, val), Trapped))
  {
    SameTrap(c, s, t, cause, val);
  }

  lemma SameJumped(c: Config, s: State, t: State, rd: Index, target: Int32)
    requires Same(s, t)
    ensures SameResult(Jumped(false, c, s, rd, target), Jumped(true, c, t, rd, target))
  {
    SameSet(s, t, rd, Wrap(s.pc + 4));
    hide SetReg, Wrap;
  }

  lemma SameJump(c: Config, s: State, t: State, i: U32)
    requires Cleared(s, t)
    ensures SameResult(Jump(false, c, s, i), Jump(true, c, t, i))
  {
    hide Same, Cleared, SameResult, Jumped, Reg, ImmI, ImmJ, Rd, Rs1, Wrap, Opcode;
    SameRegs(s, t, Rs1(i));
    ClearedParts(s, t);
    SameStatus(s, t, Exited);
    if Opcode(i) == JAL {
      SameJumped(c, s, t, Rd(i), Wrap(s.pc + ImmJ(i)));
    } else {
      SameJumped(c, s, t, Rd(i), Wrap(Reg(false, s, Rs1(i)) + ImmI(i)));
    }
  }

  lemma SameBranched(c: Config, s: State, t: State, offset: Int32)
    requires Same(s, t)
    ensures SameResult(Branched(c, s, offset), Branched(c, t, offset))
  {
    hide Wrap;
  }

  lemma SameBranch(c: Config, s: State, t: State, i: U32)
    requires Cleared(s, t)
    ensures SameResult(Branch(false, c, s, i), Branch(true, c, t, i))
  {
    hide Same, Cleared, SameResult, Branched, Reg, Taken, Illegal, Next, ImmB, Rs1, Rs2, Func3;
    SameRegs(s, t, Rs1(i));
    SameRegs(s, t, Rs2(i));
    ClearedParts(s, t);
    SameIllegal(c, s, t, i);
    SameNexts(s, t);
    SameBranched(c, s, t, ImmB(i));
  }

  lemma SameLoad(c: Config, env: Env, s: State, t: State, i: U32)
    requires Cleared(s, t)
    ensures SameResult(Load(false, c, env, s, i), Load(true, c, env, t, i))
  {
    hide Same, Cleared, SameResult, Reg, SetReg, TrapTo, Illegal, Extended, RamCycle, Next, Bytes, Reached, Wrap, Rd,
      Rs1, ImmI, Func3, AccessLength;
    SameRegs(s, t, Rs1(i));
    ClearedParts(s, t);
    var f, address := Func3(i), Wrap(Reg(false, s, Rs1(i)) + ImmI(i));
    var u, v := RamCycle(c, s), RamCycle(c, t);
    var len := AccessLength(f);
    SameRamCycle(c, s, t);
    if f == 3 || f > 5 {
      SameIllegal(c, u, v, i);
    } else if address % len != 0 {
      SameTrapped(c, u, v, 4, address);
    } else if Reached(c, s.mem, address, len).Inside? {
      SameNext(u, v, Rd(i), Extended(f, Bytes(s.mem, address - c.base, len)));
    } else if Reached(c, s.mem, address, len).Outside? {
      SameStatus(u, v, Strayed);
    } else if env.load(s.csr, address).LoadGives? {
      SameNext(u, v, Rd(i), Extended(f, Unsigned(env.load(s.csr, address).data)));
    } else {
      SameTrapped(c, u, v, 5, address);
    }
  }

  lemma SameStatus(s: State, t: State, status: Status)
    requires Same(s, t)
    ensures SameResult(Result(s, status), Result(t, status))
  {
  }

  lemma SameStored(s: State, t: State, mem: seq<U8>, r: StoreResult)
    requires Same(s, t)
    ensures Same(s.(mem := mem), t.(mem := mem))
    ensures Same(Devices(s, r), Devices(t, r))
  {
  }

  lemma SameNexts(s: State, t: State)
    requires Same(s, t)
    ensures SameResult(Result(Next(s), Okay), Result(Next(t), Okay))
  {
  }

  lemma SameStore(c: Config, env: Env, s: State, t: State, i: U32)
    requires Cleared(s, t)
    ensures SameResult(Store(false, c, env, s, i), Store(true, c, env, t, i))
  {
    hide Same, Cleared, SameResult, Reg, TrapTo, Illegal, RamCycle, Next, Stores, Reached, Wrap, Rs1, Rs2, ImmS, Func3,
      AccessLength, StoreOutside;
    SameRegs(s, t, Rs1(i));
    SameRegs(s, t, Rs2(i));
    ClearedParts(s, t);
    var f, address := Func3(i), Wrap(Reg(false, s, Rs1(i)) + ImmS(i));
    var len, data := AccessLength(f), Reg(false, s, Rs2(i));
    SameRamCycle(c, s, t);
    if f > 2 {
      SameIllegal(c, RamCycle(c, s), RamCycle(c, t), i);
    } else if address % len != 0 {
      SameTrapped(c, RamCycle(c, s), RamCycle(c, t), 6, address);
    } else if Reached(c, s.mem, address, len).Inside? {
      var m := Stores(s.mem, address - c.base, Unsigned(data), len);
      SameStored(s, t, m, StoreResult(0, 0, 0, false, m, Stored));
      SameRamCycle(c, s.(mem := m), t.(mem := m));
      SameNexts(RamCycle(c, s.(mem := m)), RamCycle(c, t.(mem := m)));
    } else if Reached(c, s.mem, address, len).Outside? {
      SameStatus(RamCycle(c, s), RamCycle(c, t), Strayed);
    } else if address == MMIO_EXIT {
      SameIllegal(c, RamCycle(c, s), RamCycle(c, t), i);
    } else {
      SameStoredOutside(c, env, s, t, address, data, len);
    }
  }

  lemma SameStoredOutside(c: Config, env: Env, s: State, t: State, address: Int32, data: Int32, len: nat)
    requires Same(s, t)
    ensures SameResult(StoreOutside(c, env, s, address, data, len), StoreOutside(c, env, t, address, data, len))
  {
    SameParts(s, t);
    hide Same, SameResult, TrapTo, RamCycle, Next, Devices;
    var r := env.store(s.csr, s.mem, address, data, len);
    SameStored(s, t, s.mem, r);
    var u, v := RamCycle(c, Devices(s, r)), RamCycle(c, Devices(t, r));
    SameRamCycle(c, Devices(s, r), Devices(t, r));
    SameNexts(u, v);
    SameStatus(u, v, Exited);
    SameTrapped(c, u, v, 7, address);
  }

  lemma SameArithmetic(c: Config, s: State, t: State, i: U32)
    requires Cleared(s, t)
    ensures SameResult(Arithmetic(false, c, s, i), Arithmetic(true, c, t, i))
  {
    SameRegs(s, t, Rs1(i));
    SameRegs(s, t, Rs2(i));
    SameIllegal(c, s, t, i);
    hide ImmediateValue, RegisterValue, Reg;
    var v := if Opcode(i) == ARITHI then ImmediateValue(i, Reg(false, s, Rs1(i)))
             else RegisterValue(i, Reg(false, s, Rs1(i)), Reg(false, s, Rs2(i)));
    if v.Some? {
      SameNext(s, t, Rd(i), v.value);
    }
  }

  lemma SameCsr(c: Config, s: State, t: State, i: U32)
    requires Cleared(s, t)
    ensures SameResult(CsrAccess(false, c, s, i), CsrAccess(true, c, t, i))
  {
    SameRegs(s, t, Rs1(i));
    SameTrap(c, s, t, 2, 0);
    hide CsrRead, CsrWrite, Updated, Reg, SetReg;
    var f, n := Func3(i), i / 0x10_0000;
    var val := if f >= 4 then Rs1(i) else Reg(false, s, Rs1(i));
    var x := CsrRead(s.csr, n);
    if x.Some? {
      var write := f % 4 == 1 || Rs1(i) != 0;
      var csr := if write then CsrWrite(s.csr, n, Updated(f % 4, x.value, val)) else s.csr;
      SameNext(s.(csr := csr), t.(csr := csr), Rd(i), x.value);
    }
  }

  lemma SameMret(c: Config, s: State, t: State)
    requires Same(s, t)
    ensures SameResult(Result(MretTo(c, s), Okay), Result(MretTo(c, t), Okay))
  {
    hide Has, WithBit, WithoutBit;
  }

  lemma SameSystem(c: Config, env: Env, s: State, t: State, i: U32)
    requires Cleared(s, t)
    ensures SameResult(System(false, c, env, s, i), System(true, c, env, t, i))
  {
    hide Same, Cleared, SameResult, TrapTo, MretTo, Called, Arguments, CsrAccess, Illegal, Func3;
    ClearedParts(s, t);
    if Func3(i) == 0 {
      SameTrapped(c, s, t, 3, s.pc);
      SameTrapped(c, s, t, 2, 0);
      SameMret(c, s, t);
      SameStatus(s, t, Exited);
      SameCall(c, env, s, t);
    } else if Func3(i) == 4 {
      SameIllegal(c, s, t, i);
    } else {
      SameCsr(c, s, t, i);
    }
  }

  lemma SameCall(c: Config, env: Env, s: State, t: State)
    requires Same(s, t)
    ensures Arguments(s) == Arguments(t)
    ensures var r := env.call(Arguments(s), s.mem);
      SameResult(Result(TrapTo(c, Called(s, r), 11, 0), Trapped), Result(TrapTo(c, Called(t, r), 11, 0), Trapped))
  {
    hide TrapTo;
    var r := env.call(Arguments(s), s.mem);
    SameTrapped(c, Called(s, r), Called(t, r), 11, 0);
  }

  lemma SameExecute(c: Config, env: Env, s: State, t: State, i: U32)
    requires Cleared(s, t)
    ensures SameResult(Execute(false, c, env, s, i), Execute(true, c, env, t, i))
  {
    hide Same, SameResult, Jump, Branch, Load, Store, Arithmetic, System, Illegal, Next, SetReg, ImmU, Wrap, Rd, Opcode;
    var op := Opcode(i);
    if op == LUI {
      SameNext(s, t, Rd(i), ImmU(i));
    } else if op == AUIPC {
      SameParts(s, t);
      SameNext(s, t, Rd(i), Wrap(s.pc + ImmU(i)));
    } else if op == JAL || op == JALR {
      SameJump(c, s, t, i);
    } else if op == BRANCH {
      SameBranch(c, s, t, i);
    } else if op == LOAD {
      SameLoad(c, env, s, t, i);
    } else if op == STORE {
      SameStore(c, env, s, t, i);
    } else if op == ARITHI || op == ARITHR {
      SameArithmetic(c, s, t, i);
    } else if op == FENCE {
      SameNexts(s, t);
    } else if op == SYSTEM {
      SameSystem(c, env, s, t, i);
    } else {
      SameIllegal(c, s, t, i);
    }
  }

  lemma SameInterrupt(c: Config, s: State, t: State, latched: bool, number: nat)
    requires Same(s, t)
    ensures Same(Interrupt(c, s, latched, number), Interrupt(c, t, latched, number))
    ensures Interrupt(c, s, latched, number).irq == s.irq && Interrupt(c, s, latched, number).regs == s.regs
  {
  }

  lemma SameInterrupts(c: Config, s: State, t: State)
    requires Same(s, t)
    ensures Same(TakeInterrupts(c, s), TakeInterrupts(c, t)) && TakeInterrupts(c, s).regs == s.regs
  {
    SameParts(s, t);
    hide Same, Interrupt;
    SameInterrupt(c, s, t, s.irq.timer, TIMER);
    var s1, t1 := Interrupt(c, s, s.irq.timer, TIMER), Interrupt(c, t, s.irq.timer, TIMER);
    SameParts(s1, t1);
    SameInterrupt(c, s1, t1, s.irq.swNext, SOFTWARE);
    var s2, t2 := Interrupt(c, s1, s.irq.swNext, SOFTWARE), Interrupt(c, t1, s.irq.swNext, SOFTWARE);
    SameInterrupt(c, s2, t2, s.irq.extNext, EXTERNAL);
  }

  lemma TrapKeepsRegs(c: Config, s: State, cause: nat, val: Int32)
    ensures TrapTo(c, s, cause, val).regs == s.regs && TrapTo(c, s, cause, val).mem == s.mem
  {
  }

  lemma SameFetchTraps(c: Config, s: State, t: State)
    requires Same(s, t)
    ensures Same(FetchTraps(c, s), FetchTraps(c, t)) && FetchTraps(c, s).regs == s.regs
  {
    SameParts(s, t);
    hide Same, TrapTo;
    SameTrap(c, s, t, 1, s.pc);
    TrapKeepsRegs(c, s, 1, s.pc);
    var r := if OutOfRange(c, s) then TrapTo(c, s, 1, s.pc) else s;
    var q := if OutOfRange(c, t) then TrapTo(c, t, 1, t.pc) else t;
    SameParts(r, q);
    SameTrap(c, r, q, 0, r.pc);
    TrapKeepsRegs(c, r, 0, r.pc);
  }

  lemma SameBegun(c: Config, s: State, t: State)
    requires Same(s, t)
    ensures Cleared(Begun(false, c, s), Begun(true, c, t))
  {
    var u := s.(timeWritten := false);
    var u0, v := u.(regs := u.regs[0 := 0]), t.(timeWritten := false);
    assert Same(u0, v);
    hide Same, TakeInterrupts, FetchTraps;
    SameInterrupts(c, u0, v);
    SameFetchTraps(c, TakeInterrupts(c, u0), TakeInterrupts(c, v));
  }

  lemma SameInstruction(c: Config, env: Env, s: State, t: State, i: U32)
    requires Cleared(s, t)
    ensures SameResult(Instruction(false, c, env, s, i), Instruction(true, c, env, t, i))
  {
    hide SameResult, Execute, Counted, Cleared;
    SameCounted(s, t, i);
    SameExecute(c, env, Counted(s, i), Counted(t, i), i);
  }

  lemma ClearedParts(s: State, t: State)
    requires Cleared(s, t)
    ensures Same(s, t) && s.pc == t.pc && s.csr == t.csr && s.mem == t.mem && s.timeWritten == t.timeWritten
  {
  }

  lemma SameFetched(c: Config, env: Env, s: State, t: State)
    requires Cleared(s, t)
    ensures SameOption(Fetched(false, c, env, s), Fetched(true, c, env, t))
  {
    hide Same, Cleared, SameResult, Instruction, WordAt, Reached;
    ClearedParts(s, t);
    if Reached(c, s.mem, s.pc, 4).Inside? {
      SameInstruction(c, env, s, t, WordAt(s.mem, s.pc - c.base));
    }
  }

  lemma SameStep(c: Config, env: Env, s: State, t: State)
    requires Same(s, t)
    ensures SameOption(Step(false, c, env, s), Step(true, c, env, t))
  {
    hide SameOption, Fetched, Begun, Same;
    SameBegun(c, s, t);
    SameFetched(c, env, Begun(false, c, s), Begun(true, c, t));
  }

  lemma SameCounted(s: State, t: State, i: U32)
    requires Cleared(s, t)
    ensures Cleared(Counted(s, i), Counted(t, i))
  {
  }

  // The lazy machine refines the one whose x0 is hard-wired, on every run
  lemma {:induction false} LazyZeroRefines(c: Config, envs: seq<Env>, s: State, t: State)
    requires Same(s, t)
    ensures SameOption(Run(false, c, envs, s), Run(true, c, envs, t))
  {
    hide Step;
    if envs != [] {
      SameStep(c, envs[0], s, t);
      var r := Step(false, c, envs[0], s);
      if r.Some? && r.value.status != Exited && r.value.status != Strayed {
        LazyZeroRefines(c, envs[1..], r.value.state, Step(true, c, envs[0], t).value.state);
      }
    }
  }
}
