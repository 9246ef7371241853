// What an interrupt and a misaligned jump do to a run of the machine of tools/rvsim.c. x0 is
// hard-wired where a register file is compared; RvTheory carries these results over to the simulator.
module RvRuns {
  import opened MachineInts
  import opened MultiplyDivide
  import opened Options
  import opened RvMachine
  import opened RvTheory
  import opened RvTraps

  // Steps

  predicate Pending(s: State) {
    Has(s.csr.mstatus, MIE) && (s.irq.timer || s.irq.swNext || s.irq.extNext)
  }

  // The start of a step before the pc is looked at
  function AfterInterrupts(hard: bool, c: Config, s: State): State {
    var t := s.(timeWritten := false);
    TakeInterrupts(c, if hard then t else t.(regs := t.regs[0 := 0]))
  }

  predicate HasWord(c: Config, s: State) { Reached(c, s.mem, s.pc, 4).Inside? }

  function Word(c: Config, s: State): U32
    requires HasWord(c, s)
  {
    WordAt(s.mem, s.pc - c.base)
  }

  // The pc needs no trap, and there is an instruction at it
  predicate Fetches(c: Config, s: State) { !OutOfRange(c, s) && s.pc % 4 == 0 && HasWord(c, s) }

  predicate IsMret(i: U32) { Opcode(i) == SYSTEM && Func3(i) == 0 && i / 0x10_0000 % 4 == 2 }

  lemma StepIs(hard: bool, c: Config, env: Env, s: State)
    requires HasWord(c, Begun(hard, c, s))
    ensures var b := Begun(hard, c, s);
      Step(hard, c, env, s) == Some(Execute(hard, c, env, Counted(b, Word(c, b)), Word(c, b)))
  {
    hide Begun, WordAt, Reached, Execute, Counted;
  }

  lemma BegunIs(hard: bool, c: Config, s: State)
    requires Fetches(c, AfterInterrupts(hard, c, s))
    ensures Begun(hard, c, s) == AfterInterrupts(hard, c, s)
  {
    hide TakeInterrupts, TrapTo, Reached;
  }

  lemma NothingTaken(hard: bool, c: Config, s: State)
    requires !Pending(s)
    ensures AfterInterrupts(hard, c, s) == s.(timeWritten := false, regs := if hard then s.regs else s.regs[0 := 0])
  {
    var t := s.(timeWritten := false);
    AtMostOneInterrupt(c, if hard then t else t.(regs := t.regs[0 := 0]));
    hide TakeInterrupts, Has, IntTo;
  }

  lemma InterruptTaken(hard: bool, c: Config, s: State)
    requires Pending(s)
    ensures var t := AfterInterrupts(hard, c, s);
      && t.csr.mepc == s.pc && t.csr.mstatus == Entered(s.csr.mstatus) && t.csr.mtvec == s.csr.mtvec
      && t.prevPc == s.prevPc && t.mem == s.mem && t.regs == if hard then s.regs else s.regs[0 := 0]
  {
    var t := s.(timeWritten := false);
    var u := if hard then t else t.(regs := t.regs[0 := 0]);
    AtMostOneInterrupt(c, u);
    IntToState(c, u, TIMER);
    IntToState(c, u, SOFTWARE);
    IntToState(c, u, EXTERNAL);
    hide TakeInterrupts, Has, IntTo, Entered;
  }

  // The exit register

  // A store to the exit register, where there is no memory
  predicate StoresExit(hard: bool, c: Config, s: State, i: U32) {
    && Opcode(i) == STORE && Func3(i) <= 2 && Wrap(Reg(hard, s, Rs1(i)) + ImmS(i)) == MMIO_EXIT
    && Reached(c, s.mem, MMIO_EXIT, AccessLength(Func3(i))).Refused?
  }

  lemma StoreOfExit(hard: bool, c: Config, env: Env, s: State, i: U32)
    requires StoresExit(hard, c, s, i)
    ensures Execute(hard, c, env, s, i) == Illegal(c, RamCycle(c, s), i)
  {
    hide Reached, Opcode, ImmS, Reg, Rs1, Rs2, Func3, TrapTo, Wrap, RamCycle, StoreOutside, Stores;
  }

  lemma RamCycleKeeps(c: Config, s: State)
    ensures var t := RamCycle(c, s);
      && t.mem == s.mem && t.regs == s.regs && t.prevPc == s.prevPc && t.csr.mtvec == s.csr.mtvec
      && t.csr.mstatus == s.csr.mstatus
  {
  }

  // A store to it, memory lying elsewhere, does not end the program: it traps as an illegal
  // instruction
  lemma ExitTraps(hard: bool, c: Config, env: Env, s: State)
    requires var b := Begun(hard, c, s); HasWord(c, b) && StoresExit(hard, c, b, Word(c, b))
    ensures var b, r := Begun(hard, c, s), Step(hard, c, env, s);
      && r.Some? && r.value.status == Trapped
      && r.value.state.csr.mcause == 2 && r.value.state.csr.mepc == b.pc
      && r.value.state.pc == Vector(b.csr.mtvec, 2) && r.value.state.mem == b.mem && r.value.state.regs == b.regs
  {
    hide Begun, Word, HasWord, Counted, TrapTo, Vector, StoresExit, RamCycle, Execute, Step;
    StepIs(hard, c, env, s);
    var b := Begun(hard, c, s);
    var i := Word(c, b);
    var t := Counted(b, i);
    CountedParts(hard, b, i);
    SameExit(hard, c, b, i);
    StoreOfExit(hard, c, env, t, i);
    RamCycleKeeps(c, t);
    TrapToState(c, RamCycle(c, t), 2, Wrap(i));
  }

  lemma SameExit(hard: bool, c: Config, s: State, i: U32)
    ensures StoresExit(hard, c, s, i) == StoresExit(hard, c, Counted(s, i), i)
  {
    CountedParts(hard, s, i);
    hide Counted, Reached, Opcode, ImmS, Reg, Rs1, Func3, Wrap;
  }

  // Misaligned jumps

  ghost predicate JumpsAskew(hard: bool, c: Config, b: State) {
    && HasWord(c, b) && (Opcode(Word(c, b)) == JAL || Opcode(Word(c, b)) == JALR)
    && Target(hard, b, Word(c, b)) % 4 != 0 && !Loops(hard, b, Word(c, b))
  }

  lemma StepAskew(hard: bool, c: Config, env: Env, s: State)
    requires JumpsAskew(hard, c, Begun(hard, c, s))
    ensures var b := Begun(hard, c, s);
      var t := Counted(b, Word(c, b));
      Step(hard, c, env, s) == Some(Result(t.(pc := Target(hard, b, Word(c, b))), Okay))
  {
    var b := Begun(hard, c, s);
    StepIs(hard, c, env, s);
    MisalignedJump(hard, c, env, b, Word(c, b));
    hide Begun, Word, HasWord, Execute, Counted, Target, Loops;
  }

  // A step that jumps to a misaligned target, and the beginning of the next one: when no interrupt
  // comes first, the trap names the jump and its target, and no register has been written
  lemma MisalignedJumpTraps(hard: bool, c: Config, env: Env, s: State)
    requires JumpsAskew(hard, c, Begun(hard, c, s)) && Begun(hard, c, s).csr.mtvec % 4 < 2
    ensures var b, r := Begun(hard, c, s), Step(hard, c, env, s);
      var target := Target(hard, b, Word(c, b));
      && r.Some? && r.value.status == Okay
      && (!Pending(r.value.state) ==>
        var t := Begun(hard, c, r.value.state);
        && t.csr.mepc == b.pc && t.csr.mtval == target && t.csr.mstatus == Entered(b.csr.mstatus)
        && t.csr.mcause == (if c.base <= target < Top(c, b.mem) then 0 else 1)
        && t.pc == Vector(b.csr.mtvec, t.csr.mcause) && t.mem == b.mem
        && forall k | 0 < k < 32 :: t.regs[k] == b.regs[k])
  {
    StepAskew(hard, c, env, s);
    var b := Begun(hard, c, s);
    CountedParts(hard, b, Word(c, b));
    var r := Step(hard, c, env, s).value.state;
    hide Begun, Word, HasWord, Step, Counted, Target, Loops, Entered, Vector, Has, JumpsAskew, FetchTraps,
        AfterInterrupts, Top;
    if !Pending(r) {
      NothingTaken(hard, c, r);
      MisalignedTraps(c, AfterInterrupts(hard, c, r));
      BegunTraps(hard, c, r);
    }
  }

  lemma BegunTraps(hard: bool, c: Config, s: State)
    ensures Begun(hard, c, s) == FetchTraps(c, AfterInterrupts(hard, c, s))
  {
  }

  // With an interrupt first, the handler is told to return to the misaligned target; the trap that
  // follows its MRET names the MRET
  lemma InterruptedMisalignedJump(hard: bool, c: Config, env: Env, s: State)
    requires JumpsAskew(hard, c, Begun(hard, c, s))
    requires Step(hard, c, env, s).Some?
    requires Pending(Step(hard, c, env, s).value.state)
        && Fetches(c, AfterInterrupts(hard, c, Step(hard, c, env, s).value.state))
    ensures var b, r := Begun(hard, c, s), Step(hard, c, env, s).value.state;
      Begun(hard, c, r).csr.mepc == Target(hard, b, Word(c, b))
  {
    StepAskew(hard, c, env, s);
    var r := Step(hard, c, env, s).value.state;
    hide Begun, Word, HasWord, Step, Counted, Target, Loops, Entered, Has, JumpsAskew, FetchTraps, AfterInterrupts,
        Fetches;
    InterruptTaken(hard, c, r);
    BegunIs(hard, c, r);
  }

  // So the trap of a jump at an aligned address names it exactly when no interrupt comes between
  lemma TrapNamesJump(hard: bool, c: Config, env: Env, s: State)
    requires var b := Begun(hard, c, s);
      && HasWord(c, b) && (Opcode(Word(c, b)) == JAL || Opcode(Word(c, b)) == JALR)
      && Target(hard, b, Word(c, b)) % 4 != 0 && b.pc % 4 == 0 && b.csr.mtvec % 4 < 2
    requires Step(hard, c, env, s).Some?
    requires var r := Step(hard, c, env, s).value.state; Pending(r) ==> Fetches(c, AfterInterrupts(hard, c, r))
    ensures var r := Step(hard, c, env, s).value.state;
      Begun(hard, c, r).csr.mepc == Begun(hard, c, s).pc <==> !Pending(r)
  {
    hide Begun, Word, HasWord, Step, Target, Loops, Pending, AfterInterrupts, Fetches;
    var b := Begun(hard, c, s);
    NoLoop(hard, b, Word(c, b));
    MisalignedJumpTraps(hard, c, env, s);
    var r := Step(hard, c, env, s).value.state;
    if Pending(r) {
      InterruptedMisalignedJump(hard, c, env, s);
    }
  }

  // Handlers

  // The instructions of a run other than system instructions, none of which traps
  ghost predicate Quiet(c: Config, envs: seq<Env>, s: State) {
    envs == [] ||
    (&& Fetches(c, AfterInterrupts(true, c, s)) && Opcode(Word(c, AfterInterrupts(true, c, s))) != SYSTEM
     && Step(true, c, envs[0], s).Some? && Step(true, c, envs[0], s).value.status == Okay
     && Quiet(c, envs[1..], Step(true, c, envs[0], s).value.state))
  }

  // The registers that entry writes and MRET reads
  ghost predicate KeepsReturn(s: State, t: State) {
    s.csr.mepc == t.csr.mepc && s.csr.mstatus == t.csr.mstatus && s.csr.mtvec == t.csr.mtvec
  }

  lemma DevicesKeepReturn(c: Config, env: Env, s: State, address: Int32, data: Int32, len: nat)
    requires StoreOutside(c, env, s, address, data, len).status == Okay
    ensures KeepsReturn(StoreOutside(c, env, s, address, data, len).state, s)
  {
  }

  lemma StoreKeepsReturn(c: Config, env: Env, s: State, i: U32)
    requires Store(true, c, env, s, i).status == Okay
    ensures KeepsReturn(Store(true, c, env, s, i).state, s)
  {
    hide KeepsReturn, StoreOutside, Stores, Reached, Wrap, ImmS, Reg, Rs1, Rs2, Func3, AccessLength, TrapTo;
    var f, address := Func3(i), Wrap(Reg(true, s, Rs1(i)) + ImmS(i));
    var len, data := AccessLength(f), Reg(true, s, Rs2(i));
    var r := Store(true, c, env, s, i);
    if Reached(c, s.mem, address, len).Refused? {
      assert r == StoreOutside(c, env, s, address, data, len);
      DevicesKeepReturn(c, env, s, address, data, len);
    } else {
      NextKeepsReturn(c, s, Stores(s.mem, address - c.base, Unsigned(data), len));
    }
  }

  lemma NextKeepsReturn(c: Config, s: State, mem: seq<U8>)
    ensures KeepsReturn(Next(RamCycle(c, s.(mem := mem))), s)
  {
  }

  lemma RestKeepsReturn(c: Config, env: Env, s: State, i: U32)
    requires Execute(true, c, env, s, i).status == Okay && Opcode(i) != SYSTEM && Opcode(i) != STORE
    ensures KeepsReturn(Execute(true, c, env, s, i).state, s)
  {
    hide Opcode, Func3, Rd, Rs1, Rs2, Reg, Wrap, ImmI, ImmJ, ImmB, ImmU, AfterInterrupts, Reached, Bytes, Extended,
        TrapTo,
      ImmediateValue, RegisterValue, AccessLength;
  }

  lemma ExecuteKeepsReturn(c: Config, env: Env, s: State, i: U32)
    requires Execute(true, c, env, s, i).status == Okay && Opcode(i) != SYSTEM
    ensures KeepsReturn(Execute(true, c, env, s, i).state, s)
  {
    if Opcode(i) == STORE {
      hide Store, KeepsReturn, Opcode;
      StoreKeepsReturn(c, env, s, i);
    } else {
      RestKeepsReturn(c, env, s, i);
    }
  }

  lemma QuietStep(c: Config, env: Env, s: State)
    requires Quiet(c, [env], s)
    ensures KeepsReturn(Step(true, c, env, s).value.state, AfterInterrupts(true, c, s))
  {
    var b := AfterInterrupts(true, c, s);
    BegunIs(true, c, s);
    hide AfterInterrupts, Begun, Word, Execute, Counted, HasWord, Step;
    StepIs(true, c, env, s);
    CountedParts(true, b, Word(c, b));
    ExecuteKeepsReturn(c, env, Counted(b, Word(c, b)), Word(c, b));
  }

  // A handler without system instructions and traps is itself not interrupted, and leaves the way
  // back as the entry has set it
  lemma {:induction false} QuietRunKeepsReturn(c: Config, envs: seq<Env>, s: State)
    requires Quiet(c, envs, s) && !Has(AfterInterrupts(true, c, s).csr.mstatus, MIE)
    ensures var r := Run(true, c, envs, s);
      && r.Some? && r.value.status == Okay
      && KeepsReturn(AfterInterrupts(true, c, r.value.state), AfterInterrupts(true, c, s))
  {
    hide Has, Step, AfterInterrupts, Fetches, Word;
    if envs != [] {
      QuietStep(c, envs[0], s);
      var t := Step(true, c, envs[0], s).value.state;
      NothingTaken(true, c, t);
      QuietRunKeepsReturn(c, envs[1..], t);
    }
  }

  lemma ExecuteMret(c: Config, env: Env, s: State, i: U32)
    requires IsMret(i)
    ensures Execute(true, c, env, s, i) == Result(MretTo(c, s), Okay)
  {
    hide MretTo, Func3;
  }

  lemma MretState(c: Config, s: State)
    requires Has(s.csr.mstatus, MPIE)
    ensures var r := MretTo(c, s);
      && r.pc == s.csr.mepc && r.csr.mstatus == WithBit(s.csr.mstatus, MIE) && r.csr.mtvec == s.csr.mtvec
      && r.regs == s.regs && r.mem == s.mem && r.irq == s.irq
  {
    hide Has, WithBit, WithoutBit;
  }

  // h is where the handler is about to return from
  ghost predicate AtMret(c: Config, h: State) {
    Fetches(c, AfterInterrupts(true, c, h)) && IsMret(Word(c, AfterInterrupts(true, c, h)))
  }

  // The step of MRET in a state that the interrupt taken at s has led to, with the way back kept
  lemma MretReturns(c: Config, env: Env, s: State, h: State)
    requires Pending(s) && AtMret(c, h) && KeepsReturn(AfterInterrupts(true, c, h), AfterInterrupts(true, c, s))
    requires AfterInterrupts(true, c, h).regs == h.regs && AfterInterrupts(true, c, h).mem == h.mem
    ensures var r := Step(true, c, env, h);
      && r.Some? && r.value.status == Okay
      && r.value.state.pc == s.pc
      && r.value.state.csr.mstatus == WithBit(s.csr.mstatus, MPIE) && Has(r.value.state.csr.mstatus, MIE)
      && r.value.state.csr.mtvec == s.csr.mtvec
      && r.value.state.regs == h.regs && r.value.state.mem == h.mem
      && !Pending(r.value.state)
  {
    var b := AfterInterrupts(true, c, h);
    var i := Word(c, b);
    var t := Counted(b, i);
    BegunIs(true, c, h);
    StepIs(true, c, env, h);
    hide AfterInterrupts, Begun, Word, Execute, Counted, HasWord, Step, Has, Entered, WithBit, MretTo, Opcode, Func3,
        Fetches;
    InterruptTaken(true, c, s);
    EnteredAndReturned(s.csr.mstatus);
    CountedParts(true, b, i);
    ExecuteMret(c, env, t, i);
    MretState(c, t);
    NoneCounted(b, i);
  }

  // The run of envs is a handler for the interrupt entered at s: it comes to an MRET with the way
  // back kept
  ghost predicate Handles(c: Config, envs: seq<Env>, s: State) {
    var h := Run(true, c, envs, s);
    && h.Some? && (h.value.status == Okay || h.value.status == Trapped)
    && AtMret(c, h.value.state) && KeepsReturn(AfterInterrupts(true, c, h.value.state), AfterInterrupts(true, c, s))
  }

  // An interrupt is entered at s, a handler runs, MRET follows: the run is back at the pc that was
  // interrupted, interrupts are enabled, and none is taken before the instruction there
  lemma InterruptReturns(c: Config, envs: seq<Env>, env: Env, s: State)
    requires Pending(s) && Handles(c, envs, s)
    ensures var h, r := Run(true, c, envs, s).value.state, Run(true, c, envs + [env], s);
      && r.Some? && r.value.status == Okay
      && r.value.state.pc == s.pc
      && r.value.state.csr.mstatus == WithBit(s.csr.mstatus, MPIE) && Has(r.value.state.csr.mstatus, MIE)
      && r.value.state.csr.mtvec == s.csr.mtvec
      && r.value.state.regs == h.regs && r.value.state.mem == h.mem
      && !Pending(r.value.state)
  {
    hide AfterInterrupts, Step, Run, Has, Entered, WithBit, AtMret, KeepsReturn, Pending;
    var h := Run(true, c, envs, s).value.state;
    RunFurther(true, c, envs, env, s);
    TakenKeeps(c, h);
    MretReturns(c, env, s, h);
    RunOne(true, c, env, h);
  }

  lemma RunOne(hard: bool, c: Config, env: Env, s: State)
    requires Step(hard, c, env, s).Some? && Step(hard, c, env, s).value.status == Okay
    ensures Run(hard, c, [env], s) == Step(hard, c, env, s)
  {
    hide Step;
    var envs := [env];
    assert Run(hard, c, envs[1..], Step(hard, c, env, s).value.state).Some?;
  }

  // A quiet run that comes to an MRET is a handler
  lemma QuietHandles(c: Config, envs: seq<Env>, s: State)
    requires Pending(s) && Quiet(c, envs, s)
    requires Run(true, c, envs, s).Some? && AtMret(c, Run(true, c, envs, s).value.state)
    ensures Handles(c, envs, s)
  {
    hide AfterInterrupts, Step, Has, Entered, AtMret, KeepsReturn, Quiet, Run;
    InterruptTaken(true, c, s);
    EnteredAndReturned(s.csr.mstatus);
    QuietRunKeepsReturn(c, envs, s);
  }

  lemma TakenKeeps(c: Config, s: State)
    ensures AfterInterrupts(true, c, s).regs == s.regs && AfterInterrupts(true, c, s).mem == s.mem
  {
    if Pending(s) {
      InterruptTaken(true, c, s);
    } else {
      NothingTaken(true, c, s);
    }
    hide AfterInterrupts, Pending;
  }

  lemma {:induction false} RunFurther(hard: bool, c: Config, envs: seq<Env>, env: Env, s: State)
    requires Run(hard, c, envs, s).Some?
    requires Run(hard, c, envs, s).value.status == Okay || Run(hard, c, envs, s).value.status == Trapped
    ensures Run(hard, c, envs + [env], s) == Run(hard, c, [env], Run(hard, c, envs, s).value.state)
  {
    hide Step;
    if envs == [] {
      assert envs + [env] == [env];
    } else {
      assert (envs + [env])[1..] == envs[1..] + [env];
      RunFurther(hard, c, envs[1..], env, Step(hard, c, envs[0], s).value.state);
    }
  }
}
