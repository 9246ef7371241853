// What a program of the machine of tools/rvsim.c notices of an interrupt: nothing, on runs of any
// length, as long as it uses neither system instructions nor devices.
module RvViews {
  import opened MachineInts
  import opened MultiplyDivide
  import opened Options
  import opened RvMachine
  import opened RvRuns
  import opened RvTheory
  import opened RvTraps

  // What a program can see without system instructions and devices

  datatype View = View(pc: Int32, regs: Registers, mem: seq<U8>, mtvec: Int32)

  function Seen(s: State): View { View(s.pc, s.regs, s.mem, s.csr.mtvec) }

  ghost predicate SeenAlike(a: Result, b: Result) { a.status == b.status && Seen(a.state) == Seen(b.state) }

  ghost predicate RunsAlike(a: Option<Result>, b: Option<Result>) {
    match a
    case None => b.None?
    case Some(x) => b.Some? && SeenAlike(x, b.value)
  }

  // Loads and stores that go to memory
  predicate ToMemory(c: Config, s: State, i: U32) {
    && (Opcode(i) == LOAD ==>
      !Reached(c, s.mem, Wrap(Reg(true, s, Rs1(i)) + ImmI(i)), AccessLength(Func3(i))).Refused?)
    && (Opcode(i) == STORE ==>
      !Reached(c, s.mem, Wrap(Reg(true, s, Rs1(i)) + ImmS(i)), AccessLength(Func3(i))).Refused?)
  }

  lemma SeenParts(s: State, t: State)
    requires Seen(s) == Seen(t)
    ensures s.pc == t.pc && s.regs == t.regs && s.mem == t.mem && s.csr.mtvec == t.csr.mtvec
  {
  }

  lemma SeenReg(s: State, t: State, n: Index)
    requires Seen(s) == Seen(t)
    ensures Reg(true, s, n) == Reg(true, t, n)
  {
  }

  lemma SeenNext(s: State, t: State, n: Index, v: Int32)
    requires Seen(s) == Seen(t)
    ensures SeenAlike(Result(Next(SetReg(true, s, n, v)), Okay), Result(Next(SetReg(true, t, n, v)), Okay))
  {
    hide Wrap;
  }

  lemma SeenTrap(c: Config, s: State, t: State, cause: nat, val: Int32)
    requires Seen(s) == Seen(t)
    ensures Seen(TrapTo(c, s, cause, val)) == Seen(TrapTo(c, t, cause, val))
    ensures SeenAlike(Result(TrapTo(c, s, cause, val), Trapped), Result(TrapTo(c, t, cause, val), Trapped))
  {
    TrapToState(c, s, cause, val);
    TrapToState(c, t, cause, val);
    hide TrapTo, Vector, Entered;
  }

  lemma SeenIllegal(c: Config, s: State, t: State, i: U32)
    requires Seen(s) == Seen(t)
    ensures SeenAlike(Illegal(c, s, i), Illegal(c, t, i))
  {
    hide TrapTo, Seen;
    SeenTrap(c, s, t, 2, Wrap(i));
  }

  lemma SeenRamCycle(c: Config, s: State, t: State)
    requires Seen(s) == Seen(t)
    ensures Seen(RamCycle(c, s)) == Seen(RamCycle(c, t))
  {
  }

  lemma SeenJumped(c: Config, s: State, t: State, rd: Index, target: Int32)
    requires Seen(s) == Seen(t)
    ensures SeenAlike(Jumped(true, c, s, rd, target), Jumped(true, c, t, rd, target))
  {
    hide Wrap;
  }

  lemma SeenJump(c: Config, s: State, t: State, i: U32)
    requires Seen(s) == Seen(t)
    ensures SeenAlike(Jump(true, c, s, i), Jump(true, c, t, i))
  {
    hide Jumped, Reg, ImmI, ImmJ, Rd, Rs1, Wrap, Opcode;
    SeenReg(s, t, Rs1(i));
    if Opcode(i) == JAL {
      SeenJumped(c, s, t, Rd(i), Wrap(s.pc + ImmJ(i)));
    } else {
      SeenJumped(c, s, t, Rd(i), Wrap(Reg(true, s, Rs1(i)) + ImmI(i)));
    }
  }

  lemma SeenBranched(c: Config, s: State, t: State, offset: Int32)
    requires Seen(s) == Seen(t)
    ensures SeenAlike(Branched(c, s, offset), Branched(c, t, offset))
  {
    hide Wrap;
  }

  lemma SeenBranch(c: Config, s: State, t: State, i: U32)
    requires Seen(s) == Seen(t)
    ensures SeenAlike(Branch(true, c, s, i), Branch(true, c, t, i))
  {
    hide Branched, Reg, Taken, Illegal, ImmB, Rs1, Rs2, Func3, Wrap;
    SeenReg(s, t, Rs1(i));
    SeenReg(s, t, Rs2(i));
    SeenIllegal(c, s, t, i);
    SeenBranched(c, s, t, ImmB(i));
  }

  lemma SeenLoad(c: Config, env: Env, other: Env, s: State, t: State, i: U32)
    requires Seen(s) == Seen(t) && Opcode(i) == LOAD && ToMemory(c, s, i)
    ensures SeenAlike(Load(true, c, env, s, i), Load(true, c, other, t, i))
  {
    hide Seen, SeenAlike, Reg, SetReg, TrapTo, Illegal, Extended, RamCycle, Next, Bytes, Reached, Wrap, Rd, Rs1, ImmI,
      Func3, AccessLength, Opcode;
    SeenParts(s, t);
    SeenReg(s, t, Rs1(i));
    var f, address := Func3(i), Wrap(Reg(true, s, Rs1(i)) + ImmI(i));
    var u, v := RamCycle(c, s), RamCycle(c, t);
    var len := AccessLength(f);
    SeenRamCycle(c, s, t);
    if f == 3 || f > 5 {
      SeenIllegal(c, u, v, i);
    } else if address % len != 0 {
      SeenTrap(c, u, v, 4, address);
    } else if Reached(c, s.mem, address, len).Inside? {
      SeenNext(u, v, Rd(i), Extended(f, Bytes(s.mem, address - c.base, len)));
    } else {
      SeenStatus(u, v, Strayed);
    }
  }

  lemma SeenStatus(s: State, t: State, status: Status)
    requires Seen(s) == Seen(t)
    ensures SeenAlike(Result(s, status), Result(t, status))
  {
  }

  lemma SeenStored(c: Config, s: State, t: State, mem: seq<U8>)
    requires Seen(s) == Seen(t)
    ensures SeenAlike(Result(Next(RamCycle(c, s.(mem := mem))), Okay), Result(Next(RamCycle(c, t.(mem := mem))), Okay))
  {
    hide Wrap;
  }

  lemma SeenStore(c: Config, env: Env, other: Env, s: State, t: State, i: U32)
    requires Seen(s) == Seen(t) && Opcode(i) == STORE && ToMemory(c, s, i)
    ensures SeenAlike(Store(true, c, env, s, i), Store(true, c, other, t, i))
  {
    hide Seen, SeenAlike, Reg, TrapTo, Illegal, RamCycle, Next, Stores, Reached, Wrap, Rs1, Rs2, ImmS, Func3,
      AccessLength, Opcode, StoreOutside;
    SeenParts(s, t);
    SeenReg(s, t, Rs1(i));
    SeenReg(s, t, Rs2(i));
    var f, address := Func3(i), Wrap(Reg(true, s, Rs1(i)) + ImmS(i));
    var u, v := RamCycle(c, s), RamCycle(c, t);
    var len := AccessLength(f);
    SeenRamCycle(c, s, t);
    if f > 2 {
      SeenIllegal(c, u, v, i);
    } else if address % len != 0 {
      SeenTrap(c, u, v, 6, address);
    } else if Reached(c, s.mem, address, len).Inside? {
      SeenStored(c, s, t, Stores(s.mem, address - c.base, Unsigned(Reg(true, s, Rs2(i))), len));
    } else {
      SeenStatus(u, v, Strayed);
    }
  }

  lemma SeenArithmetic(c: Config, s: State, t: State, i: U32)
    requires Seen(s) == Seen(t)
    ensures SeenAlike(Arithmetic(true, c, s, i), Arithmetic(true, c, t, i))
  {
    hide Seen, SeenAlike, Reg, SetReg, Next, Illegal, ImmediateValue, RegisterValue, Opcode, Rd, Rs1, Rs2;
    SeenReg(s, t, Rs1(i));
    SeenReg(s, t, Rs2(i));
    SeenIllegal(c, s, t, i);
    var v := if Opcode(i) == ARITHI then ImmediateValue(i, Reg(true, s, Rs1(i)))
             else RegisterValue(i, Reg(true, s, Rs1(i)), Reg(true, s, Rs2(i)));
    if v.Some? {
      SeenNext(s, t, Rd(i), v.value);
    }
  }

  lemma SeenFence(s: State, t: State)
    requires Seen(s) == Seen(t)
    ensures SeenAlike(Result(Next(s), Okay), Result(Next(t), Okay))
  {
  }

  lemma SeenExecute(c: Config, env: Env, other: Env, s: State, t: State, i: U32)
    requires Seen(s) == Seen(t) && Opcode(i) != SYSTEM && ToMemory(c, s, i)
    ensures SeenAlike(Execute(true, c, env, s, i), Execute(true, c, other, t, i))
  {
    hide Seen, SeenAlike, Jump, Branch, Load, Store, Arithmetic, Illegal, Next, SetReg, ImmU, Wrap, Rd, Opcode,
        ToMemory;
    SeenParts(s, t);
    var op := Opcode(i);
    if op == LUI {
      SeenNext(s, t, Rd(i), ImmU(i));
    } else if op == AUIPC {
      SeenNext(s, t, Rd(i), Wrap(s.pc + ImmU(i)));
    } else if op == JAL || op == JALR {
      SeenJump(c, s, t, i);
    } else if op == BRANCH {
      SeenBranch(c, s, t, i);
    } else if op == LOAD {
      SeenLoad(c, env, other, s, t, i);
    } else if op == STORE {
      SeenStore(c, env, other, s, t, i);
    } else if op == ARITHI || op == ARITHR {
      SeenArithmetic(c, s, t, i);
    } else if op == FENCE {
      SeenFence(s, t);
    } else {
      SeenIllegal(c, s, t, i);
    }
  }

  lemma SeenFetchTraps(c: Config, s: State, t: State)
    requires Seen(s) == Seen(t)
    ensures Seen(FetchTraps(c, s)) == Seen(FetchTraps(c, t))
  {
    hide Seen, TrapTo;
    SeenParts(s, t);
    SeenTrap(c, s, t, 1, s.pc);
    var r := if OutOfRange(c, s) then TrapTo(c, s, 1, s.pc) else s;
    var q := if OutOfRange(c, t) then TrapTo(c, t, 1, t.pc) else t;
    SeenParts(r, q);
    SeenTrap(c, r, q, 0, r.pc);
  }

  // No interrupt, and neither a system instruction nor a device
  ghost predicate PlainStep(c: Config, s: State) {
    var b := Begun(true, c, s);
    && !Pending(s)
    && (HasWord(c, b) ==> Opcode(Word(c, b)) != SYSTEM && ToMemory(c, b, Word(c, b)))
  }

  lemma SeenCounted(s: State, t: State, i: U32)
    requires Seen(s) == Seen(t)
    ensures Seen(Counted(s, i)) == Seen(Counted(t, i))
  {
    CountedParts(true, s, i);
    CountedParts(true, t, i);
    hide Counted;
  }

  lemma CountedToMemory(c: Config, s: State, i: U32)
    ensures ToMemory(c, Counted(s, i), i) == ToMemory(c, s, i)
  {
    CountedParts(true, s, i);
    hide Counted, Reached, Reg, Opcode, Func3, Rs1;
  }

  lemma SeenBegun(c: Config, s: State, t: State)
    requires Seen(s) == Seen(t) && !Pending(s) && !Pending(t)
    ensures Seen(Begun(true, c, s)) == Seen(Begun(true, c, t))
  {
    hide AfterInterrupts, FetchTraps, Begun, Pending;
    NothingTaken(true, c, s);
    NothingTaken(true, c, t);
    BegunTraps(true, c, s);
    BegunTraps(true, c, t);
    SeenFetchTraps(c, AfterInterrupts(true, c, s), AfterInterrupts(true, c, t));
  }

  lemma SeenInstruction(c: Config, env: Env, other: Env, b: State, d: State, i: U32)
    requires Seen(b) == Seen(d) && Opcode(i) != SYSTEM && ToMemory(c, b, i)
    ensures SeenAlike(Execute(true, c, env, Counted(b, i), i), Execute(true, c, other, Counted(d, i), i))
  {
    hide Execute, Counted, Seen, SeenAlike, ToMemory, Opcode;
    SeenCounted(b, d, i);
    CountedToMemory(c, b, i);
    SeenExecute(c, env, other, Counted(b, i), Counted(d, i), i);
  }

  lemma StepWithoutWord(c: Config, env: Env, s: State)
    requires !HasWord(c, Begun(true, c, s))
    ensures Step(true, c, env, s) == None
  {
    hide Begun, WordAt, Reached, Execute;
  }

  lemma SeenWord(c: Config, b: State, d: State)
    requires Seen(b) == Seen(d)
    ensures HasWord(c, b) == HasWord(c, d) && (HasWord(c, b) ==> Word(c, b) == Word(c, d))
  {
    hide WordAt, Reached;
  }

  lemma SeenStep(c: Config, env: Env, other: Env, s: State, t: State)
    requires Seen(s) == Seen(t) && PlainStep(c, s) && !Pending(t)
    ensures RunsAlike(Step(true, c, env, s), Step(true, c, other, t))
  {
    hide Begun, Pending, Execute, Counted, HasWord, Word, Step, Seen, SeenAlike, ToMemory, Opcode;
    SeenBegun(c, s, t);
    var b, d := Begun(true, c, s), Begun(true, c, t);
    SeenWord(c, b, d);
    if HasWord(c, b) {
      StepIs(true, c, env, s);
      StepIs(true, c, other, t);
      SeenInstruction(c, env, other, b, d, Word(c, b));
    } else {
      StepWithoutWord(c, env, s);
      StepWithoutWord(c, other, t);
    }
  }

  // A run without interrupts, and one that is plain besides
  ghost predicate Undisturbed(c: Config, envs: seq<Env>, s: State) {
    envs == [] ||
    (&& !Pending(s)
     && var r := Step(true, c, envs[0], s);
        r.Some? && !r.value.status.Exited? && !r.value.status.Strayed? ==> Undisturbed(c, envs[1..], r.value.state))
  }

  ghost predicate PlainRun(c: Config, envs: seq<Env>, s: State) {
    envs == [] ||
    (&& PlainStep(c, s)
     && var r := Step(true, c, envs[0], s);
        r.Some? && !r.value.status.Exited? && !r.value.status.Strayed? ==> PlainRun(c, envs[1..], r.value.state))
  }

  lemma {:induction false} SeenRun(c: Config, envs: seq<Env>, others: seq<Env>, s: State, t: State)
    requires |envs| == |others| && Seen(s) == Seen(t)
    requires PlainRun(c, envs, s) && Undisturbed(c, others, t)
    ensures RunsAlike(Run(true, c, envs, s), Run(true, c, others, t))
  {
    hide Step, Seen, PlainStep, Pending;
    if envs != [] {
      SeenStep(c, envs[0], others[0], s, t);
      var r, q := Step(true, c, envs[0], s), Step(true, c, others[0], t);
      if r.Some? && !r.value.status.Exited? && !r.value.status.Strayed? {
        SeenRun(c, envs[1..], others[1..], r.value.state, q.value.state);
      }
    }
  }

  // The program that is interrupted at s goes on, once the handler has put registers and memory
  // back, as it does from s without any interrupt: every further run of any length ends alike,
  // system instructions, devices and further interrupts excepted
  lemma InterruptIsTransparent(c: Config, envs: seq<Env>, env: Env, s: State, after: seq<Env>, others: seq<Env>)
    requires Pending(s) && Handles(c, envs, s)
    requires var h := Run(true, c, envs, s).value.state; h.regs == s.regs && h.mem == s.mem
    requires var u := s.(irq := Latches(false, false, false, false, false)); PlainRun(c, after, u)
    requires |after| == |others|
    requires var r := Run(true, c, envs + [env], s); r.Some? ==> Undisturbed(c, others, r.value.state)
    ensures var u := s.(irq := Latches(false, false, false, false, false));
      var r := Run(true, c, envs + [env], s);
      r.Some? && RunsAlike(Run(true, c, after, u), Run(true, c, others, r.value.state))
  {
    hide Run, Has, PlainRun, Undisturbed, Handles, RunsAlike;
    InterruptReturns(c, envs, env, s);
    var u := s.(irq := Latches(false, false, false, false, false));
    SeenRun(c, after, others, u, Run(true, c, envs + [env], s).value.state);
  }
}
