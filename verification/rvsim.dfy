// tools/rvsim.c: the simulator itself, which updates registers, memory and control state in place.
// Every method does what the machine of RvMachine does when it keeps writes to x0 until the next step,
// and the runs are those of the machine whose x0 is hard-wired.
module Rvsim {
  import opened Binary
  import opened MachineInts
  import opened MultiplyDivide
  import opened Options
  import opened RvMachine
  import opened RvTheory
  import opened RvTraps

  // What memrw reports: a trap is named by its number
  datatype Outcome = Done | Raises(trap: nat) | Ends | Strays

  class Rv {
    const c: Config
    const regs: array<Int32>
    const mem: array<U8>
    var pc: Int32
    var prevPc: Int32
    var csr: Csr
    var irq: Latches
    var timeWritten: bool
    var env: Env

    ghost predicate Valid() { regs.Length == 32 }

    ghost function St(): State
      requires Valid()
      reads this, regs, mem
    {
      State(pc, prevPc, regs[..], csr, mem[..], irq, timeWritten)
    }

    // The program has been loaded into mem
    constructor (c: Config, env: Env, csr: Csr, mem: array<U8>)
      ensures Valid() && fresh(regs) && this.c == c && this.env == env && this.mem == mem
      ensures St() == State(c.base, c.base, seq(32, _ => 0), csr, mem[..],
                            Latches(false, false, false, false, false), false)
    {
      this.c, this.env, this.csr, this.mem := c, env, csr, mem;
      regs := new Int32[32](_ => 0);
      pc, prevPc, irq, timeWritten := c.base, c.base, Latches(false, false, false, false, false), false;
    }

    method ReadRegs(n: Index) returns (v: Int32)
      requires Valid()
      ensures v == Reg(false, St(), n)
    {
      v := regs[n];
    }

    method WriteRegs(n: Index, v: Int32)
      requires Valid()
      modifies regs
      ensures St() == SetReg(false, old(St()), n, v)
    {
      regs[n] := v;
    }

    method AddCycles(count: int)
      requires Valid()
      modifies `csr
      ensures St() == CycleAdd(old(St()), count)
    {
      csr := csr.(cycle := csr.cycle + count);
      if !timeWritten {
        csr := csr.(mtime := csr.mtime + count);
      }
    }

    method Trap(cause: nat, val: Int32)
      requires Valid()
      modifies `csr, `pc
      ensures St() == TrapTo(c, old(St()), cause, val)
    {
      hide Wrap, Has, WithBit, WithoutBit, CycleAdd;
      AddCycles(c.penalty);
      csr := csr.(mcause := Wrap(cause));
      csr := csr.(mstatus :=
        if Has(csr.mstatus, MIE) then WithBit(csr.mstatus, MPIE) else WithoutBit(csr.mstatus, MPIE));
      csr := csr.(mstatus := WithoutBit(csr.mstatus, MIE));
      csr := csr.(mepc := prevPc);
      csr := csr.(mtval := val);
      pc := if csr.mtvec % 2 == 1 then Wrap(csr.mtvec - 1 + cause * 4) else csr.mtvec;
    }

    method EnterInterrupt(number: nat)
      requires Valid()
      modifies `csr, `pc
      ensures St() == IntTo(c, old(St()), number)
    {
      hide Wrap, Has, WithBit, WithoutBit, CycleAdd;
      if pc == Wrap(prevPc + 4) {
        AddCycles(c.penalty);
      }
      csr := csr.(mcause := Wrap(0x8000_0000 + number));
      csr := csr.(mstatus :=
        if Has(csr.mstatus, MIE) then WithBit(csr.mstatus, MPIE) else WithoutBit(csr.mstatus, MPIE));
      csr := csr.(mstatus := WithoutBit(csr.mstatus, MIE));
      csr := csr.(mip := WithBit(csr.mip, number));
      csr := csr.(mepc := pc);
      pc := if csr.mtvec % 2 == 1 then Wrap(csr.mtvec - 1 + number * 4) else csr.mtvec;
    }

    method EnterInterrupts()
      requires Valid()
      modifies `csr, `pc
      ensures St() == TakeInterrupts(c, old(St()))
    {
      hide Has, IntTo;
      if irq.timer && Has(csr.mstatus, MIE) {
        EnterInterrupt(TIMER);
      }
      if irq.swNext && Has(csr.mstatus, MIE) {
        EnterInterrupt(SOFTWARE);
      }
      if irq.extNext && Has(csr.mstatus, MIE) {
        EnterInterrupt(EXTERNAL);
      }
    }

    // A step as far as the fetch
    method Begin()
      requires Valid()
      modifies `csr, `pc, `timeWritten, regs
      ensures St() == Begun(false, c, old(St()))
    {
      hide TakeInterrupts, TrapTo, Wrap;
      timeWritten := false;
      WriteRegs(0, 0);
      EnterInterrupts();
      if pc >= Wrap(c.base + mem.Length) || pc < c.base {
        Trap(1, pc);
      }
      if pc % 4 != 0 {
        Trap(0, pc);
      }
    }

    method Latch(inst: U32)
      requires Valid()
      modifies `irq
      ensures St() == old(St()).(irq := Latched(old(St()), inst))
    {
      hide Has, Opcode;
      var open := Has(csr.mstatus, MIE) && Opcode(inst) != SYSTEM;
      var timer := csr.mtime >= csr.mtimecmp && open && Has(csr.mie, MTIE);
      var swNext := irq.sw && open && Has(csr.mie, MSIE);
      var extNext := irq.ext && open && Has(csr.mie, MEIE);
      irq := Latches(timer, Has(csr.msip, 0), swNext, Has(csr.msip, 16), extNext);
    }

    method CountStep(inst: U32)
      requires Valid()
      modifies `csr, `irq, `prevPc
      ensures St() == Counted(old(St()), inst)
    {
      hide Latched;
      Latch(inst);
      csr := csr.(time := csr.time + 1);
      csr := csr.(instret := csr.instret + 1);
      AddCycles(1);
      prevPc := pc;
    }

    // When the test lets through what is not inside, the source copies what lies beyond its buffer
    method ReadMem(address: Int32, len: nat) returns (reach: Reach, data: nat)
      requires Valid()
      ensures reach == Reached(c, mem[..], address, len)
      ensures reach.Inside? ==> data == Bytes(mem[..], address - c.base, len)
    {
      hide Wrap;
      data := 0;
      if address < c.base || Wrap(address + len) > Wrap(c.base + mem.Length) {
        return Refused, data;
      }
      if address + len > c.base + mem.Length {
        return Outside, data;
      }
      var dst: seq<U8> := [];
      for i := 0 to len
        invariant dst == mem[address - c.base..address - c.base + i]
      {
        dst := dst + [mem[address - c.base + i]];
      }
      BytesAreSlice(mem[..], address - c.base, len);
      assert dst == mem[..][address - c.base..address - c.base + len];
      return Inside, FromBytes(dst);
    }

    method WriteMem(address: Int32, len: nat, data: nat) returns (reach: Reach)
      requires Valid()
      modifies mem
      ensures reach == Reached(c, old(mem[..]), address, len)
      ensures mem[..] == if reach.Inside? then Stores(old(mem[..]), address - c.base, data, len) else old(mem[..])
    {
      hide Wrap;
      if address < c.base || Wrap(address + len) > Wrap(c.base + mem.Length) {
        return Refused;
      }
      if address + len > c.base + mem.Length {
        return Outside;
      }
      var src, k := ToBytes(data, len), address - c.base;
      for i := 0 to len
        invariant forall j | 0 <= j < mem.Length :: mem[j] == if k <= j < k + i then src[j - k] else old(mem[j])
      {
        mem[k + i] := src[i];
      }
      assert mem[..] == Stores(old(mem[..]), k, data, len);
      return Inside;
    }

    method Advance()
      requires Valid()
      modifies `pc
      ensures St() == Next(old(St()))
    {
      pc := Wrap(pc + 4);
    }

    // srv32_write_regs for the result of an instruction that is not a jump
    method Finish(rd: Index, v: Int32) returns (status: Status)
      requires Valid()
      modifies `pc, regs
      ensures Result(St(), status) == Result(Next(SetReg(false, old(St()), rd, v)), Okay)
    {
      WriteRegs(rd, v);
      Advance();
      status := Okay;
    }

    method Refuse(i: U32) returns (status: Status)
      requires Valid()
      modifies `csr, `pc
      ensures Result(St(), status) == Illegal(c, old(St()), i)
    {
      Trap(2, Wrap(i));
      status := Trapped;
    }

    method DoJump(i: U32) returns (status: Status)
      requires Valid()
      requires Opcode(i) == JAL || Opcode(i) == JALR
      modifies `pc, `csr, regs
      ensures Result(St(), status) == Jump(false, c, old(St()), i)
    {
      hide ImmJ, ImmI, CycleAdd, Rd, Rs1, Wrap;
      var pcOld: int := pc;
      if Opcode(i) == JAL {
        WrapSame(pc);
        pc := Wrap(pc + ImmJ(i));
        if ImmJ(i) == 0 {
          return Exited;
        }
      } else {
        var base := ReadRegs(Rs1(i));
        var pcNew := Wrap(base + ImmI(i));
        pc := pcNew;
        if pcNew == pcOld {
          return Exited;
        }
      }
      pc := pc - pc % 2;
      if pc % 4 != 0 {
        return Okay;
      }
      WriteRegs(Rd(i), Wrap(pcOld + 4));
      AddCycles(c.penalty);
      return Okay;
    }

    method DoBranch(i: U32) returns (status: Status)
      requires Valid()
      modifies `pc, `csr
      ensures Result(St(), status) == Branch(false, c, old(St()), i)
    {
      hide ImmB, CycleAdd, Rs1, Rs2, Wrap, Func3;
      var a := ReadRegs(Rs1(i));
      var b := ReadRegs(Rs2(i));
      var taken;
      match Func3(i) {
        case 0 => taken := a == b;
        case 1 => taken := a != b;
        case 4 => taken := a < b;
        case 5 => taken := a >= b;
        case 6 => taken := Unsigned(a) < Unsigned(b);
        case 7 => taken := Unsigned(a) >= Unsigned(b);
        case _ =>
          status := Refuse(i);
          return;
      }
      if taken {
        pc := Wrap(pc + ImmB(i));
        if (!c.predict || ImmB(i) > 0) && pc % 4 == 0 {
          AddCycles(c.penalty);
        }
      } else {
        Advance();
      }
      status := Okay;
    }

    // memrw for loads
    method MemrwLoad(op: nat, address: Int32) returns (outcome: Outcome, val: Int32)
      requires Valid()
      ensures var len := AccessLength(op);
        if op == 3 || op > 5 then outcome == Raises(2)
        else if address % len != 0 then outcome == Raises(4)
        else match Reached(c, mem[..], address, len)
          case Inside => outcome == Done && val == Extended(op, Bytes(mem[..], address - c.base, len))
          case Outside => outcome == Strays
          case Refused =>
            match env.load(csr, address)
            case LoadFails => outcome == Raises(5)
            case LoadGives(data) => outcome == Done && val == Extended(op, Unsigned(data))
    {
      hide Extended, Bytes, Reached;
      val := 0;
      if op == 3 || op > 5 {
        return Raises(2), val;
      }
      var len := AccessLength(op);
      if address % len != 0 {
        return Raises(4), val;
      }
      var reach, data := ReadMem(address, len);
      if reach.Outside? {
        return Strays, val;
      }
      if reach.Refused? {
        match env.load(csr, address) {
          case LoadFails => return Raises(5), val;
          case LoadGives(d) => data := Unsigned(d);
        }
      }
      return Done, Extended(op, data);
    }

    method DoLoad(i: U32) returns (status: Status)
      requires Valid()
      modifies `pc, `csr, regs
      ensures Result(St(), status) == Load(false, c, env, old(St()), i)
    {
      hide Extended, Bytes, Reached, Wrap, ImmI, Rd, Rs1, Func3, TrapTo, Illegal, CycleAdd, AccessLength;
      var base := ReadRegs(Rs1(i));
      var address := Wrap(base + ImmI(i));
      var outcome, data := MemrwLoad(Func3(i), address);
      if c.singleRam {
        AddCycles(1);
      }
      match outcome {
        case Strays => return Strayed;
        case Done => status := Finish(Rd(i), data);
        case Raises(trap) =>
          if trap == 2 {
            status := Refuse(i);
          } else {
            Trap(trap, address);
            status := Trapped;
          }
      }
    }

    static function Reported(status: StoreStatus): Outcome {
      match status
      case Stored => Done
      case StoreExits => Ends
      case StoreFails => Raises(7)
    }

    // What the host writes to memory, if anything
    method Overwrite(m: seq<U8>)
      requires Valid()
      modifies mem
      ensures mem[..] == if |m| == mem.Length then m else old(mem[..])
    {
      if |m| == mem.Length {
        forall k | 0 <= k < mem.Length {
          mem[k] := m[k];
        }
      }
    }

    method StoreDevice(address: Int32, data: Int32, len: nat) returns (outcome: Outcome)
      requires Valid()
      modifies mem, `csr, `timeWritten
      ensures var r := env.store(old(csr), old(mem[..]), address, data, len);
        outcome == Reported(r.status) && St() == Devices(old(St()), r)
    {
      var r := env.store(csr, mem[..], address, data, len);
      csr := csr.(mtime := r.mtime, mtimecmp := r.mtimecmp, msip := r.msip);
      timeWritten := timeWritten || r.timeWritten;
      Overwrite(r.mem);
      outcome := Reported(r.status);
    }

    // memrw for stores; a request to exit is reported by the same number as an illegal instruction
    method MemrwStore(op: nat, address: Int32, data: Int32) returns (outcome: Outcome)
      requires Valid()
      modifies mem, `csr, `timeWritten
      ensures var len, s := AccessLength(op), old(St());
        if op > 2 then outcome == Raises(2) && St() == s
        else if address % len != 0 then outcome == Raises(6) && St() == s
        else match Reached(c, s.mem, address, len)
          case Inside =>
            outcome == Done && St() == s.(mem := Stores(s.mem, address - c.base, Unsigned(data), len))
          case Outside => outcome == Strays && St() == s
          case Refused =>
            if address == MMIO_EXIT then outcome == Raises(2) && St() == s
            else
              var r := env.store(s.csr, s.mem, address, data, len);
              outcome == Reported(r.status) && St() == Devices(s, r)
    {
      hide Reached, Stores;
      if op > 2 {
        return Raises(2);
      }
      var len := AccessLength(op);
      if address % len != 0 {
        return Raises(6);
      }
      var reach := WriteMem(address, len, Unsigned(data));
      if reach.Outside? {
        return Strays;
      }
      if reach.Refused? {
        if address == MMIO_EXIT {
          return Raises(2);
        }
        outcome := StoreDevice(address, data, len);
        return;
      }
      return Done;
    }

    method DoStore(i: U32) returns (status: Status)
      requires Valid()
      modifies `pc, `csr, `timeWritten, mem
      ensures Result(St(), status) == Store(false, c, env, old(St()), i)
    {
      hide Reached, Stores, Wrap, ImmS, Rs1, Rs2, Func3, TrapTo, Illegal, CycleAdd, AccessLength, Devices;
      var base := ReadRegs(Rs1(i));
      var address := Wrap(base + ImmS(i));
      var data := ReadRegs(Rs2(i));
      var outcome := MemrwStore(Func3(i), address, data);
      if c.singleRam {
        AddCycles(1);
      }
      match outcome {
        case Strays => return Strayed;
        case Ends => return Exited;
        case Done =>
          Advance();
          return Okay;
        case Raises(trap) =>
          if trap == 2 {
            status := Refuse(i);
          } else {
            Trap(trap, address);
            status := Trapped;
          }
      }
    }

    method DoArithmetic(i: U32) returns (status: Status)
      requires Valid()
      modifies `pc, `csr, regs
      ensures Result(St(), status) == Arithmetic(false, c, old(St()), i)
    {
      hide ImmediateValue, RegisterValue, Rd, Rs1, Rs2;
      var a := ReadRegs(Rs1(i));
      var v;
      if Opcode(i) == ARITHI {
        v := ImmediateValue(i, a);
      } else {
        var b := ReadRegs(Rs2(i));
        v := RegisterValue(i, a, b);
      }
      match v {
        case None => status := Refuse(i);
        case Some(x) => status := Finish(Rd(i), x);
      }
    }

    // csr_rw and the write of its result
    method DoCsr(i: U32) returns (status: Status)
      requires Valid()
      modifies `pc, `csr, regs
      ensures Result(St(), status) == CsrAccess(false, c, old(St()), i)
    {
      hide CsrRead, CsrWrite, Updated, Rd, Rs1, Func3;
      var f, n := Func3(i), i / 0x10_0000;
      var val: int;
      if f >= 4 {
        val := Rs1(i);
      } else {
        val := ReadRegs(Rs1(i));
      }
      match CsrRead(csr, n) {
        case None =>
          Trap(2, 0);
          status := Trapped;
        case Some(x) =>
          if f % 4 == 1 || Rs1(i) != 0 {
            csr := CsrWrite(csr, n, Updated(f % 4, x, val));
          }
          status := Finish(Rd(i), x);
      }
    }

    method DoSystem(i: U32) returns (status: Status)
      requires Valid()
      modifies `pc, `csr, regs, mem
      ensures Result(St(), status) == System(false, c, env, old(St()), i)
    {
      hide CsrAccess, TrapTo, Illegal, Func3, CycleAdd, WithBit, WithoutBit, Has;
      if Func3(i) == 0 {
        var f := i / 0x10_0000 % 4;
        if f == 0 {
          var exits := Call();
          if exits {
            return Exited;
          }
          Trap(11, 0);
          status := Trapped;
        } else if f == 1 {
          Trap(3, pc);
          status := Trapped;
        } else if f == 2 {
          pc := csr.mepc;
          csr := csr.(mstatus :=
            if Has(csr.mstatus, MPIE) then WithBit(csr.mstatus, MIE) else WithoutBit(csr.mstatus, MIE));
          if pc % 4 == 0 {
            AddCycles(c.penalty);
          }
          status := Okay;
        } else {
          Trap(2, 0);
          status := Trapped;
        }
      } else if Func3(i) == 4 {
        status := Refuse(i);
      } else {
        status := DoCsr(i);
      }
    }

    // The system call, which may change memory and end the program
    method Call() returns (exits: bool)
      requires Valid()
      modifies regs, mem
      ensures var r := env.call(Arguments(old(St())), old(mem[..]));
        exits == r.exits && St() == if exits then old(St()) else Called(old(St()), r)
    {
      var r := env.call([regs[17], regs[10], regs[11], regs[12], regs[13], regs[14], regs[15]], mem[..]);
      if r.exits {
        return true;
      }
      Overwrite(r.mem);
      if r.res != -1 {
        regs[A0] := r.res;
      }
      return false;
    }

    // The switch on the opcode
    method ExecuteInst(i: U32) returns (status: Status)
      requires Valid()
      modifies `pc, `csr, `timeWritten, regs, mem
      ensures Result(St(), status) == Execute(false, c, env, old(St()), i)
    {
      hide Opcode, Rd, ImmU, Wrap, Jump, Branch, Load, Store, Arithmetic, System, Illegal;
      var op := Opcode(i);
      if op == LUI {
        status := Finish(Rd(i), ImmU(i));
      } else if op == AUIPC {
        status := Finish(Rd(i), Wrap(pc + ImmU(i)));
      } else if op == JAL || op == JALR {
        status := DoJump(i);
      } else if op == BRANCH {
        status := DoBranch(i);
      } else if op == LOAD {
        status := DoLoad(i);
      } else if op == STORE {
        status := DoStore(i);
      } else if op == ARITHI || op == ARITHR {
        status := DoArithmetic(i);
      } else if op == FENCE {
        Advance();
        status := Okay;
      } else if op == SYSTEM {
        status := DoSystem(i);
      } else {
        status := Refuse(i);
      }
    }

    // srv32_step. There must be a word to fetch once the traps of the fetch have been taken. Whatever
    // state with the same x1 to x31 and the like the hard-wired machine starts from, it comes to one
    // that is the same as this in turn.
    method StepOnce() returns (status: Status)
      requires Valid() && Step(false, c, env, St()).Some?
      modifies `pc, `prevPc, `csr, `irq, `timeWritten, regs, mem
      ensures Step(false, c, env, old(St())) == Some(Result(St(), status))
      ensures forall t | Same(old(St()), t) :: SameOption(Some(Result(St(), status)), Step(true, c, env, t))
    {
      hide Begun, Execute, Counted, Reached, Same, SameOption;
      Begin();
      var k := pc - c.base;
      var b0: int, b1: int, b2: int, b3: int := mem[k], mem[k + 1], mem[k + 2], mem[k + 3];
      var inst := b0 + 0x100 * b1 + 0x1_0000 * b2 + 0x100_0000 * b3;
      assert inst == WordAt(mem[..], k);
      CountStep(inst);
      status := ExecuteInst(inst);
      forall t | Same(old(St()), t)
        ensures SameOption(Some(Result(St(), status)), Step(true, c, env, t))
      {
        SameStep(c, env, old(St()), t);
      }
    }

    // The execution loop, with the outside world of each step; it leaves early when the program exits
    // or strays. The end is that of the run of the hard-wired machine.
    method Simulate(envs: seq<Env>) returns (status: Status)
      requires Valid() && Run(false, c, envs, St()).Some?
      modifies this, regs, mem
      ensures Run(false, c, envs, old(St())) == Some(Result(St(), status))
      ensures forall t | Same(old(St()), t) :: SameOption(Some(Result(St(), status)), Run(true, c, envs, t))
    {
      hide Step, Same, SameOption;
      forall t | Same(old(St()), t)
        ensures SameOption(Run(false, c, envs, old(St())), Run(true, c, envs, t))
      {
        LazyZeroRefines(c, envs, old(St()), t);
      }
      for k := 0 to |envs|
        invariant Run(false, c, envs[k..], St()) == Run(false, c, envs, old(St()))
      {
        env := envs[k];
        assert envs[k..][0] == env && envs[k..][1..] == envs[k + 1..];
        status := StepOnce();
        if status == Exited || status == Strayed {
          return;
        }
      }
      status := Okay;
    }
  }

  lemma WrapSame(x: Int32)
    ensures Wrap(x) == x && Wrap(x + 0) == x
  {
  }
}
