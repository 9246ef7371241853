// Loads, stores, control registers and the instructions that trap, as steps of the machine of
// tools/rvsim.c on encoded words.
module RvAccess {
  import opened MachineInts
  import opened MultiplyDivide
  import opened Options
  import opened Powers
  import opened RvMachine
  import opened RvMeaning
  import opened RvRuns
  import opened RvSteps
  import opened RvTraps

  // A trap out of an instruction, n cycles after the step has begun

  lemma TrapFaults(c: Config, b: State, t: State, cause: nat, val: Int32, n: int)
    requires t.prevPc == b.pc && t.regs == b.regs && t.mem == b.mem && t.csr == Ticked(b.csr, n) && !t.timeWritten
    requires cause < 0x8000_0000
    ensures Faults(c, b, Some(Result(TrapTo(c, t, cause, val), Trapped)), cause, val, n)
  {
    hide Entered, Vector, Has, Congruent, Wrap;
    TrapToState(c, t, cause, val);
    TrapCycles(c, t, cause, val);
    VectorIs(b.csr.mtvec, cause);
    WrapBackSigned(cause);
    EnteredBits(b.csr.mstatus, 3);
    EnteredBits(b.csr.mstatus, 7);
    forall j | 0 <= j && j != 3 && j != 7
      ensures Has(Entered(b.csr.mstatus), j) == Has(b.csr.mstatus, j)
    {
      EnteredBits(b.csr.mstatus, j);
    }
  }

  lemma TrapCycles(c: Config, t: State, cause: nat, val: Int32)
    ensures TrapTo(c, t, cause, val).csr.cycle == t.csr.cycle + c.penalty
    ensures TrapTo(c, t, cause, val).csr.instret == t.csr.instret
  {
    hide Entered, Vector, Wrap;
  }

  lemma VectorIs(mtvec: Int32, cause: nat)
    ensures mtvec % 2 == 0 ==> Vector(mtvec, cause) == mtvec
    ensures mtvec % 2 == 1 ==> Congruent(Vector(mtvec, cause), mtvec - 1 + 4 * cause)
  {
    WrapCongruent(mtvec - 1 + cause * 4);
    hide Wrap, Congruent;
  }

  lemma RamTicks(c: Config, b: State, t: State)
    requires t.csr == Ticked(b.csr, 1) && !t.timeWritten
    ensures var u := RamCycle(c, t);
      && u.csr == Ticked(b.csr, if c.singleRam then 2 else 1) && !u.timeWritten
      && u.pc == t.pc && u.prevPc == t.prevPc && u.regs == t.regs && u.mem == t.mem
  {
  }

  lemma EndsAfter(b: State, u: State, rd: Index, v: Int32, n: int)
    requires u.pc == b.pc && u.regs == b.regs && u.mem == b.mem && u.csr == Ticked(b.csr, n)
    ensures Ends(b, Some(Result(Next(SetReg(true, u, rd, v)), Okay)), Following(b.pc), rd, v, n)
  {
    FollowingIs(b.pc);
    hide Wrap, Following, Ticked;
  }

  // Loads

  // Data that fit the width of the load
  lemma ExtendedMeans(func3: nat, data: nat)
    requires func3 in {0, 1, 2, 4, 5}
    requires data < if func3 % 4 == 0 then 0x100 else if func3 % 4 == 1 then 0x1_0000 else 0x1_0000_0000
    ensures var v := Extended(func3, data);
      && (func3 == 0 ==> -0x80 <= v < 0x80 && (v == data || v == data - 0x100))
      && (func3 == 1 ==> -0x8000 <= v < 0x8000 && (v == data || v == data - 0x1_0000))
      && (func3 == 4 || func3 == 5 ==> v == data)
      && (func3 == 2 ==> Natural(v) == data)
  {
    SmallWrap(data);
    SmallWrap(data - 0x100);
    SmallWrap(data - 0x1_0000);
    NaturalWrap(data);
    hide Wrap, Natural;
  }

  // A device may give more than the load asks for: the upper bits are kept unless the sign is negative
  lemma ExtendedDevice(func3: nat, d: Int32)
    requires func3 in {0, 1, 2, 4, 5}
    ensures var v, u := Extended(func3, Unsigned(d)), Natural(d);
      && (func3 == 0 && u % 0x100 >= 0x80 ==> v == u % 0x100 - 0x100)
      && (func3 == 1 && u % 0x1_0000 >= 0x8000 ==> v == u % 0x1_0000 - 0x1_0000)
      && (!(func3 == 0 && u % 0x100 >= 0x80) && !(func3 == 1 && u % 0x1_0000 >= 0x8000) ==> v == d)
  {
    NaturalIs(d);
    WrapBackSigned(d);
    SmallWrap(Natural(d) % 0x100 - 0x100);
    SmallWrap(Natural(d) % 0x1_0000 - 0x1_0000);
    hide Wrap, Unsigned, Natural;
  }

  lemma SmallWrap(x: int)
    ensures -0x8000_0000 <= x < 0x8000_0000 ==> Wrap(x) == x
  {
  }

  lemma NaturalWrap(x: nat)
    ensures x < 0x1_0000_0000 ==> Natural(Wrap(x)) == x
  {
  }

  // What memory holds from place k on, one, two or four bytes
  function Held(mem: seq<U8>, k: nat, len: nat): nat
    requires len in {1, 2, 4} && k + len <= |mem|
  {
    var b0: int := mem[k];
    if len == 1 then b0
    else
      var b1: int := mem[k + 1];
      if len == 2 then b0 + 0x100 * b1
      else var b2: int, b3: int := mem[k + 2], mem[k + 3]; b0 + 0x100 * b1 + 0x1_0000 * b2 + 0x100_0000 * b3
  }

  lemma BytesHeld(mem: seq<U8>, k: nat, len: nat)
    requires len in {1, 2, 4} && k + len <= |mem|
    ensures Bytes(mem, k, len) == Held(mem, k, len)
    ensures Held(mem, k, len) < if len == 1 then 0x100 else if len == 2 then 0x1_0000 else 0x1_0000_0000
  {
    assert Bytes(mem, k + len, 0) == 0;
    assert Bytes(mem, k + len - 1, 1) == mem[k + len - 1];
    if len > 1 {
      assert Bytes(mem, k + len - 2, 2) == mem[k + len - 2] + 256 * Bytes(mem, k + len - 1, 1);
    }
    if len == 4 {
      assert Bytes(mem, k + 1, 3) == mem[k + 1] + 256 * Bytes(mem, k + 2, 2);
    }
  }

  // The word that a step fetches is what a load of four bytes would read there
  lemma FetchedWord(c: Config, s: State)
    requires HasWord(c, s)
    ensures Word(c, s) == Bytes(s.mem, s.pc - c.base, 4) == Held(s.mem, s.pc - c.base, 4)
  {
    BytesHeld(s.mem, s.pc - c.base, 4);
    hide Bytes, Reached;
  }

  lemma LengthIs(func3: nat)
    ensures AccessLength(func3) == if func3 % 4 == 0 then 1 else if func3 % 4 == 1 then 2 else 4
  {
  }

  // The four ways of a load
  lemma ExecutesLoad(c: Config, env: Env, t: State, w: U32, address: Int32, len: nat)
    requires Opcode(w) == LOAD && Func3(w) in {0, 1, 2, 4, 5}
    requires address == Wrap(X(t, Rs1(w)) + ImmI(w)) && len == AccessLength(Func3(w))
    ensures var r, u := Execute(true, c, env, t, w), RamCycle(c, t);
      && (address % len != 0 ==> r == Result(TrapTo(c, u, 4, address), Trapped))
      && (address % len == 0 ==>
        match Reached(c, t.mem, address, len)
        case Inside =>
          var v := Extended(Func3(w), Bytes(t.mem, address - c.base, len));
          r == Result(Next(SetReg(true, u, Rd(w), v)), Okay)
        case Outside => r.status == Strayed
        case Refused =>
          match env.load(t.csr, address)
          case LoadFails => r == Result(TrapTo(c, u, 5, address), Trapped)
          case LoadGives(d) => r == Result(Next(SetReg(true, u, Rd(w), Extended(Func3(w), Unsigned(d)))), Okay))
  {
    hide Opcode, Func3, Rs1, Rd, ImmI, Wrap, Reached, Bytes, Extended, SetReg, Next, TrapTo, RamCycle, AccessLength;
  }

  // LB, LH, LW, LBU and LHU
  lemma LoadSteps(c: Config, env: Env, s: State, rd: Index, func3: nat, rs1: Index, imm: int)
      returns (address: Int32, v: Int32)
    requires func3 in {0, 1, 2, 4, 5} && -0x800 <= imm < 0x800 && Runs(c, s, EncodeI(0x03, rd, func3, rs1, imm))
    ensures Congruent(address, X(Begun(true, c, s), rs1) + imm)
    ensures var b, r := Begun(true, c, s), Step(true, c, env, s);
      var len := if func3 % 4 == 0 then 1 else if func3 % 4 == 1 then 2 else 4;
      var n := if c.singleRam then 2 else 1;
      && (address % len != 0 ==> Faults(c, b, r, 4, address, n))
      && (address % len == 0 && Reached(c, b.mem, address, len).Inside? ==>
        var held := Held(b.mem, address - c.base, len);
        && Ends(b, r, Following(b.pc), rd, v, n)
        && (func3 == 0 ==> -0x80 <= v < 0x80 && (v == held || v == held - 0x100))
        && (func3 == 1 ==> -0x8000 <= v < 0x8000 && (v == held || v == held - 0x1_0000))
        && (func3 == 4 || func3 == 5 ==> v == held)
        && (func3 == 2 ==> Natural(v) == held))
      && (address % len == 0 && Reached(c, b.mem, address, len).Refused? ==>
        match env.load(Ticked(b.csr, 1), address)
        case LoadFails => Faults(c, b, r, 5, address, n)
        case LoadGives(d) => Ends(b, r, Following(b.pc), rd, v, n) && (func3 == 2 ==> v == d))
  {
    hide Begun, Step, Runs, Execute, Counted, EncodeI, Opcode, Func3, Rd, Rs1, ImmI, Wrap, Reached, Bytes, Extended,
      SetReg, Next, TrapTo, RamCycle, AccessLength, Held, Natural, Congruent, Ticked, Ends, Faults, Following, Unsigned;
    var w := EncodeI(0x03, rd, func3, rs1, imm);
    DecodeI(0x03, rd, func3, rs1, imm);
    StepRuns(c, env, s, w);
    var b := Begun(true, c, s);
    var t := Counted(b, w);
    var u, n := RamCycle(c, t), if c.singleRam then 2 else 1;
    RamTicks(c, b, t);
    LengthIs(func3);
    var len := AccessLength(func3);
    address := Wrap(X(b, rs1) + imm);
    WrapCongruent(X(b, rs1) + imm);
    ExecutesLoad(c, env, t, w, address, len);
    v := 0;
    if address % len != 0 {
      TrapFaults(c, b, u, 4, address, n);
    } else if Reached(c, b.mem, address, len).Inside? {
      var k := address - c.base;
      BytesHeld(b.mem, k, len);
      ExtendedMeans(func3, Held(b.mem, k, len));
      v := Extended(func3, Bytes(b.mem, k, len));
      EndsAfter(b, u, rd, v, n);
    } else if Reached(c, b.mem, address, len).Refused? {
      match env.load(t.csr, address)
      case LoadFails => TrapFaults(c, b, u, 5, address, n);
      case LoadGives(d) =>
        ExtendedDevice(func3, d);
        v := Extended(func3, Unsigned(d));
        EndsAfter(b, u, rd, v, n);
    }
  }

  // Stores

  // memory after a store of the low bytes of u
  ghost predicate Stored(was: seq<U8>, mem: seq<U8>, k: nat, len: nat, u: nat) {
    && |mem| == |was|
    && forall j | 0 <= j < |mem| :: mem[j] ==
         if j == k then u % 0x100
         else if j == k + 1 && len >= 2 then u / 0x100 % 0x100
         else if j == k + 2 && len == 4 then u / 0x1_0000 % 0x100
         else if j == k + 3 && len == 4 then u / 0x100_0000 % 0x100
         else was[j]
  }

  lemma ByteOf(u: nat)
    ensures u / 0x100 / 0x100 == u / 0x1_0000 && u / 0x1_0000 / 0x100 == u / 0x100_0000
  {
  }

  lemma StoresStored(mem: seq<U8>, k: nat, u: nat, len: nat)
    requires len in {1, 2, 4} && k + len <= |mem|
    ensures Stored(mem, Stores(mem, k, u, len), k, len, u)
  {
    ByteOf(u);
    var b := ToBytes(u, len);
    assert b[0] == u % 256;
    if len >= 2 {
      assert b[1] == ToBytes(u / 256, len - 1)[0] == u / 256 % 256;
    }
    if len == 4 {
      assert ToBytes(u / 256, 3)[1] == ToBytes(u / 256 / 256, 2)[0];
      assert ToBytes(u / 256, 3)[2] == ToBytes(u / 256 / 256, 2)[1] == ToBytes(u / 256 / 256 / 256, 1)[0];
    }
    hide ToBytes;
  }

  lemma ExecutesStore(c: Config, env: Env, t: State, w: U32, address: Int32, len: nat)
    requires Opcode(w) == STORE && Func3(w) < 3
    requires address == Wrap(X(t, Rs1(w)) + ImmS(w)) && len == AccessLength(Func3(w))
    ensures var r, y := Execute(true, c, env, t, w), X(t, Rs2(w));
      && (address % len != 0 ==> r == Result(TrapTo(c, RamCycle(c, t), 6, address), Trapped))
      && (address % len == 0 ==>
        match Reached(c, t.mem, address, len)
        case Inside =>
          r == Result(Next(RamCycle(c, t.(mem := Stores(t.mem, address - c.base, Unsigned(y), len)))), Okay)
        case Outside => r.status == Strayed
        case Refused => address != MMIO_EXIT ==> r == StoreOutside(c, env, t, address, y, len))
  {
    hide Opcode, Func3, Rs1, Rs2, ImmS, Wrap, Reached, Stores, Unsigned, Next, TrapTo, RamCycle, AccessLength,
      StoreOutside;
  }

  // SB, SH and SW
  lemma StoreSteps(c: Config, env: Env, s: State, func3: nat, rs1: Index, rs2: Index, imm: int)
      returns (address: Int32, mem: seq<U8>)
    requires func3 < 3 && -0x800 <= imm < 0x800 && Runs(c, s, EncodeS(0x23, func3, rs1, rs2, imm))
    ensures Congruent(address, X(Begun(true, c, s), rs1) + imm)
    ensures var b, r := Begun(true, c, s), Step(true, c, env, s);
      var len := if func3 == 0 then 1 else if func3 == 1 then 2 else 4;
      var n := if c.singleRam then 2 else 1;
      && (address % len != 0 ==> Faults(c, b, r, 6, address, n))
      && (address % len == 0 && Reached(c, b.mem, address, len).Inside? ==>
        && Stored(b.mem, mem, address - c.base, len, Natural(X(b, rs2)))
        && Leaves(b, r, Following(b.pc), 0, 0, mem, Ticked(b.csr, n)))
  {
    hide Begun, Step, Runs, Execute, Counted, EncodeS, Opcode, Func3, Rs1, Rs2, ImmS, Wrap, Reached, Stores,
        StoreOutside,
      Next, TrapTo, RamCycle, AccessLength, Stored, Natural, Congruent, Ticked, Leaves, Faults, Following, Unsigned;
    var w := EncodeS(0x23, func3, rs1, rs2, imm);
    DecodeS(0x23, func3, rs1, rs2, imm);
    StepRuns(c, env, s, w);
    var b := Begun(true, c, s);
    var t := Counted(b, w);
    var n := if c.singleRam then 2 else 1;
    RamTicks(c, b, t);
    LengthIs(func3);
    var len := AccessLength(func3);
    address := Wrap(X(b, rs1) + imm);
    WrapCongruent(X(b, rs1) + imm);
    ExecutesStore(c, env, t, w, address, len);
    mem := b.mem;
    if address % len != 0 {
      TrapFaults(c, b, RamCycle(c, t), 6, address, n);
    } else if Reached(c, b.mem, address, len).Inside? {
      var y := X(b, rs2);
      NaturalIs(y);
      mem := Stores(b.mem, address - c.base, Unsigned(y), len);
      StoresStored(b.mem, address - c.base, Unsigned(y), len);
      StoredLeaves(c, b, t, mem);
    }
  }

  lemma StoredLeaves(c: Config, b: State, t: State, mem: seq<U8>)
    requires t.pc == b.pc && t.regs == b.regs && t.csr == Ticked(b.csr, 1) && !t.timeWritten
    ensures Leaves(b, Some(Result(Next(RamCycle(c, t.(mem := mem))), Okay)), Following(b.pc), 0, 0, mem,
                   Ticked(b.csr, if c.singleRam then 2 else 1))
  {
    FollowingIs(b.pc);
    hide Wrap, Following;
  }

  // A store that a device takes: cycles go on counting in mtime unless the device has set the time
  lemma DeviceStoreSteps(c: Config, env: Env, s: State, func3: nat, rs1: Index, rs2: Index, imm: int)
      returns (address: Int32)
    requires func3 < 3 && -0x800 <= imm < 0x800 && Runs(c, s, EncodeS(0x23, func3, rs1, rs2, imm))
    ensures Congruent(address, X(Begun(true, c, s), rs1) + imm)
    ensures var b, r := Begun(true, c, s), Step(true, c, env, s);
      var len := if func3 == 0 then 1 else if func3 == 1 then 2 else 4;
      var n := if c.singleRam then 1 else 0;
      address % len == 0 && Reached(c, b.mem, address, len).Refused? && address != MMIO_EXIT ==>
        var a := env.store(Ticked(b.csr, 1), b.mem, address, X(b, rs2), len);
        var csr := Ticked(b.csr, 1 + n).(mtime := a.mtime + (if a.timeWritten then 0 else n), mtimecmp := a.mtimecmp,
                                        msip := a.msip);
        var told := b.(csr := csr, mem := if |a.mem| == |b.mem| then a.mem else b.mem);
        && (a.status.Stored? ==> Leaves(told, r, Following(b.pc), 0, 0, told.mem, csr))
        && (a.status.StoreExits? ==> r.Some? && r.value.status == Exited)
        && (a.status.StoreFails? ==>
          && r.Some? && r.value.status == Trapped
          && var t := r.value.state;
          && t.csr.mcause == 7 && t.csr.mepc == b.pc && t.csr.mtval == address && t.mem == told.mem && t.regs == b.regs)
  {
    hide Begun, Step, Runs, Execute, Counted, EncodeS, Opcode, Func3, Rs1, Rs2, ImmS, Wrap, Reached, Stores, Next,
      AccessLength, TrapTo, Natural, Congruent, Leaves, Following, Unsigned, Ticked;
    var w := EncodeS(0x23, func3, rs1, rs2, imm);
    DecodeS(0x23, func3, rs1, rs2, imm);
    StepRuns(c, env, s, w);
    var b := Begun(true, c, s);
    var t := Counted(b, w);
    LengthIs(func3);
    var len := AccessLength(func3);
    address := Wrap(X(b, rs1) + imm);
    WrapCongruent(X(b, rs1) + imm);
    ExecutesStore(c, env, t, w, address, len);
    if address % len == 0 && Reached(c, b.mem, address, len).Refused? && address != MMIO_EXIT {
      var a := env.store(t.csr, t.mem, address, X(b, rs2), len);
      var u := RamCycle(c, Devices(t, a));
      DevicesTick(c, b, t, a);
      if a.status.Stored? {
        LeavesPlain(b.(csr := u.csr, mem := u.mem), u);
      } else if a.status.StoreFails? {
        TrapToState(c, u, 7, address);
        WrapBackSigned(7);
      }
    }
  }

  lemma DevicesTick(c: Config, b: State, t: State, a: StoreResult)
    requires t.pc == b.pc && t.prevPc == b.pc && t.regs == b.regs && t.mem == b.mem && t.csr == Ticked(b.csr, 1)
    requires !t.timeWritten
    ensures var u, n := RamCycle(c, Devices(t, a)), if c.singleRam then 1 else 0;
      && u.csr == Ticked(b.csr, 1 + n).(mtime := a.mtime + (if a.timeWritten then 0 else n), mtimecmp := a.mtimecmp,
                                        msip := a.msip)
      && u.mem == (if |a.mem| == |b.mem| then a.mem else b.mem)
      && u.pc == b.pc && u.prevPc == b.pc && u.regs == b.regs
  {
  }

  lemma LeavesPlain(b: State, u: State)
    requires u.pc == b.pc && u.regs == b.regs && u.mem == b.mem && u.csr == b.csr
    ensures Leaves(b, Some(Result(Next(u), Okay)), Following(b.pc), 0, 0, b.mem, b.csr)
  {
    FollowingIs(b.pc);
    hide Wrap, Following;
  }
}
