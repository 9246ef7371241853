// Interrupts, traps and memory of the machine of tools/rvsim.c.
module RvTraps {
  import opened Binary
  import opened MachineInts
  import opened MultiplyDivide
  import opened Powers
  import opened RvMachine

  // Single bits of a word

  lemma Flipped(w: Int32, k: nat, j: nat)
    requires k < 32
    ensures Has(Wrap(Flip(Unsigned(w), k)), j) == (Has(w, j) != (j == k))
  {
    hide Flip, Bit, Pow2;
    Pow2Values();
    FlipInRange(Unsigned(w), k, 32);
    FlippedBit(Unsigned(w), k, j);
    WrapBack(Flip(Unsigned(w), k));
  }

  lemma WithBits(w: Int32, k: nat, j: nat)
    requires k < 32
    ensures Has(WithBit(w, k), j) == (Has(w, j) || j == k)
    ensures Has(WithoutBit(w, k), j) == (Has(w, j) && j != k)
  {
    Flipped(w, k, j);
    hide Flip, Has, Wrap;
  }

  lemma SameWord(v: Int32, w: Int32)
    requires forall j | 0 <= j < 32 :: Has(v, j) == Has(w, j)
    ensures v == w
  {
    hide Bit, Pow2;
    Pow2Values();
    forall j | 0 <= j < 32
      ensures Bit(Unsigned(v), j) == Bit(Unsigned(w), j)
    {
      assert Has(v, j) == Has(w, j);
    }
    SameBits(Unsigned(v), Unsigned(w), 32);
  }

  // mstatus on entry to a handler: MPIE remembers MIE
  lemma EnteredBits(m: Int32, j: nat)
    ensures Has(Entered(m), j) == if j == MIE then false else if j == MPIE then Has(m, MIE) else Has(m, j)
  {
    hide Has, WithBit, WithoutBit;
    WithBits(m, MPIE, j);
    WithBits(if Has(m, MIE) then WithBit(m, MPIE) else WithoutBit(m, MPIE), MIE, j);
  }

  // Interrupts

  // At most one interrupt is entered at the start of a step, and only with MIE set
  lemma AtMostOneInterrupt(c: Config, s: State)
    ensures var t := TakeInterrupts(c, s);
      || t == s
      || (&& Has(s.csr.mstatus, MIE) && !Has(t.csr.mstatus, MIE)
          && if s.irq.timer then t == IntTo(c, s, TIMER)
             else if s.irq.swNext then t == IntTo(c, s, SOFTWARE)
             else s.irq.extNext && t == IntTo(c, s, EXTERNAL))
    ensures TakeInterrupts(c, s) == s <==> !Has(s.csr.mstatus, MIE) || !(s.irq.timer || s.irq.swNext || s.irq.extNext)
  {
    EnteredBits(s.csr.mstatus, MIE);
    IntToState(c, s, TIMER);
    IntToState(c, s, SOFTWARE);
    IntToState(c, s, EXTERNAL);
    hide IntTo, Entered, Has;
  }

  lemma IntToState(c: Config, s: State, number: nat)
    ensures var t := IntTo(c, s, number);
      && t.csr.mstatus == Entered(s.csr.mstatus) && t.csr.mepc == s.pc && t.csr.mtvec == s.csr.mtvec
      && t.irq == s.irq && t.regs == s.regs && t.mem == s.mem && t.prevPc == s.prevPc
      && t.csr.mcause == Wrap(0x8000_0000 + number)
  {
    hide Entered, Wrap, WithBit, Vector;
  }

  lemma SystemKeepsLatches(hard: bool, c: Config, env: Env, s: State, i: U32)
    requires Opcode(i) == SYSTEM
    ensures Execute(hard, c, env, s, i).state.irq == s.irq
  {
    hide Opcode, Func3, CsrRead, CsrWrite, Updated, Has, WithBit, WithoutBit, Vector, Entered, Arguments, Rd, Rs1, Wrap;
  }

  lemma NoneCounted(s: State, i: U32)
    requires Opcode(i) == SYSTEM
    ensures var u := Counted(s, i); !u.irq.timer && !u.irq.swNext && !u.irq.extNext
  {
    hide Has;
  }

  // None is entered right after a system instruction
  lemma NoneAfterSystem(hard: bool, c: Config, env: Env, s: State)
    requires Step(hard, c, env, s).Some?
    requires var t := Begun(hard, c, s); Opcode(WordAt(t.mem, t.pc - c.base)) == SYSTEM
    ensures var r := Step(hard, c, env, s).value.state; TakeInterrupts(c, r) == r
  {
    hide Begun, WordAt, Execute, Has, Counted, Opcode, TakeInterrupts, Reached;
    var t := Begun(hard, c, s);
    var i := WordAt(t.mem, t.pc - c.base);
    NoneCounted(t, i);
    SystemKeepsLatches(hard, c, env, Counted(t, i), i);
    assert Step(hard, c, env, s).value == Execute(hard, c, env, Counted(t, i), i);
    AtMostOneInterrupt(c, Step(hard, c, env, s).value.state);
  }

  // mstatus after entry and return: MIE is set again, and MPIE alone may differ
  lemma EnteredAndReturned(m: Int32)
    requires Has(m, MIE)
    ensures var e := Entered(m);
      && Has(e, MPIE) && !Has(e, MIE)
      && WithBit(e, MIE) == WithBit(m, MPIE) && Has(WithBit(e, MIE), MIE)
  {
    hide Has, Entered, WithBit, WithoutBit;
    EnteredBits(m, MPIE);
    EnteredBits(m, MIE);
    WithBits(Entered(m), MIE, MIE);
    forall j | 0 <= j < 32
      ensures Has(WithBit(Entered(m), MIE), j) == Has(WithBit(m, MPIE), j)
    {
      EnteredBits(m, j);
      WithBits(m, MPIE, j);
      WithBits(Entered(m), MIE, j);
    }
    SameWord(WithBit(Entered(m), MIE), WithBit(m, MPIE));
  }

  // Section 3.1.6.1 of the privileged architecture has MRET set MPIE; this one leaves it as it is
  lemma MretLeavesMpie(c: Config, s: State)
    ensures Has(MretTo(c, s).csr.mstatus, MPIE) <==> Has(s.csr.mstatus, MPIE)
  {
    WithBits(s.csr.mstatus, MIE, MPIE);
    hide Has, WithBit, WithoutBit;
  }

  lemma WrapBackSigned(v: Int32)
    ensures Wrap(Unsigned(v)) == v && Wrap(v) == v
  {
  }

  // Misaligned targets

  function Target(hard: bool, s: State, i: U32): Int32 {
    var t := if Opcode(i) == JAL then Wrap(s.pc + ImmJ(i)) else Wrap(Reg(hard, s, Rs1(i)) + ImmI(i));
    t - t % 2
  }

  // The simulator ends the program at a jump that goes nowhere
  predicate Loops(hard: bool, s: State, i: U32) {
    if Opcode(i) == JAL then ImmJ(i) == 0 else Wrap(Reg(hard, s, Rs1(i)) + ImmI(i)) == s.pc
  }

  lemma NoLoop(hard: bool, s: State, i: U32)
    requires Target(hard, s, i) % 4 != 0 && s.pc % 4 == 0
    ensures !Loops(hard, s, i)
  {
    hide Reg, Rs1, ImmI, ImmJ, Opcode, Wrap;
    WrapBackSigned(s.pc);
    var q := s.pc / 4;
    assert s.pc == 4 * q;
    Quarters(q, 0);
  }

  // A jump to a misaligned address writes no register
  lemma MisalignedJump(hard: bool, c: Config, env: Env, s: State, i: U32)
    requires Opcode(i) == JAL || Opcode(i) == JALR
    requires Target(hard, s, i) % 4 != 0 && !Loops(hard, s, i)
    ensures var t := Counted(s, i); Execute(hard, c, env, t, i) == Result(t.(pc := Target(hard, s, i)), Okay)
  {
    CountedParts(hard, s, i);
    hide Counted, ImmJ, ImmI, Wrap, Reg, Rs1, Opcode, SetReg, CycleAdd, Rd;
    var t := Counted(s, i);
    assert Execute(hard, c, env, t, i) == Jump(hard, c, t, i);
  }

  lemma CountedParts(hard: bool, s: State, i: U32)
    ensures var t := Counted(s, i);
      && t.pc == s.pc && t.prevPc == s.pc && t.regs == s.regs && t.mem == s.mem
      && Reg(hard, t, Rs1(i)) == Reg(hard, s, Rs1(i))
      && t.csr.mepc == s.csr.mepc && t.csr.mstatus == s.csr.mstatus && t.csr.mtvec == s.csr.mtvec
  {
    hide Latched;
  }

  lemma WrapAligned(k: int)
    ensures Wrap(4 * k) % 4 == 0
  {
    var m := k % 0x4000_0000;
    assert 4 * k % WORD == 4 * m;
  }

  lemma Quarters(q: int, r: int)
    requires r == 0 || r == 1
    ensures (4 * q + r) % 2 == r
  {
    assert 4 * q + r == 2 * (2 * q) + r;
  }

  lemma AlignedVector(mtvec: Int32, cause: nat)
    requires mtvec % 4 < 2
    ensures Vector(mtvec, cause) % 4 == 0
  {
    hide Wrap;
    var q, r := mtvec / 4, mtvec % 4;
    assert mtvec == 4 * q + r;
    Quarters(q, r);
    WrapAligned(q + cause);
  }

  lemma TrapToState(c: Config, s: State, cause: nat, val: Int32)
    ensures var t := TrapTo(c, s, cause, val);
      && t.csr.mepc == s.prevPc && t.csr.mtval == val && t.csr.mcause == Wrap(cause)
      && t.csr.mstatus == Entered(s.csr.mstatus) && t.csr.mtvec == s.csr.mtvec
      && t.pc == Vector(s.csr.mtvec, cause) && t.regs == s.regs && t.mem == s.mem
  {
    hide Entered, Wrap, Vector;
  }

  // A misaligned pc traps on behalf of the instruction that left it there, whatever the range test
  // says, if the vector is aligned
  lemma MisalignedTraps(c: Config, s: State)
    requires s.pc % 4 != 0 && s.csr.mtvec % 4 < 2
    ensures var t := FetchTraps(c, s);
      && t.csr.mepc == s.prevPc && t.csr.mtval == s.pc && t.csr.mstatus == Entered(s.csr.mstatus)
      && t.regs == s.regs && t.mem == s.mem
      && t.csr.mcause == (if OutOfRange(c, s) then 1 else 0) && t.pc == Vector(s.csr.mtvec, t.csr.mcause)
  {
    var cause := if OutOfRange(c, s) then 1 else 0;
    TrapToState(c, s, cause, s.pc);
    AlignedVector(s.csr.mtvec, cause);
    hide TrapTo, Entered, Vector, OutOfRange;
  }

  // Memory

  // The range test adds in 32 bits. It is right unless one of the two ends alone reaches 2^31 and
  // the other cannot make up for it.
  lemma AdmittedExactly(c: Config, mem: seq<U8>, address: Int32, len: nat)
    requires |mem| < 0x8000_0000 && len < 0x8000_0000
    ensures var end, top := address + len, c.base + |mem|;
      (Admitted(c, mem, address, len) <==> InMemory(c, mem, address, len))
      <==>
      address < c.base || (end < 0x8000_0000 <==> top < 0x8000_0000) || (top < 0x8000_0000 && end - WORD > top)
  {
  }

  // Of the aligned accesses, the one that ends at 2^31 leaves a memory that ends below; no other does
  lemma StraysAtTheEnd(c: Config, mem: seq<U8>, address: Int32, len: nat)
    requires (len == 1 || len == 2 || len == 4) && c.base + |mem| < 0x8000_0000
    ensures address % len == 0 && Reached(c, mem, address, len).Outside?
      <==>
      c.base <= address && address == 0x8000_0000 - len
  {
    if len == 1 {
    } else if len == 2 {
    } else {
    }
  }

  // The word below 2^31, with memory from 0 on
  lemma StrayWord(c: Config, mem: seq<U8>)
    requires c.base == 0 && |mem| < 0x8000_0000
    ensures Admitted(c, mem, 0x7fff_fffc, 4) && !InMemory(c, mem, 0x7fff_fffc, 4)
  {
  }

  lemma LoadsThatStray(hard: bool, c: Config, env: Env, s: State, i: U32)
    requires Opcode(i) == LOAD && c.base + |s.mem| < 0x8000_0000
    ensures var f, address := Func3(i), Wrap(Reg(hard, s, Rs1(i)) + ImmI(i));
      Execute(hard, c, env, s, i).status == Strayed
      <==>
      f <= 5 && f != 3 && c.base <= address && address == 0x8000_0000 - AccessLength(f)
  {
    hide Opcode, Func3, Wrap, Reg, Rs1, ImmI, Reached, Bytes, Extended, SetReg, TrapTo, RamCycle, Next, AccessLength;
    var f, address := Func3(i), Wrap(Reg(hard, s, Rs1(i)) + ImmI(i));
    StraysAtTheEnd(c, s.mem, address, AccessLength(f));
    LoadStrays(hard, c, env, s, i);
  }

  lemma LoadStrays(hard: bool, c: Config, env: Env, s: State, i: U32)
    requires Opcode(i) == LOAD
    ensures var f, address := Func3(i), Wrap(Reg(hard, s, Rs1(i)) + ImmI(i));
      Execute(hard, c, env, s, i).status == Strayed
      <==>
      f <= 5 && f != 3 && address % AccessLength(f) == 0 && Reached(c, s.mem, address, AccessLength(f)).Outside?
  {
    hide Opcode, Func3, Wrap, Reg, Rs1, ImmI, Reached, Bytes, Extended, SetReg, TrapTo, RamCycle, Next, AccessLength;
  }

  lemma StoresThatStray(hard: bool, c: Config, env: Env, s: State, i: U32)
    requires Opcode(i) == STORE && c.base + |s.mem| < 0x8000_0000
    ensures var f, address := Func3(i), Wrap(Reg(hard, s, Rs1(i)) + ImmS(i));
      Execute(hard, c, env, s, i).status == Strayed
      <==>
      f <= 2 && c.base <= address && address == 0x8000_0000 - AccessLength(f)
  {
    hide Opcode, Func3, Wrap, Reg, Rs1, ImmS, Reached, Stores, TrapTo, RamCycle, Next, AccessLength;
    var f, address := Func3(i), Wrap(Reg(hard, s, Rs1(i)) + ImmS(i));
    StraysAtTheEnd(c, s.mem, address, AccessLength(f));
    StoreStrays(hard, c, env, s, i);
  }

  lemma StoreStrays(hard: bool, c: Config, env: Env, s: State, i: U32)
    requires Opcode(i) == STORE
    ensures var f, address := Func3(i), Wrap(Reg(hard, s, Rs1(i)) + ImmS(i));
      Execute(hard, c, env, s, i).status == Strayed
      <==>
      f <= 2 && address % AccessLength(f) == 0 && Reached(c, s.mem, address, AccessLength(f)).Outside?
  {
    hide Opcode, Func3, Wrap, Reg, Rs1, Rs2, ImmS, Reached, Stores, TrapTo, RamCycle, Next, Devices, AccessLength;
  }

  function FromBytes(b: seq<U8>): nat {
    if b == [] then 0 else b[0] + 256 * FromBytes(b[1..])
  }

  lemma {:induction false} BytesAreSlice(mem: seq<U8>, k: nat, len: nat)
    requires k + len <= |mem|
    ensures Bytes(mem, k, len) == FromBytes(mem[k..k + len])
    decreases len
  {
    if len > 0 {
      BytesAreSlice(mem, k + 1, len - 1);
      assert mem[k..k + len][1..] == mem[k + 1..k + 1 + (len - 1)];
    }
  }

  lemma {:induction false} ToBytesBack(data: nat, len: nat)
    ensures FromBytes(ToBytes(data, len)) == data % Pow2(8 * len)
    decreases len
  {
    if len > 0 {
      ToBytesBack(data / 256, len - 1);
      assert ToBytes(data, len)[1..] == ToBytes(data / 256, len - 1);
      Pow2Sum(8, 8 * (len - 1));
      assert Pow2(8) == 256;
      LowByte(data, Pow2(8 * (len - 1)));
    }
  }

  lemma LowByte(x: nat, p: nat)
    requires p > 0
    ensures x % (256 * p) == x % 256 + 256 * (x / 256 % p)
  {
    var q, r := x / 256 / p, x / 256 % p;
    assert x / 256 == p * q + r;
    assert 256 * (p * q) == 256 * p * q;
    DivMod(x, 256 * p, q, x % 256 + 256 * r);
  }

  // A load gives back the bytes a store of the same width has put there, and a store touches no
  // other byte
  lemma StoreThenLoad(mem: seq<U8>, k: nat, data: nat, len: nat)
    requires k + len <= |mem|
    ensures Bytes(Stores(mem, k, data, len), k, len) == data % Pow2(8 * len)
    ensures forall j | 0 <= j < |mem| && !(k <= j < k + len) :: Stores(mem, k, data, len)[j] == mem[j]
  {
    var m := Stores(mem, k, data, len);
    BytesAreSlice(m, k, len);
    assert m[k..k + len] == ToBytes(data, len);
    ToBytesBack(data, len);
  }

  lemma StoreWordLoadWord(mem: seq<U8>, k: nat, v: Int32)
    requires k + 4 <= |mem|
    ensures Extended(2, Bytes(Stores(mem, k, Unsigned(v), 4), k, 4)) == v
  {
    hide Bytes, Stores, Pow2;
    StoreThenLoad(mem, k, Unsigned(v), 4);
    Pow2Values();
    WrapBackSigned(v);
  }

}
