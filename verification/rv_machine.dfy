// tools/rvsim.c on values: the RV32IM machine without compressed instructions, with its interrupts
// and traps. A machine is lazy, as the simulator is, when a write to x0 is kept until the next step
// begins, and hard-wired when x0 takes no writes.
module RvMachine {
  import opened Binary
  import opened MachineInts
  import opened MultiplyDivide
  import opened Options
  import opened Powers

  datatype Csr = Csr(mstatus: Int32, mie: Int32, mip: Int32, mtvec: Int32, mepc: Int32, mcause: Int32, mtval: Int32,
                     mscratch: Int32, mstatush: Int32, misa: Int32, msip: Int32,
                     cycle: int, instret: int, time: int, mtime: int, mtimecmp: int)

  // The interrupts that may be taken when the next step begins, and what leads up to them
  datatype Latches = Latches(timer: bool, sw: bool, swNext: bool, ext: bool, extNext: bool)

  type Registers = r: seq<Int32> | |r| == 32 witness seq(32, _ => 0)
  type Index = n: nat | n < 32

  datatype State = State(pc: Int32, prevPc: Int32, regs: Registers, csr: Csr, mem: seq<U8>, irq: Latches,
                         timeWritten: bool)

  datatype Config = Config(base: Int32, penalty: nat, predict: bool, singleRam: bool)

  // What happens outside the simulator: device registers and system calls. Both may write memory,
  // and both may end the program.
  datatype LoadResult = LoadFails | LoadGives(data: Int32)
  datatype StoreStatus = Stored | StoreExits | StoreFails
  datatype StoreResult = StoreResult(mtime: int, mtimecmp: int, msip: Int32, timeWritten: bool, mem: seq<U8>,
                                     status: StoreStatus)
  datatype CallResult = CallResult(exits: bool, res: Int32, mem: seq<U8>)
  datatype Env = Env(load: (Csr, Int32) -> LoadResult, store: (Csr, seq<U8>, Int32, Int32, nat) -> StoreResult,
                     call: (seq<Int32>, seq<U8>) -> CallResult)

  // Strayed: an access has left the buffer that holds the memory, so that the source has no defined
  // behaviour from there on
  datatype Status = Okay | Trapped | Exited | Strayed
  datatype Result = Result(state: State, status: Status)

  // Bits of mstatus and mie
  const MIE := 3
  const MPIE := 7
  const MSIE := 3
  const MTIE := 7
  const MEIE := 11

  function Has(word: Int32, k: nat): bool { Bit(Unsigned(word), k) }

  function WithBit(word: Int32, k: nat): Int32 { if Has(word, k) then word else Wrap(Flip(Unsigned(word), k)) }
  function WithoutBit(word: Int32, k: nat): Int32 { if Has(word, k) then Wrap(Flip(Unsigned(word), k)) else word }

  function CycleAdd(s: State, count: int): State {
    s.(csr := s.csr.(cycle := s.csr.cycle + count, mtime := if s.timeWritten then s.csr.mtime else s.csr.mtime + count))
  }

  // mstatus on entry to a handler: MPIE takes MIE, and MIE is cleared
  function Entered(mstatus: Int32): Int32 {
    WithoutBit(if Has(mstatus, MIE) then WithBit(mstatus, MPIE) else WithoutBit(mstatus, MPIE), MIE)
  }

  function Vector(mtvec: Int32, cause: int): Int32 {
    if mtvec % 2 == 1 then Wrap(mtvec - 1 + cause * 4) else mtvec
  }

  // srv32_trap
  function TrapTo(c: Config, s0: State, cause: nat, val: Int32): State {
    var s := CycleAdd(s0, c.penalty);
    s.(csr := s.csr.(mcause := Wrap(cause), mstatus := Entered(s.csr.mstatus), mepc := s.prevPc, mtval := val),
       pc := Vector(s.csr.mtvec, cause))
  }

  // srv32_int for the interrupt of the given number
  function IntTo(c: Config, s0: State, number: nat): State {
    var s := if s0.pc == Wrap(s0.prevPc + 4) then CycleAdd(s0, c.penalty) else s0;
    s.(csr := s.csr.(mcause := Wrap(0x8000_0000 + number), mstatus := Entered(s.csr.mstatus),
                        mip := WithBit(s.csr.mip, number), mepc := s.pc),
       pc := Vector(s.csr.mtvec, number))
  }

  const TIMER := 7
  const SOFTWARE := 3
  const EXTERNAL := 11

  function Interrupt(c: Config, s: State, latched: bool, number: nat): State {
    if latched && Has(s.csr.mstatus, MIE) then IntTo(c, s, number) else s
  }

  // The three checks a step begins with
  function TakeInterrupts(c: Config, s: State): State {
    Interrupt(c, Interrupt(c, Interrupt(c, s, s.irq.timer, TIMER), s.irq.swNext, SOFTWARE), s.irq.extNext, EXTERNAL)
  }

  // The sums of the range tests are 32 bits wide
  function Top(c: Config, mem: seq<U8>): Int32 { Wrap(c.base + |mem|) }

  function OutOfRange(c: Config, s: State): bool { s.pc >= Top(c, s.mem) || s.pc < c.base }

  // The range and the alignment of the pc
  function FetchTraps(c: Config, s: State): State {
    var r := if OutOfRange(c, s) then TrapTo(c, s, 1, s.pc) else s;
    if r.pc % 4 != 0 then TrapTo(c, r, 0, r.pc) else r
  }

  // What srv32_read_mem and srv32_write_mem let through
  function Admitted(c: Config, mem: seq<U8>, address: Int32, len: nat): bool {
    c.base <= address && Wrap(address + len) <= Top(c, mem)
  }

  function InMemory(c: Config, mem: seq<U8>, address: int, len: nat): bool {
    c.base <= address && address + len <= c.base + |mem|
  }

  datatype Reach = Inside | Outside | Refused

  function Reached(c: Config, mem: seq<U8>, address: Int32, len: nat): (r: Reach)
    ensures r.Inside? ==> 0 <= address - c.base && address - c.base + len <= |mem|
  {
    if !Admitted(c, mem, address, len) then Refused
    else if InMemory(c, mem, address, len) then Inside
    else Outside
  }

  // The number held by len bytes from place k on, lowest byte first
  function Bytes(mem: seq<U8>, k: nat, len: nat): nat
    requires k + len <= |mem|
    decreases len
  {
    if len == 0 then 0 else mem[k] + 256 * Bytes(mem, k + 1, len - 1)
  }

  function WordAt(mem: seq<U8>, k: nat): U32
    requires k + 4 <= |mem|
  {
    var b0: int, b1: int, b2: int, b3: int := mem[k], mem[k + 1], mem[k + 2], mem[k + 3];
    b0 + 0x100 * b1 + 0x1_0000 * b2 + 0x100_0000 * b3
  }

  function Opcode(i: U32): U8 { i % 128 }
  function Rd(i: U32): Index { i / 0x80 % 32 }
  function Func3(i: U32): (f: nat) ensures f < 8 { i / 0x1000 % 8 }
  function Rs1(i: U32): Index { i / 0x8000 % 32 }
  function Rs2(i: U32): Index { i / 0x10_0000 % 32 }
  function Func7(i: U32): nat { i / 0x200_0000 }

  function ToImmI(n: nat): Int32
    requires n < 0x1000
  {
    if n >= 0x800 then n - 0x1000 else n
  }

  function ImmI(i: U32): Int32 { ToImmI(i / 0x10_0000) }
  function ImmS(i: U32): Int32 { ToImmI(Func7(i) * 32 + Rd(i)) }

  function ImmB(i: U32): Int32 {
    var n := Func7(i) * 32 + Rd(i);
    var m := n / 0x20 % 0x40 * 0x20 + n / 2 % 0x10 * 2 + n % 2 * 0x800;
    if n / 0x800 % 2 == 1 then m - 0x1000 else m
  }

  function ImmJ(i: U32): Int32 {
    var n := i / 0x1000;
    var m := n / 0x200 % 0x400 * 2 + n / 0x100 % 2 * 0x800 + n % 0x100 * 0x1000;
    if n / 0x8_0000 % 2 == 1 then m - 0x10_0000 else m
  }

  function ImmU(i: U32): Int32 { Wrap(i / 0x1000 * 0x1000) }

  const LUI := 0x37
  const AUIPC := 0x17
  const JAL := 0x6f
  const JALR := 0x67
  const BRANCH := 0x63
  const LOAD := 0x03
  const STORE := 0x23
  const ARITHI := 0x13
  const ARITHR := 0x33
  const FENCE := 0x0f
  const SYSTEM := 0x73

  // The interrupts to consider when the next step begins. None is, after a system instruction.
  function Latched(s: State, inst: U32): Latches {
    var open := Has(s.csr.mstatus, MIE) && Opcode(inst) != SYSTEM;
    Latches(s.csr.mtime >= s.csr.mtimecmp && open && Has(s.csr.mie, MTIE),
            Has(s.csr.msip, 0), s.irq.sw && open && Has(s.csr.mie, MSIE),
            Has(s.csr.msip, 16), s.irq.ext && open && Has(s.csr.mie, MEIE))
  }

  function Counted(s: State, inst: U32): State {
    var t := s.(irq := Latched(s, inst), csr := s.csr.(time := s.csr.time + 1, instret := s.csr.instret + 1));
    CycleAdd(t, 1).(prevPc := s.pc)
  }

  // Registers

  function Reg(hard: bool, s: State, n: Index): Int32 { if hard && n == 0 then 0 else s.regs[n] }

  function SetReg(hard: bool, s: State, n: Index, v: Int32): State {
    if hard && n == 0 then s else s.(regs := s.regs[n := v])
  }

  function Next(s: State): State { s.(pc := Wrap(s.pc + 4)) }

  function Illegal(c: Config, s: State, inst: U32): Result { Result(TrapTo(c, s, 2, Wrap(inst)), Trapped) }

  // The end of a jump: a misaligned target is left to the next step, and rd unwritten
  function Jumped(hard: bool, c: Config, s: State, rd: Index, target: Int32): Result {
    var even := target - target % 2;
    if even % 4 != 0 then Result(s.(pc := even), Okay)
    else Result(CycleAdd(SetReg(hard, s, rd, Wrap(s.pc + 4)).(pc := even), c.penalty), Okay)
  }

  function Jump(hard: bool, c: Config, s: State, i: U32): Result {
    if Opcode(i) == JAL then
      if ImmJ(i) == 0 then Result(s, Exited) else Jumped(hard, c, s, Rd(i), Wrap(s.pc + ImmJ(i)))
    else
      var target := Wrap(Reg(hard, s, Rs1(i)) + ImmI(i));
      if target == s.pc then Result(s, Exited) else Jumped(hard, c, s, Rd(i), target)
  }

  function Taken(func3: nat, a: Int32, b: Int32): Option<bool> {
    match func3
    case 0 => Some(a == b)
    case 1 => Some(a != b)
    case 4 => Some(a < b)
    case 5 => Some(a >= b)
    case 6 => Some(Unsigned(a) < Unsigned(b))
    case 7 => Some(Unsigned(a) >= Unsigned(b))
    case _ => None
  }

  function Branched(c: Config, s: State, offset: Int32): Result {
    var t := s.(pc := Wrap(s.pc + offset));
    Result(if (!c.predict || offset > 0) && t.pc % 4 == 0 then CycleAdd(t, c.penalty) else t, Okay)
  }

  function Branch(hard: bool, c: Config, s: State, i: U32): Result {
    match Taken(Func3(i), Reg(hard, s, Rs1(i)), Reg(hard, s, Rs2(i)))
    case None => Illegal(c, s, i)
    case Some(false) => Result(Next(s), Okay)
    case Some(true) => Branched(c, s, ImmB(i))
  }

  // Memory

  function AccessLength(func3: nat): (len: nat)
    ensures len == 1 || len == 2 || len == 4
  {
    if func3 % 4 == 0 then 1 else if func3 % 4 == 1 then 2 else 4
  }

  // Sign extension of what a load has read
  function Extended(func3: nat, data: nat): Int32 {
    if func3 == 0 && data % 0x100 >= 0x80 then Wrap(data % 0x100 - 0x100)
    else if func3 == 1 && data % 0x1_0000 >= 0x8000 then Wrap(data % 0x1_0000 - 0x1_0000)
    else Wrap(data)
  }

  function RamCycle(c: Config, s: State): State { if c.singleRam then CycleAdd(s, 1) else s }

  function Load(hard: bool, c: Config, env: Env, s: State, i: U32): Result {
    var f, address := Func3(i), Wrap(Reg(hard, s, Rs1(i)) + ImmI(i));
    var len := AccessLength(f);
    var t := RamCycle(c, s);
    if f == 3 || f > 5 then Illegal(c, t, i)
    else if address % len != 0 then Result(TrapTo(c, t, 4, address), Trapped)
    else match Reached(c, s.mem, address, len)
      case Inside => Result(Next(SetReg(hard, t, Rd(i), Extended(f, Bytes(s.mem, address - c.base, len)))), Okay)
      case Outside => Result(t, Strayed)
      case Refused =>
        match env.load(s.csr, address)
        case LoadFails => Result(TrapTo(c, t, 5, address), Trapped)
        case LoadGives(data) => Result(Next(SetReg(hard, t, Rd(i), Extended(f, Unsigned(data)))), Okay)
  }

  // The len lowest bytes of data, lowest first
  function ToBytes(data: nat, len: nat): (b: seq<U8>)
    ensures |b| == len
  {
    if len == 0 then [] else [data % 256] + ToBytes(data / 256, len - 1)
  }

  function Stores(mem: seq<U8>, k: nat, data: nat, len: nat): (m: seq<U8>)
    requires k + len <= |mem|
    ensures |m| == |mem|
  {
    mem[..k] + ToBytes(data, len) + mem[k + len..]
  }

  const MMIO_EXIT: Int32 := 0xa000_002c - WORD

  function Devices(s: State, r: StoreResult): State {
    s.(csr := s.csr.(mtime := r.mtime, mtimecmp := r.mtimecmp, msip := r.msip),
       mem := if |r.mem| == |s.mem| then r.mem else s.mem, timeWritten := s.timeWritten || r.timeWritten)
  }

  // A store that finds neither memory nor the exit register
  function StoreOutside(c: Config, env: Env, s: State, address: Int32, data: Int32, len: nat): Result {
    var r := env.store(s.csr, s.mem, address, data, len);
    var t := RamCycle(c, Devices(s, r));
    match r.status
    case Stored => Result(Next(t), Okay)
    case StoreExits => Result(t, Exited)
    case StoreFails => Result(TrapTo(c, t, 7, address), Trapped)
  }

  function Store(hard: bool, c: Config, env: Env, s: State, i: U32): Result {
    var f, address := Func3(i), Wrap(Reg(hard, s, Rs1(i)) + ImmS(i));
    var len, data := AccessLength(f), Reg(hard, s, Rs2(i));
    if f > 2 then Illegal(c, RamCycle(c, s), i)
    else if address % len != 0 then Result(TrapTo(c, RamCycle(c, s), 6, address), Trapped)
    else match Reached(c, s.mem, address, len)
      case Inside => Result(Next(RamCycle(c, s.(mem := Stores(s.mem, address - c.base, Unsigned(data), len)))), Okay)
      case Outside => Result(RamCycle(c, s), Strayed)
      case Refused =>
        // memrw reports the request to exit by the number of the illegal instruction trap
        if address == MMIO_EXIT then Illegal(c, RamCycle(c, s), i) else StoreOutside(c, env, s, address, data, len)
  }

  // Arithmetic

  function Shl(a: Int32, n: nat): Int32 { Wrap(Unsigned(a) * Pow2(n)) }
  function Shr(a: Int32, n: nat): Int32 { Wrap(Unsigned(a) / Pow2(n)) }
  function Sar(a: Int32, n: nat): Int32 { Wrap(a / Pow2(n)) }
  function Below(a: int, b: int): Int32 { if a < b then 1 else 0 }

  // OP_ADD to OP_AND, with the right shift arithmetic or not. Shift amounts are taken modulo 32.
  function Basic(func3: nat, arithmetic: bool, a: Int32, b: Int32): Int32
    requires func3 < 8
  {
    match func3
    case 0 => Wrap(a + b)
    case 1 => Shl(a, Unsigned(b) % 32)
    case 2 => Below(a, b)
    case 3 => Below(Unsigned(a), Unsigned(b))
    case 4 => Wrap(Xor(Unsigned(a), Unsigned(b), 32))
    case 5 => if arithmetic then Sar(a, Unsigned(b) % 32) else Shr(a, Unsigned(b) % 32)
    case 6 => Wrap(Or(Unsigned(a), Unsigned(b), 32))
    case 7 => Wrap(And(Unsigned(a), Unsigned(b), 32))
  }

  function Multiplicative(func3: nat, a: Int32, b: Int32): Int32
    requires func3 < 8
  {
    match func3
    case 0 => Mul(a, b)
    case 1 => Mulh(a, b)
    case 2 => Mulhsu(a, b)
    case 3 => Mulhu(a, b)
    case 4 => Div(a, b)
    case 5 => Divu(a, b)
    case 6 => Rem(a, b)
    case 7 => Remu(a, b)
  }

  function ImmediateValue(i: U32, a: Int32): Option<Int32> {
    var f := Func3(i);
    if (f == 1 && Func7(i) != 0) || (f == 5 && Func7(i) != 0 && Func7(i) != 0x20) then None
    else Some(Basic(f, Func7(i) == 0x20, a, ImmI(i)))
  }

  function RegisterValue(i: U32, a: Int32, b: Int32): Option<Int32> {
    var f := Func3(i);
    if Func7(i) == 1 then Some(Multiplicative(f, a, b))
    else if Func7(i) == 0 then Some(Basic(f, false, a, b))
    else if Func7(i) == 0x20 && f == 0 then Some(Wrap(a - b))
    else if Func7(i) == 0x20 && f == 5 then Some(Basic(5, true, a, b))
    else None
  }

  function Arithmetic(hard: bool, c: Config, s: State, i: U32): Result {
    var v := if Opcode(i) == ARITHI then ImmediateValue(i, Reg(hard, s, Rs1(i)))
             else RegisterValue(i, Reg(hard, s, Rs1(i)), Reg(hard, s, Rs2(i)));
    match v
    case None => Illegal(c, s, i)
    case Some(x) => Result(Next(SetReg(hard, s, Rd(i), x)), Okay)
  }

  // Control and status registers

  function CsrRead(csr: Csr, n: nat): Option<Int32> {
    match n
    case 0xc00 => Some(Wrap(csr.cycle - 1))
    case 0xc80 => Some(Wrap((csr.cycle - 1) / WORD))
    case 0xc02 => Some(Wrap(csr.instret - 1))
    case 0xc82 => Some(Wrap((csr.instret - 1) / WORD))
    case 0xf11 => Some(0)
    case 0xf12 => Some(0)
    case 0xf13 => Some(0)
    case 0xf14 => Some(0)
    case 0x340 => Some(csr.mscratch)
    case 0x300 => Some(csr.mstatus)
    case 0x310 => Some(csr.mstatush)
    case 0x301 => Some(csr.misa)
    case 0x304 => Some(csr.mie)
    case 0x344 => Some(csr.mip)
    case 0x305 => Some(csr.mtvec)
    case 0x341 => Some(csr.mepc)
    case 0x342 => Some(csr.mcause)
    case 0x343 => Some(csr.mtval)
    case _ => None
  }

  function CsrWrite(csr: Csr, n: nat, v: Int32): Csr {
    match n
    case 0x340 => csr.(mscratch := v)
    case 0x300 => csr.(mstatus := v)
    case 0x310 => csr.(mstatush := v)
    case 0x301 => csr.(misa := v)
    case 0x304 => csr.(mie := v)
    case 0x344 => csr.(mip := v)
    case 0x305 => csr.(mtvec := v)
    case 0x341 => csr.(mepc := v)
    case 0x342 => csr.(mcause := v)
    case 0x343 => csr.(mtval := v)
    case _ => csr
  }

  // UPDATE_CSR: replace, set the bits of val, or clear them
  function Updated(mode: nat, was: Int32, val: Int32): Int32 {
    if mode == 1 then val
    else if mode == 2 then Wrap(Or(Unsigned(was), Unsigned(val), 32))
    else Wrap(And(Unsigned(was), WORD - 1 - Unsigned(val), 32))
  }

  function CsrAccess(hard: bool, c: Config, s: State, i: U32): Result {
    var f, n := Func3(i), i / 0x10_0000;
    var val := if f >= 4 then Rs1(i) else Reg(hard, s, Rs1(i));
    match CsrRead(s.csr, n)
    case None => Result(TrapTo(c, s, 2, 0), Trapped)
    case Some(x) =>
      var t := if f % 4 == 1 || Rs1(i) != 0 then s.(csr := CsrWrite(s.csr, n, Updated(f % 4, x, val))) else s;
      Result(Next(SetReg(hard, t, Rd(i), x)), Okay)
  }

  function MretTo(c: Config, s: State): State {
    var m := s.csr.mstatus;
    var t := s.(pc := s.csr.mepc,
                csr := s.csr.(mstatus := if Has(m, MPIE) then WithBit(m, MIE) else WithoutBit(m, MIE)));
    if t.pc % 4 != 0 then t else CycleAdd(t, c.penalty)
  }

  const A0 := 10

  // a7 and a0 to a5
  function Arguments(s: State): seq<Int32> {
    [s.regs[17], s.regs[10], s.regs[11], s.regs[12], s.regs[13], s.regs[14], s.regs[15]]
  }

  function Called(s: State, r: CallResult): State {
    var t := if |r.mem| == |s.mem| then s.(mem := r.mem) else s;
    if r.res != -1 then t.(regs := t.regs[A0 := r.res]) else t
  }

  function System(hard: bool, c: Config, env: Env, s: State, i: U32): Result {
    if Func3(i) == 0 then
      var f := i / 0x10_0000 % 4;
      if f == 0 then
        var r := env.call(Arguments(s), s.mem);
        if r.exits then Result(s, Exited) else Result(TrapTo(c, Called(s, r), 11, 0), Trapped)
      else if f == 1 then Result(TrapTo(c, s, 3, s.pc), Trapped)
      else if f == 2 then Result(MretTo(c, s), Okay)
      else Result(TrapTo(c, s, 2, 0), Trapped)
    else if Func3(i) == 4 then Illegal(c, s, i)
    else CsrAccess(hard, c, s, i)
  }

  // The switch on the opcode
  function Execute(hard: bool, c: Config, env: Env, s: State, i: U32): Result {
    var op := Opcode(i);
    if op == LUI then Result(Next(SetReg(hard, s, Rd(i), ImmU(i))), Okay)
    else if op == AUIPC then Result(Next(SetReg(hard, s, Rd(i), Wrap(s.pc + ImmU(i)))), Okay)
    else if op == JAL || op == JALR then Jump(hard, c, s, i)
    else if op == BRANCH then Branch(hard, c, s, i)
    else if op == LOAD then Load(hard, c, env, s, i)
    else if op == STORE then Store(hard, c, env, s, i)
    else if op == ARITHI || op == ARITHR then Arithmetic(hard, c, s, i)
    else if op == FENCE then Result(Next(s), Okay)
    else if op == SYSTEM then System(hard, c, env, s, i)
    else Illegal(c, s, i)
  }

  // A step as far as the fetch
  function Begun(hard: bool, c: Config, s: State): State {
    var t := s.(timeWritten := false);
    FetchTraps(c, TakeInterrupts(c, if hard then t else t.(regs := t.regs[0 := 0])))
  }

  function Instruction(hard: bool, c: Config, env: Env, s: State, i: U32): Result {
    Execute(hard, c, env, Counted(s, i), i)
  }

  // The rest of it. None when there is no instruction to fetch even after the traps: the source then
  // goes on with whatever its variable holds.
  function Fetched(hard: bool, c: Config, env: Env, s: State): Option<Result> {
    if Reached(c, s.mem, s.pc, 4).Inside? then Some(Instruction(hard, c, env, s, WordAt(s.mem, s.pc - c.base)))
    else None
  }

  function Step(hard: bool, c: Config, env: Env, s: State): Option<Result> { Fetched(hard, c, env, Begun(hard, c, s)) }
}
