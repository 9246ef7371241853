// sw/coremark/core_state.c: the scanner, the block it reads and the benchmark around it.
module CoreState {
  import opened Binary
  import opened Crc
  import opened MachineInts
  import opened Powers
  import opened StateGrammar

  // One counter per state, in the order of the enumeration
  type Counts = n: seq<nat> | |n| == 8 witness seq(8, _ => 0)

  function Index(st: State): nat {
    match st
    case Start => 0
    case Invalid => 1
    case S1 => 2
    case S2 => 3
    case Int => 4
    case Float => 5
    case Exponent => 6
    case Scientific => 7
  }

  ghost function Plus(n: Counts, st: State): Counts {
    n[Index(st) := n[Index(st)] + 1]
  }

  // What one byte adds to the transition counts. Leaving Scientific is counted under Invalid.
  ghost function Tallied(n: Counts, st: State, c: U8): Counts {
    if st == Start then Plus(if Step(st, c) == Invalid then Plus(n, Invalid) else n, Start)
    else if Step(st, c) == st then n
    else Plus(n, if st == Scientific then Invalid else st)
  }

  // Start is counted for every byte it sees, the others when they are left
  lemma TallyMeans(n: Counts, st: State, c: U8)
    requires st != Invalid
    ensures var m := Tallied(n, st, c);
      && m[0] == n[0] + (if st == Start then 1 else 0)
      && m[1] == n[1] + (if (st == Start && !Digit(c) && !Sign(c) && !Dot(c)) || (st == Scientific && !Digit(c)) then 1
                         else 0)
      && m[2] == n[2] + (if st == S1 then 1 else 0) && m[3] == n[3] + (if st == S2 then 1 else 0)
      && m[4] == n[4] + (if st == Int && !Digit(c) then 1 else 0)
      && m[5] == n[5] + (if st == Float && !Digit(c) then 1 else 0)
      && m[6] == n[6] + (if st == Exponent then 1 else 0) && m[7] == n[7]
  {
  }

  ghost function CallCounts(st: State, t: Text, n: Counts): Counts
    decreases |t|
  {
    if t == [] || st == Invalid || Comma(t[0]) then n else CallCounts(Step(st, t[0]), t[1..], Tallied(n, st, t[0]))
  }

  method Count(counts: array<nat>, st: State)
    requires counts.Length == 8
    modifies counts
    ensures counts[..] == Plus(old(counts[..]), st)
  {
    counts[Index(st)] := counts[Index(st)] + 1;
  }

  // The switch of core_state_transition
  method Switch(state: State, symbol: U8, counts: array<nat>) returns (next: State)
    requires counts.Length == 8
    modifies counts
    ensures next == Step(state, symbol) && counts[..] == Tallied(old(counts[..]), state, symbol)
  {
    hide Plus;
    next := state;
    match state
    case Start =>
      if Digit(symbol) {
        next := Int;
      } else if Sign(symbol) {
        next := S1;
      } else if Dot(symbol) {
        next := Float;
      } else {
        next := Invalid;
        Count(counts, Invalid);
      }
      Count(counts, Start);
    case S1 =>
      if Digit(symbol) {
        next := Int;
        Count(counts, S1);
      } else if Dot(symbol) {
        next := Float;
        Count(counts, S1);
      } else {
        next := Invalid;
        Count(counts, S1);
      }
    case Int =>
      if Dot(symbol) {
        next := Float;
        Count(counts, Int);
      } else if !Digit(symbol) {
        next := Invalid;
        Count(counts, Int);
      }
    case Float =>
      if E(symbol) {
        next := S2;
        Count(counts, Float);
      } else if !Digit(symbol) {
        next := Invalid;
        Count(counts, Float);
      }
    case S2 =>
      if Sign(symbol) {
        next := Exponent;
        Count(counts, S2);
      } else {
        next := Invalid;
        Count(counts, S2);
      }
    case Exponent =>
      if Digit(symbol) {
        next := Scientific;
        Count(counts, Exponent);
      } else {
        next := Invalid;
        Count(counts, Exponent);
      }
    case Scientific =>
      if !Digit(symbol) {
        next := Invalid;
        Count(counts, Invalid);
      }
    case Invalid =>
  }

  // The bytes from p up to the NUL
  ghost function TextAt(b: seq<U8>, p: nat): (t: Text)
    requires p <= |b|
    ensures p + |t| <= |b|
    decreases |b| - p
  {
    if p == |b| || b[p] == 0 then [] else [b[p]] + TextAt(b, p + 1)
  }

  ghost predicate Terminated(b: seq<U8>, p: nat) {
    exists k :: p <= k < |b| && b[k] == 0
  }

  lemma {:induction false} TextFrom(b: seq<U8>, p: nat, n: nat)
    requires p <= |b| && Terminated(b, p) && n <= |TextAt(b, p)|
    ensures p + n < |b| && TextAt(b, p + n) == TextAt(b, p)[n..] && Terminated(b, p + n)
    decreases n
  {
    if n > 0 {
      var k :| p <= k < |b| && b[k] == 0;
      assert k >= p + 1;
      TextFrom(b, p + 1, n - 1);
    }
  }

  method Transition(block: array<U8>, instr: nat, counts: array<nat>) returns (state: State, str: nat)
    requires counts.Length == 8 && instr <= block.Length && Terminated(block[..], instr)
    modifies counts
    ensures block[..] == old(block[..])
    ensures var t := TextAt(old(block[..]), instr);
      && state == Result(Start, t) && str == instr + Consumed(Start, t)
      && counts[..] == CallCounts(Start, t, old(counts[..]))
  {
    hide TextAt, Step, Tallied;
    ghost var b := block[..];
    ghost var t := TextAt(b, instr);
    state, str := Start, instr;
    ghost var rest := t;
    TextFrom(b, instr, 0);
    while block[str] != 0 && state != Invalid
      invariant block[..] == b
      invariant str < |b| && Terminated(b, str) && rest == TextAt(b, str)
      invariant Result(state, rest) == Result(Start, t) && str + Consumed(state, rest) == instr + Consumed(Start, t)
      invariant CallCounts(state, rest, counts[..]) == CallCounts(Start, t, old(counts[..]))
      decreases |b| - str
    {
      var symbol := block[str];
      TextHead(b, str);
      if Comma(symbol) {
        str := str + 1;
        return;
      }
      state := Switch(state, symbol, counts);
      rest := rest[1..];
      TextFrom(b, str, 1);
      str := str + 1;
    }
    if state != Invalid {
      TextHead(b, str);
    }
  }

  lemma TextHead(b: seq<U8>, p: nat)
    requires p < |b|
    ensures if b[p] == 0 then TextAt(b, p) == [] else TextAt(b, p) != [] && TextAt(b, p)[0] == b[p]
  {
  }

  // A scan of the whole text: the transition counts and the counts of final states
  ghost function Scanned(t: Text, n: Counts, f: Counts): (Counts, Counts)
    decreases |t|
  {
    if t == [] then (n, f) else
      StopsAt(Start, t);
      Scanned(t[Consumed(Start, t)..], CallCounts(Start, t, n), Plus(f, Result(Start, t)))
  }

  // One call after another until the NUL
  method Scan(block: array<U8>, track: array<nat>, final: array<nat>)
    requires track.Length == 8 && final.Length == 8 && track != final && Terminated(block[..], 0)
    modifies track, final
    ensures block[..] == old(block[..])
    ensures (track[..], final[..]) == Scanned(TextAt(old(block[..]), 0), old(track[..]), old(final[..]))
  {
    hide TextAt, Result, Consumed, CallCounts, Plus;
    ghost var b := block[..];
    ghost var t := TextAt(b, 0);
    var p: nat := 0;
    while block[p] != 0
      invariant block[..] == b
      invariant p < |b| && Terminated(b, p) && t == TextAt(b, p)
      invariant Scanned(t, track[..], final[..]) == Scanned(TextAt(b, 0), old(track[..]), old(final[..]))
      decreases |t|
    {
      TextHead(b, p);
      StopsAt(Start, t);
      TextFrom(b, p, Consumed(Start, t));
      var fstate;
      fstate, p := Transition(block, p, track);
      Count(final, fstate);
      t := t[Consumed(Start, t)..];
    }
    TextHead(b, p);
  }

  // How the counts of a call or a scan fit together: a number with an exponent has passed through
  // the states before it, and a call leaves Start once unless it meets a comma first

  ghost function Is(a: State, b: State): nat { if a == b then 1 else 0 }

  ghost predicate Flows(st: State, r: State, n0: Counts, n1: Counts) {
    && n1[0] + (if st == Start then Is(r, Start) else 0) == n0[0] + Is(st, Start)
    && n1[3] + Is(r, S2) + n0[5] <= n1[5] + n0[3] + Is(st, S2)
    && n1[6] + Is(r, Exponent) + n0[3] <= n1[3] + n0[6] + Is(st, Exponent)
    && n0[6] + Is(r, Scientific) <= n1[6] + Is(st, Scientific)
    && n0[1] <= n1[1] && n1[1] + Is(st, Invalid) <= n0[1] + Is(r, Invalid)
  }

  lemma StepFlows(st: State, c: U8, n: Counts)
    requires st != Invalid
    ensures Flows(st, Step(st, c), n, Tallied(n, st, c)) && Step(st, c) != Start
  {
  }

  lemma FlowsOn(st: State, mid: State, r: State, n0: Counts, n1: Counts, n2: Counts)
    requires Flows(st, mid, n0, n1) && Flows(mid, r, n1, n2) && mid != Start && r != Start
    ensures Flows(st, r, n0, n2)
  {
  }

  lemma {:induction false} CallFlows(st: State, t: Text, n: Counts)
    ensures Flows(st, Result(st, t), n, CallCounts(st, t, n))
    ensures st != Start ==> Result(st, t) != Start
    decreases |t|
  {
    if t != [] && st != Invalid && !Comma(t[0]) {
      var st', n' := Step(st, t[0]), Tallied(n, st, t[0]);
      StepFlows(st, t[0], n);
      CallFlows(st', t[1..], n');
      hide Flows, Step, Tallied;
      FlowsOn(st, st', Result(st, t), n, n', CallCounts(st, t, n));
    }
  }

  ghost function Total(f: Counts): nat {
    f[0] + f[1] + f[2] + f[3] + f[4] + f[5] + f[6] + f[7]
  }

  // n[Start] calls took a byte and f[Start] met a comma at once; every S2, Exponent and Scientific
  // token left the state before
  ghost predicate Balanced(n: Counts, f: Counts) {
    && n[Index(Start)] + f[Index(Start)] == Total(f)
    && n[Index(S2)] + f[Index(S2)] <= n[Index(Float)]
    && n[Index(Exponent)] + f[Index(Exponent)] <= n[Index(S2)]
    && f[Index(Scientific)] <= n[Index(Exponent)]
    && n[Index(Invalid)] <= f[Index(Invalid)]
  }

  lemma {:induction false} ScanIsBalanced(t: Text, n: Counts, f: Counts)
    requires Balanced(n, f)
    ensures var (n', f') := Scanned(t, n, f); Balanced(n', f')
    decreases |t|
  {
    if t != [] {
      StopsAt(Start, t);
      CallFlows(Start, t, n);
      ScanIsBalanced(t[Consumed(Start, t)..], CallCounts(Start, t, n), Plus(f, Result(Start, t)));
    }
  }

  const COMMA: U8 := ',' as int

  function XorByte(x: U8, y: U8): U8 {
    Pow2Values();
    XorInRange(x, y, 8);
    Xor(x, y, 8)
  }

  lemma XorByteTwice(x: U8, y: U8)
    ensures XorByte(XorByte(x, y), y) == x
  {
    Pow2Values();
    XorTwice(x, y, 8);
  }

  // (ee_u8)seed
  function Key(seed: Int16): U8 { seed % 0x100 }

  ghost predicate Hit(i: nat, step: nat) {
    step > 0 && i % step == 0
  }

  // Every byte at a multiple of step, commas excepted, exclusive-ored with key
  ghost function Corrupted(b: seq<U8>, step: nat, key: U8): (r: seq<U8>)
    ensures |r| == |b|
  {
    seq(|b|, i requires 0 <= i < |b| => if Hit(i, step) && !Comma(b[i]) then XorByte(b[i], key) else b[i])
  }

  // The one key that turns a byte into a comma
  lemma CommaKey(x: U8, key: U8)
    ensures Comma(XorByte(x, key)) <==> key == XorByte(x, COMMA)
  {
    hide XorByte;
    XorByteTwice(key, x);
    XorByteTwice(COMMA, x);
    XorByteSwaps(x, key);
    XorByteSwaps(x, COMMA);
  }

  lemma XorByteSwaps(x: U8, y: U8)
    ensures XorByte(x, y) == XorByte(y, x)
  {
    XorSwaps(x, y, 8);
  }

  lemma {:induction false} XorSwaps(x: nat, y: nat, n: nat)
    ensures Xor(x, y, n) == Xor(y, x, n)
  {
    if n > 0 {
      XorSwaps(x / 2, y / 2, n - 1);
    }
  }

  // No byte that a corruption reaches becomes a comma
  ghost predicate NoNewComma(b: seq<U8>, step: nat, key: U8) {
    forall i | 0 <= i < |b| && Hit(i, step) && !Comma(b[i]) :: key != XorByte(b[i], COMMA)
  }

  // Undoing a corruption with the key it was made with gives back the block exactly when no byte
  // was turned into a comma
  lemma CorruptedTwice(b: seq<U8>, step: nat, key: U8)
    ensures Corrupted(Corrupted(b, step, key), step, key) == b <==> NoNewComma(b, step, key)
  {
    hide XorByte, Hit, Comma;
    var c := Corrupted(b, step, key);
    forall i | 0 <= i < |b|
      ensures Corrupted(c, step, key)[i] == b[i] <==>
        (Hit(i, step) && !Comma(b[i]) ==> key != XorByte(b[i], COMMA))
    {
      XorByteTwice(b[i], key);
      CommaKey(b[i], key);
      CommaStays(b[i], key);
    }
  }

  lemma CommaStays(x: U8, key: U8)
    ensures Comma(x) != Comma(XorByte(x, key)) ==> x != XorByte(x, key)
  {
    hide XorByte;
  }

  // Two NULs in a row keep a block terminated: a step of two or more misses one of them
  lemma StaysTerminated(b: seq<U8>, step: nat, key: U8, k: nat)
    requires step >= 2 && k + 1 < |b| && b[k] == 0 && b[k + 1] == 0
    ensures Terminated(Corrupted(b, step, key), 0)
  {
    if Hit(k, step) {
      HitNext(k, step);
      assert Corrupted(b, step, key)[k + 1] == 0;
    } else {
      assert Corrupted(b, step, key)[k] == 0;
    }
  }

  lemma HitNext(p: nat, step: nat)
    requires Hit(p, step)
    ensures Hit(p + step, step) && forall i | p < i < p + step :: !Hit(i, step)
  {
    var q := p / step;
    assert p == step * q;
    assert p + step == step * (q + 1);
    DivMod(p + step, step, q + 1, 0);
    forall i | p < i < p + step
      ensures !Hit(i, step)
    {
      DivMod(i, step, q, i - p);
    }
  }

  // A single pass over the block, for the corruption and for its undoing
  method Corrupt(block: array<U8>, step: Int16, key: U8)
    requires step > 0
    modifies block
    ensures block[..] == Corrupted(old(block[..]), step, key)
  {
    hide Hit, XorByte;
    HitFirst(step);
    var p := 0;
    ghost var next: nat := 0;
    while p < block.Length
      invariant 0 <= p && Hit(p, step) && next <= p && next <= block.Length
      invariant forall i | next <= i < p :: !Hit(i, step)
      invariant forall i | 0 <= i < next :: block[i] == Corrupted(old(block[..]), step, key)[i]
      invariant forall i | next <= i < block.Length :: block[i] == old(block[i])
    {
      if !Comma(block[p]) {
        block[p] := XorByte(block[p], key);
      }
      HitNext(p, step);
      next := p + 1;
      p := p + step;
    }
  }

  lemma HitFirst(step: nat)
    requires step > 0
    ensures Hit(0, step)
  {
  }

  ghost function CrcCounts(f: Counts, n: Counts, i: nat, crc: U16): U16
    requires i <= 8
    decreases 8 - i
  {
    if i == 8 then crc else
      CrcCounts(f, n, i + 1, Fold(Bits(n[i] % 0x1_0000_0000, 32), Fold(Bits(f[i] % 0x1_0000_0000, 32), crc)))
  }

  // The bits of the counters as the CRC takes them: 32 of each, lowest first, those of a state's calls
  // before those of its transitions
  ghost function CounterBits(f: Counts, n: Counts): seq<bool> {
    seq(512, k requires 0 <= k < 512 => Bit((if k / 32 % 2 == 0 then f else n)[k / 64] % 0x1_0000_0000, k % 32))
  }

  lemma Column(i: nat, j: nat)
    requires i < 8 && j < 32
    ensures (64 * i + j) / 32 % 2 == 0 && (64 * i + j) / 64 == i && (64 * i + j) % 32 == j
    ensures (64 * i + 32 + j) / 32 % 2 == 1 && (64 * i + 32 + j) / 64 == i && (64 * i + 32 + j) % 32 == j
  {
    DivMod(64 * i + j, 32, 2 * i, j);
    DivMod(64 * i + 32 + j, 32, 2 * i + 1, j);
    DivMod(64 * i + j, 64, i, j);
    DivMod(64 * i + 32 + j, 64, i, 32 + j);
  }

  // One state's share of them
  lemma StateBits(f: Counts, n: Counts, i: nat)
    requires i < 8
    ensures CounterBits(f, n)[64 * i..] == Bits(f[i] % 0x1_0000_0000, 32) + Bits(n[i] % 0x1_0000_0000, 32)
                                           + CounterBits(f, n)[64 * (i + 1)..]
  {
    hide Bit;
    var b := CounterBits(f, n);
    forall j | 0 <= j < 32
      ensures b[64 * i + j] == Bit(f[i] % 0x1_0000_0000, j) && b[64 * i + 32 + j] == Bit(n[i] % 0x1_0000_0000, j)
    {
      Column(i, j);
    }
    assert b[64 * i..] == b[64 * i..64 * i + 32] + b[64 * i + 32..64 * (i + 1)] + b[64 * (i + 1)..];
    assert b[64 * i..64 * i + 32] == Bits(f[i] % 0x1_0000_0000, 32);
    assert b[64 * i + 32..64 * (i + 1)] == Bits(n[i] % 0x1_0000_0000, 32);
  }

  lemma {:induction false} CountsAreFolded(f: Counts, n: Counts, i: nat, crc: U16)
    requires i <= 8
    ensures CrcCounts(f, n, i, crc) == Fold(CounterBits(f, n)[64 * i..], crc)
    decreases 8 - i
  {
    if i < 8 {
      hide Fold, Bits, CounterBits;
      StateBits(f, n, i);
      var x, y := Bits(f[i] % 0x1_0000_0000, 32), Bits(n[i] % 0x1_0000_0000, 32);
      FoldJoined(x + y, CounterBits(f, n)[64 * (i + 1)..], crc);
      FoldJoined(x, y, crc);
      CountsAreFolded(f, n, i + 1, Fold(y, Fold(x, crc)));
    }
  }

  ghost function Zero(): Counts { seq(8, _ => 0) }

  // What core_bench_state computes: both scans count on from each other
  ghost function BenchCrc(b: seq<U8>, c: seq<U8>, crc: U16): U16 {
    var first := Scanned(TextAt(b, 0), Zero(), Zero());
    var second := Scanned(TextAt(c, 0), first.0, first.1);
    Fold(CounterBits(second.1, second.0), crc)
  }

  // The corrupted block must still hold a NUL for the second scan to end within it
  method CoreBenchState(memblock: array<U8>, seed1: Int16, seed2: Int16, step: Int16, crc0: U16) returns (crc: U16)
    requires step > 0 && Terminated(memblock[..], 0) && Terminated(Corrupted(memblock[..], step, Key(seed1)), 0)
    modifies memblock
    ensures var b := old(memblock[..]); var c := Corrupted(b, step, Key(seed1));
      memblock[..] == Corrupted(c, step, Key(seed2)) && crc == BenchCrc(b, c, crc0)
    ensures Key(seed1) == Key(seed2) ==>
      (memblock[..] == old(memblock[..]) <==> NoNewComma(old(memblock[..]), step, Key(seed1)))
  {
    hide Corrupted, Terminated, Scanned, CounterBits, Fold, TextAt, NoNewComma;
    CorruptedTwice(memblock[..], step, Key(seed1));
    ghost var b, c := memblock[..], Corrupted(memblock[..], step, Key(seed1));
    var final, track := new nat[8](_ => 0), new nat[8](_ => 0);
    assert final[..] == Zero() && track[..] == Zero();
    Scan(memblock, track, final);
    ghost var first := Scanned(TextAt(b, 0), Zero(), Zero());
    assert first == (track[..], final[..]);
    Corrupt(memblock, step, Key(seed1));
    Scan(memblock, track, final);
    assert Scanned(TextAt(c, 0), first.0, first.1) == (track[..], final[..]);
    Corrupt(memblock, step, Key(seed2));
    crc := CrcOfCounts(final, track, crc0);
  }

  method CrcOfCounts(final: array<nat>, track: array<nat>, crc0: U16) returns (crc: U16)
    requires final.Length == track.Length == 8
    ensures crc == Fold(CounterBits(final[..], track[..]), crc0)
  {
    CountsAreFolded(final[..], track[..], 0, crc0);
    assert CounterBits(final[..], track[..])[0..] == CounterBits(final[..], track[..]);
    hide Fold, Bits, CounterBits;
    crc := crc0;
    var i := 0;
    while i < 8
      invariant 0 <= i <= 8
      invariant CrcCounts(final[..], track[..], i, crc) == CrcCounts(final[..], track[..], 0, crc0)
    {
      crc := Crcu32(final[i] % 0x1_0000_0000, crc);
      crc := Crcu32(track[i] % 0x1_0000_0000, crc);
      i := i + 1;
    }
  }

  // The block that core_init_state fills

  function Ascii(s: string): Text
    requires forall i | 0 <= i < |s| :: s[i] as int < 0x100
  {
    seq(|s|, i requires 0 <= i < |s| => s[i] as int)
  }

  function Pattern(seed: Int16): (p: Text)
    ensures |p| == 4 || |p| == 8
  {
    var k := seed / 8 % 4;
    if seed % 8 <= 2 then
      Ascii(if k == 0 then "5012" else if k == 1 then "1234" else if k == 2 then "-874" else "+122")
    else if seed % 8 <= 4 then
      Ascii(if k == 0 then "35.54400" else if k == 1 then ".1234500" else if k == 2 then "-110.700" else "+0.64400")
    else if seed % 8 <= 6 then
      Ascii(if k == 0 then "5.500e+3" else if k == 1 then "-.123e-2" else if k == 2 then "-87e+832" else "+0.6e-12")
    else
      Ascii(if k == 0 then "T0.3e-1F" else if k == 1 then "-T.T++Tq" else if k == 2 then "1T3.4e4z" else "34.0e-T^")
  }

  // The patterns that fit into room bytes, each followed by a comma
  ghost function InitText(seed: Int16, room: nat): (t: Text)
    ensures |t| <= room && (room >= 1 ==> |t| < room)
    decreases room
  {
    var p := Pattern(Next16(seed));
    if |p| + 1 < room then p + [COMMA] + InitText(Next16(seed), room - |p| - 1) else []
  }

  // Copy a pattern and its comma behind the first total bytes
  method Append(p: array<U8>, total: nat, buf: Text)
    requires total + |buf| < p.Length
    modifies p
    ensures p[..] == old(p[..total]) + buf + [COMMA] + old(p[total + |buf| + 1..])
  {
    var i := 0;
    while i < |buf|
      invariant 0 <= i <= |buf|
      invariant forall k | 0 <= k < p.Length :: p[k] == if total <= k < total + i then buf[k - total] else old(p[k])
    {
      p[total + i] := buf[i];
      i := i + 1;
    }
    p[total + i] := COMMA;
  }

  // NULs from total on
  method Pad(p: array<U8>, total0: nat, size: nat)
    requires total0 <= size <= p.Length
    modifies p
    ensures p[..] == old(p[..total0]) + seq(size - total0, _ => 0) + old(p[size..])
  {
    var total := total0;
    while total < size
      invariant total0 <= total <= size
      invariant forall k | 0 <= k < p.Length :: p[k] == if total0 <= k < total then 0 else old(p[k])
    {
      p[total] := 0;
      total := total + 1;
    }
  }

  // The patterns that are in p, and those to come
  lemma Appended(seed: Int16, room: nat, done: Text, all: Text)
    requires done + InitText(seed, room) == all && |Pattern(Next16(seed))| + 1 < room
    ensures var q := Pattern(Next16(seed));
      (done + q + [COMMA]) + InitText(Next16(seed), room - |q| - 1) == all
  {
    hide Pattern, InitText;
    InitTextNext(seed, room);
  }

  // Patterns with their commas, as long as they fit
  method Fill(size: nat, seed0: Int16, p: array<U8>) returns (total: nat)
    requires 1 <= size <= p.Length
    modifies p
    ensures total < size && p[..total] == InitText(seed0, size - 1) && p[total..] == old(p[total..])
  {
    hide Pattern, InitText;
    var next, seed, buf := 0, seed0, [];
    total := 0;
    ghost var before := seed0;
    ghost var text := InitText(seed0, size - 1);
    while total + next + 1 < size - 1
      invariant total <= size - 1 && next == |buf|
      invariant next > 0 ==> seed == Next16(before) && buf == Pattern(seed)
      invariant next == 0 ==> seed == before && total == 0
      invariant p[..total] + InitText(before, size - 1 - total) == text
      invariant p[total..] == old(p[total..])
      decreases size - total, next == 0
    {
      if next > 0 {
        ghost var done := p[..total];
        Appended(before, size - 1 - total, done, text);
        Append(p, total, buf);
        total := total + next + 1;
        assert p[..total] == done + buf + [COMMA];
        before := seed;
      }
      seed := Next16(seed);
      buf := Pattern(seed);
      next := |buf|;
    }
    InitTextNext(before, size - 1 - total);
  }

  method CoreInitState(size: nat, seed0: Int16, p: array<U8>)
    requires 1 <= size <= p.Length
    modifies p
    ensures var t := InitText(seed0, size - 1);
      p[..] == t + seq(size - |t|, _ => 0) + old(p[size..])
  {
    hide Pattern, InitText;
    var total := Fill(size, seed0, p);
    assert p[size..] == p[total..][size - total..];
    Pad(p, total, size);
  }

  lemma InitTextNext(seed: Int16, room: nat)
    ensures var p := Pattern(Next16(seed));
      InitText(seed, room) == if |p| + 1 < room then p + [COMMA] + InitText(Next16(seed), room - |p| - 1) else []
  {
  }

  // A freshly filled block of two bytes or more ends in two NULs, so both scans stay within it
  // for every step but one
  lemma InitIsTerminated(seed: Int16, size: nat, step: nat, key: U8)
    requires size >= 2 && step >= 2
    ensures var t := InitText(seed, size - 1); var b := t + seq(size - |t|, _ => 0);
      Terminated(b, 0) && Terminated(Corrupted(b, step, key), 0)
  {
    hide InitText, Corrupted;
    var t := InitText(seed, size - 1);
    var b: seq<U8> := t + seq(size - |t|, _ => 0);
    assert b[size - 2] == 0 && b[size - 1] == 0;
    StaysTerminated(b, step, key, size - 2);
  }

  // The block of the seed -1 begins with "5012", whose first byte the key 0x19 turns into a comma:
  // it is not restored, whatever the step
  lemma NotRestored(size: nat, step: nat)
    requires size >= 7 && step > 0
    ensures var t := InitText(-1, size - 1); var b := t + seq(size - |t|, _ => 0);
      !NoNewComma(b, step, 0x19) && Corrupted(Corrupted(b, step, 0x19), step, 0x19) != b
  {
    hide Corrupted, NoNewComma, InitText;
    var t := InitText(-1, size - 1);
    var b: seq<U8> := t + seq(size - |t|, _ => 0);
    InitTextNext(-1, size - 1);
    FirstPattern();
    HitFirst(step);
    Reached(b, step, 0x19, 0);
    CorruptedTwice(b, step, 0x19);
  }

  lemma FirstPattern()
    ensures Pattern(Next16(-1)) == [0x35, 0x30, 0x31, 0x32] && XorByte(0x35, COMMA) == 0x19
  {
    assert Xor(1, 1, 3) == 0;
    assert Xor(6, 5, 5) == 3;
    assert Xor(26, 22, 7) == 12;
  }

  lemma Reached(b: seq<U8>, step: nat, key: U8, i: nat)
    requires i < |b| && Hit(i, step) && !Comma(b[i]) && key == XorByte(b[i], COMMA)
    ensures !NoNewComma(b, step, key)
  {
    hide XorByte, Hit;
  }

  // "5012", "+122", ".1234500" and "5.500e+3"
  lemma PatternExamples()
    ensures Pattern(0) == [0x35, 0x30, 0x31, 0x32] && Pattern(26) == [0x2b, 0x31, 0x32, 0x32]
    ensures Pattern(11) == [0x2e, 0x31, 0x32, 0x33, 0x34, 0x35, 0x30, 0x30]
    ensures Pattern(6) == [0x35, 0x2e, 0x35, 0x30, 0x30, 0x65, 0x2b, 0x33]
  {
  }

  lemma RunNext(p: Text, n: nat)
    requires n < |p|
    ensures Run(p[..0]) == Start && Run(p[..n + 1]) == Step(Run(p[..n]), p[n])
  {
    assert p[..n + 1][..n] == p[..n];
  }

  // The first bytes of the faulty patterns
  lemma FaultyBytes(seed: Int16)
    requires seed % 8 == 7
    ensures var p, k := Pattern(seed), seed / 8 % 4;
      && |p| == 8
      && (k == 0 ==> p[..1] == [0x54]) && (k == 1 ==> p[..2] == [0x2d, 0x54]) && (k == 2 ==> p[..2] == [0x31, 0x54])
      && (k == 3 ==> p[..7] == [0x33, 0x34, 0x2e, 0x30, 0x65, 0x2d, 0x54])
  {
  }

  // None of them is a text that the scanner knows
  lemma FaultyPatterns(seed: Int16)
    requires seed % 8 == 7
    ensures Run(Pattern(seed)) == Invalid
  {
    FaultyBytes(seed);
    hide Pattern, Run;
    var p, k := Pattern(seed), seed / 8 % 4;
    var q := if k == 0 then p[..1] else if k < 3 then p[..2] else p[..7];
    FaultyPrefix(q, k);
    FaultyFrom(p, |q|);
  }

  lemma FaultyPrefix(q: Text, k: int)
    requires 0 <= k < 4
    requires q == if k == 0 then [0x54] else if k == 1 then [0x2d, 0x54] else if k == 2 then [0x31, 0x54]
                  else [0x33, 0x34, 0x2e, 0x30, 0x65, 0x2d, 0x54]
    ensures Run(q) == Invalid
  {
    hide Run;
    assert q[..|q|] == q;
    RunNext(q, 0);
    if k > 0 {
      RunNext(q, 1);
    }
    if k == 3 {
      FaultyExponent(q);
    }
  }

  lemma FaultyExponent(q: Text)
    requires q == [0x33, 0x34, 0x2e, 0x30, 0x65, 0x2d, 0x54]
    ensures Run(q) == Invalid
  {
    hide Run;
    assert q[..7] == q;
    RunNext(q, 0);
    RunNext(q, 1);
    RunNext(q, 2);
    RunNext(q, 3);
    RunNext(q, 4);
    RunNext(q, 5);
    RunNext(q, 6);
  }

  lemma {:induction false} FaultyFrom(p: Text, n: nat)
    requires n <= |p| && Run(p[..n]) == Invalid
    ensures Run(p) == Invalid
    decreases |p| - n
  {
    if n < |p| {
      assert p[..n + 1][..n] == p[..n];
      FaultyFrom(p, n + 1);
    } else {
      assert p[..n] == p;
    }
  }

  lemma IntPatterns(seed: Int16)
    requires seed % 8 <= 2
    ensures Accepts(Int, Pattern(seed))
  {
  }

  lemma FloatPatterns(seed: Int16)
    requires 3 <= seed % 8 <= 4
    ensures Accepts(Float, Pattern(seed))
  {
    hide IsFloat;
    var k := seed / 8 % 4;
    FloatPattern(Pattern(seed), if k == 0 then 2 else if k == 1 then 0 else if k == 2 then 4 else 2);
  }

  // One of the scientific patterns lacks the point that the scanner insists on
  lemma ScientificPatterns(seed: Int16)
    requires 5 <= seed % 8 <= 6
    ensures Accepts(Scientific, Pattern(seed)) <==> seed / 8 % 4 != 2
  {
    hide IsFloat, IsScientific;
    var p, k := Pattern(seed), seed / 8 % 4;
    if k == 2 {
      NoPoint(p);
    } else {
      ScientificPattern(p, if k == 0 then 1 else if k == 1 then 1 else 2, if k == 3 then 4 else 5);
    }
  }

  lemma ScientificPattern(p: Text, k: nat, e: nat)
    requires k < e < |p| - 2 && Dot(p[k]) && E(p[e]) && Sign(p[e + 1])
    requires forall i | 0 <= i < |p| && i != k && i != e && i != e + 1 :: Digit(p[i]) || (i == 0 && Sign(p[i]))
    ensures IsScientific(p)
  {
    FloatPattern(p[..e], k);
    assert ExponentAt(p, e);
  }

  lemma FloatPattern(p: Text, k: nat)
    requires k < |p| && Dot(p[k])
    requires forall i | 0 <= i < |p| && i != k :: Digit(p[i]) || (i == 0 && Sign(p[i]))
    ensures IsFloat(p)
  {
    var u := Unsigned(p);
    var d := if |u| < |p| then k - 1 else k;
    assert DotAt(u, d);
  }

  lemma NoPoint(p: Text)
    requires forall i | 0 <= i < |p| :: !Dot(p[i])
    ensures !IsScientific(p)
  {
    forall k | 0 <= k < |p|
      ensures !IsFloat(p[..k])
    {
      var q := p[..k];
      assert forall i | 0 <= i < |q| :: q[i] == p[i];
      assert forall i | 0 <= i < |Unsigned(q)| :: !Dot(Unsigned(q)[i]);
    }
  }

  // A call that starts at an accepted text followed by a comma takes all of it
  lemma TakesToken(p: Text, st: State, rest: Text)
    requires st != Invalid && Accepts(st, p) && forall i | 0 <= i < |p| :: !Comma(p[i])
    ensures var t := p + [COMMA] + rest; Result(Start, t) == st && Consumed(Start, t) == |p| + 1
  {
    var t := p + [COMMA] + rest;
    TokenIs(p, rest);
    TransitionClassifies(t, st);
    StopsAt(Start, t);
  }

  lemma {:induction false} TokenIs(p: Text, rest: Text)
    requires forall i | 0 <= i < |p| :: !Comma(p[i])
    ensures Token(p + [COMMA] + rest) == p
  {
    var t := p + [COMMA] + rest;
    if p != [] {
      assert t[1..] == p[1..] + [COMMA] + rest;
      TokenIs(p[1..], rest);
    }
  }
}
