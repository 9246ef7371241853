module CoreList {
  import opened Crc
  import opened MachineInts

  class ListData {
    var data16: U16
    var idx: Int16

    constructor (data16: U16, idx: Int16)
      ensures this.data16 == data16 && this.idx == idx
    {
      this.data16 := data16;
      this.idx := idx;
    }
  }

  class ListHead {
    var next: ListHead?
    var info: ListData

    constructor (info: ListData)
      ensures this.info == info && next == null
    {
      this.info := info;
      next := null;
    }
  }

  // The two kernels called by calc_func are outside this module: each call takes the next result of
  // an arbitrary stream, so nothing proved here depends on what the kernels compute.
  class Results {
    const stateKernel: (nat, U16, U16) -> U16
    const matrixKernel: (nat, U16, U16) -> U16
    var calls: nat
    var seed3: Int16
    var list: ListHead?
    var crc: U16
    var crcstate: U16
    var crcmatrix: U16

    constructor (stateKernel: (nat, U16, U16) -> U16, matrixKernel: (nat, U16, U16) -> U16,
                 seed3: Int16, list: ListHead?)
      ensures this.stateKernel == stateKernel && this.matrixKernel == matrixKernel
      ensures calls == 0 && this.seed3 == seed3 && this.list == list && crc == crcstate == crcmatrix == 0
    {
      this.stateKernel, this.matrixKernel := stateKernel, matrixKernel;
      this.calls, this.seed3, this.list := 0, seed3, list;
      crc, crcstate, crcmatrix := 0, 0, 0;
    }

    method BenchState(step: U16) returns (r: U16)
      modifies `calls, `crcstate
      ensures r == stateKernel(old(calls), step, crc) && calls == old(calls) + 1
      ensures crcstate == if old(crcstate) == 0 then r else old(crcstate)
    {
      r := stateKernel(calls, step, crc);
      calls := calls + 1;
      if crcstate == 0 {
        crcstate := r;
      }
    }

    method BenchMatrix(seed: U16) returns (r: U16)
      modifies `calls, `crcmatrix
      ensures r == matrixKernel(old(calls), seed, crc) && calls == old(calls) + 1
      ensures crcmatrix == if old(crcmatrix) == 0 then r else old(crcmatrix)
    {
      r := matrixKernel(calls, seed, crc);
      calls := calls + 1;
      if crcmatrix == 0 {
        crcmatrix := r;
      }
    }
  }

  // Fields of a datum: bits 15..8, bits 7..0, bit 7 and bits 6..0
  function High(data: U16): U16 { data / 256 }
  function Low(data: U16): U16 { data % 256 }
  predicate Cached(data: U16) { data / 128 % 2 == 1 }
  function Low7(data: U16): U16 { data % 128 }

  datatype Record = Record(data16: U16, idx: Int16)

  function Rec(d: ListData): Record
    reads d
  {
    Record(d.data16, d.idx)
  }

  datatype Comparator = CmpComplex | CmpIdx | ReadOnly(order: (Record, Record) -> int)

  datatype Order = Order(cmp: Comparator, res: Results?)

  ghost predicate Leq(o: Order, a: Record, b: Record) {
    match o.cmp
    case CmpComplex => Low7(a.data16) <= Low7(b.data16)
    case CmpIdx => a.idx <= b.idx
    case ReadOnly(order) => order(a, b) <= 0
  }

  ghost predicate Fixed(o: Order, r: Record) {
    match o.cmp
    case CmpComplex => Cached(r.data16)
    case CmpIdx => o.res == null ==> Low(r.data16) == High(r.data16)
    case ReadOnly(_) => true
  }

  ghost predicate Usable(o: Order) {
    match o.cmp
    case CmpComplex => o.res != null
    case CmpIdx => true
    case ReadOnly(order) =>
      && (forall a, b :: order(a, b) <= 0 || order(b, a) <= 0)
      && (forall a, b, c :: order(a, b) <= 0 && order(b, c) <= 0 ==> order(a, c) <= 0)
  }

  // r1 is what comparisons may have made of r0
  ghost predicate Evolves(o: Order, r0: Record, r1: Record) {
    && r1.idx == r0.idx
    && High(r1.data16) == High(r0.data16)
    && (r1 == r0 || (!Fixed(o, r0) && Fixed(o, r1)))
  }

  // data with bit 7 set and bits 6..0 those of retval
  function WithResult(data: U16, retval: U16): (r: U16)
    ensures High(r) == High(data) && Low7(r) == Low7(retval) && Cached(r)
  {
    data / 256 * 256 + 128 + retval % 128
  }

  // The 8-bit operand of a kernel: bits 3..6 of the datum, twice
  function Operand(data: U16): U16 {
    var d := data / 8 % 16;
    16 * d + d
  }

  // What calc_func computes for a datum that is not cached
  ghost function Evaluation(res: Results, data: U16): U16
    reads res`calls, res`crc
  {
    if data % 8 == 0 then
      res.stateKernel(res.calls, if Operand(data) < 0x22 then 0x22 else Operand(data), res.crc)
    else if data % 8 == 1 then
      res.matrixKernel(res.calls, Operand(data), res.crc)
    else
      data
  }

  method CalcFunc(pdata: ListData, res: Results) returns (retval: U16)
    modifies pdata`data16, res`calls, res`crc, res`crcstate, res`crcmatrix
    ensures retval == Low7(pdata.data16)
    ensures Cached(pdata.data16)
    ensures High(pdata.data16) == High(old(pdata.data16))
    ensures Cached(old(pdata.data16)) ==>
      pdata.data16 == old(pdata.data16) && res.crc == old(res.crc) && res.calls == old(res.calls)
    ensures Cached(old(pdata.data16)) ==> res.crcstate == old(res.crcstate) && res.crcmatrix == old(res.crcmatrix)
    ensures !Cached(old(pdata.data16)) ==>
      && retval == Low7(old(Evaluation(res, pdata.data16)))
      && res.crc == Crc16(old(Evaluation(res, pdata.data16)), old(res.crc))
    ensures !Cached(old(pdata.data16)) ==>
      var data, r := old(pdata.data16), old(Evaluation(res, pdata.data16));
      var operand := 17 * (data / 8 % 16);
      && (data % 8 == 0 ==> r == old(res.stateKernel(res.calls, if operand < 34 then 34 else operand, res.crc)))
      && (data % 8 == 1 ==> r == old(res.matrixKernel(res.calls, operand, res.crc)))
      && (data % 8 > 1 ==> r == data)
      && res.calls == old(res.calls) + (if data % 8 <= 1 then 1 else 0)
      && res.crcstate == (if data % 8 == 0 && old(res.crcstate) == 0 then r else old(res.crcstate))
      && res.crcmatrix == (if data % 8 == 1 && old(res.crcmatrix) == 0 then r else old(res.crcmatrix))
  {
    hide Crc16, WithResult;
    var data := pdata.data16;
    var optype := data / 128 % 2;
    if optype != 0 {
      return data % 128;
    }
    var flag := data % 8;
    var dtype := data / 8 % 16;
    dtype := dtype + 16 * dtype;
    if flag == 0 {
      if dtype < 0x22 {
        dtype := 0x22;
      }
      retval := res.BenchState(dtype);
    } else if flag == 1 {
      retval := res.BenchMatrix(dtype);
    } else {
      retval := data;
    }
    res.crc := Crc16(retval, res.crc);
    pdata.data16 := WithResult(data, retval);
    retval := retval % 128;
  }

  lemma Rebuilt(data: U16)
    ensures var d := data / 256 * 256 + data / 256;
      d < 0x1_0000 && High(d) == Low(d) == High(data) && (Low(data) == High(data) ==> d == data)
  {
  }

  method Compare(cmp: Comparator, a: ListData, b: ListData, res: Results?) returns (c: int)
    requires Usable(Order(cmp, res))
    modifies a`data16, b`data16, Scratch(res)`calls, Scratch(res)`crc, Scratch(res)`crcstate, Scratch(res)`crcmatrix
    ensures forall d | d in {a, b} :: Fixed(Order(cmp, res), Rec(d)) && Evolves(Order(cmp, res), old(Rec(d)), Rec(d))
    ensures c <= 0 <==> Leq(Order(cmp, res), Rec(a), Rec(b))
    ensures cmp.CmpComplex? ==> (c <= 0 <==> a.data16 % 128 <= b.data16 % 128)
    ensures cmp.CmpIdx? ==> (c <= 0 <==> a.idx <= b.idx)
  {
    hide Crc16, Evaluation, High, Low;
    match cmp
    case CmpComplex =>
      var val1 := CalcFunc(a, res);
      var val2 := CalcFunc(b, res);
      c := val1 as int - val2 as int;
    case CmpIdx =>
      if res == null {
        Rebuilt(a.data16);
        Rebuilt(b.data16);
        a.data16 := a.data16 / 256 * 256 + a.data16 / 256;
        b.data16 := b.data16 / 256 * 256 + b.data16 / 256;
      }
      c := a.idx as int - b.idx as int;
    case ReadOnly(order) =>
      c := order(Rec(a), Rec(b));
  }

  ghost function Scratch(res: Results?): set<Results> {
    if res == null then {} else {res}
  }
}
