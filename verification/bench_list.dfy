// core_bench_list: the list that is searched, sorted, taken apart and put together again.
module BenchList {
  import opened Binary
  import opened CoreList
  import opened Crc
  import opened ListSearch
  import opened MachineInts
  import opened MergeOrder
  import opened MergeSort

  // The records when two nodes have exchanged their data
  ghost function Swapped(rec: Snapshot, a: ListHead, b: ListHead): Snapshot {
    rec[a := At(rec, b)][b := At(rec, a)]
  }

  function Without<T>(s: seq<T>, k: nat): seq<T>
    requires k < |s|
  {
    s[..k] + s[k + 1..]
  }

  function Inserted<T>(s: seq<T>, k: nat, x: T): seq<T>
    requires k <= |s|
  {
    s[..k] + [x] + s[k..]
  }

  method Remove(item: ListHead, ghost list: ListHead, ghost s: seq<ListHead>, ghost k: nat, ghost all: set<ListHead>)
      returns (ret: ListHead)
    requires IsList(list, s) && k + 1 < |s| && item == s[k] && Nodes(s) <= all
    modifies {item, s[k + 1]}`next, {item, s[k + 1]}`info
    ensures ret == s[k + 1] && IsList(list, Without(s, k + 1)) && ret.next == null
    ensures item.info == old(ret.info) && ret.info == old(item.info)
    ensures Records(all) == Swapped(old(Records(all)), item, ret)
  {
    ret := item.next;
    item.info, ret.info := ret.info, item.info;
    item.next := item.next.next;
    ret.next := null;
  }

  method UndoRemove(item_removed: ListHead, item_modified: ListHead, ghost list: ListHead, ghost s: seq<ListHead>,
                    ghost k: nat,
                    ghost all: set<ListHead>)
      returns (ret: ListHead)
    requires IsList(list, s) && k < |s| && item_modified == s[k] && item_removed !in s
    requires item_removed in all && item_modified in all
    modifies item_removed`next, item_removed`info, item_modified`next, item_modified`info
    ensures ret == item_removed && IsList(list, Inserted(s, k + 1, item_removed))
    ensures item_modified.info == old(item_removed.info) && item_removed.info == old(item_modified.info)
    ensures Records(all) == Swapped(old(Records(all)), item_modified, item_removed)
  {
    item_removed.info, item_modified.info := item_modified.info, item_removed.info;
    item_removed.next := item_modified.next;
    item_modified.next := item_removed;
    ret := item_removed;
  }

  // crc16 of the same datum, n times
  function CrcTimes(n: nat, data: U16, crc: U16): U16 {
    if n == 0 then crc else CrcTimes(n - 1, data, Crc16(data, crc))
  }

  // The CRC of the first datum, once for each node from finder on
  method CrcLoop(list: ListHead, finder0: ListHead?, retval0: U16, ghost r: seq<ListHead>, ghost all: set<ListHead>)
      returns (retval: U16)
    requires IsList(finder0, r)
    ensures Records(all) == old(Records(all))
    ensures retval == CrcTimes(|r|, list.info.data16, retval0)
  {
    hide Crc16;
    retval := retval0;
    var finder := finder0;
    ghost var rest := r;
    while finder != null
      invariant IsList(finder, rest)
      invariant CrcTimes(|r|, list.info.data16, retval0) == CrcTimes(|rest|, list.info.data16, retval)
      decreases |rest|
    {
      retval := Crc16(list.info.data16, retval);
      finder := finder.next;
      rest := rest[1..];
    }
  }

  // The CRC taken while the second node is removed
  ghost function CrcRemoved(rec: Snapshot, s: seq<ListHead>, info: Record, crc: U16): U16
    requires |s| >= 3
  {
    var t := Without(s, 2);
    var k := FirstMatch(Swapped(rec, s[1], s[2]), t, info);
    CrcTimes(if k < |t| then |t| - k else |t| - 1, At(rec, s[0]).data16, crc)
  }

  lemma SuffixIsList(list: ListHead?, s: seq<ListHead>, k: nat)
    requires IsList(list, s) && k < |s|
    ensures IsList(s[k], s[k..])
  {
  }

  lemma SwappedTwice(rec: Snapshot, a: ListHead, b: ListHead)
    requires a in rec && b in rec && a != b
    ensures Swapped(Swapped(rec, a, b), a, b) == rec
    ensures forall n | n != a && n != b :: At(Swapped(rec, a, b), n) == At(rec, n)
  {
  }

  lemma ThirdApart(list: ListHead, s: seq<ListHead>)
    requires IsList(list, s) && |s| >= 3
    ensures s[0] != s[1] && s[0] != s[2] && s[1] != s[2] && s[2] !in Without(s, 2)
  {
  }

  lemma HeadIs(list: ListHead, s: seq<ListHead>)
    requires IsList(list, s)
    ensures s != [] && list == s[0]
  {
  }

  lemma HeadRecord(all: set<ListHead>, list: ListHead, s: seq<ListHead>)
    requires IsList(list, s) && Nodes(s) <= all
    ensures At(Records(all), s[0]) == Rec(list.info)
  {
    assert s[0] in all;
  }

  lemma PutBack(s: seq<ListHead>)
    requires |s| >= 3
    ensures Inserted(Without(s, 2), 2, s[2]) == s && |Without(s, 2)| == |s| - 1
    ensures Nodes(Without(s, 2)) <= Nodes(s) && s[1] in Nodes(s) && s[2] in Nodes(s)
    ensures Without(s, 2)[0] == s[0] && Without(s, 2)[1] == s[1]
  {
  }

  // Remove the second node, CRC the rest from the location of info on, and undo the removal
  method RemoveCrcUndo(list: ListHead, info: Record, retval0: U16, ghost s: seq<ListHead>, ghost all: set<ListHead>)
      returns (retval: U16)
    requires IsList(list, s) && |s| >= 3 && Nodes(s) == all
    modifies all`next, all`info
    ensures IsList(list, s) && Records(all) == old(Records(all))
    ensures forall n | n in all :: n.info == old(n.info)
    ensures retval == CrcRemoved(Records(all), s, info, retval0)
  {
    hide Linked, Distinct, Nodes, FirstMatch, CrcTimes, Records, Swapped, At, Infos, Without, Inserted;
    ghost var rec := Records(all);
    ghost var t := Without(s, 2);
    HeadIs(list, s);
    SecondNode(list, s);
    PutBack(s);
    ThirdApart(list, s);
    SwappedTwice(rec, s[1], s[2]);
    var remover := Remove(list.next, list, s, 1, all);
    HeadRecord(all, list, t);
    SecondNode(list, t);
    var finder := Find(list, info, t, all);
    ghost var k := FirstMatch(Swapped(rec, s[1], s[2]), t, info);
    if finder == null {
      finder := list.next;
      k := 1;
    }
    SuffixIsList(list, t, k);
    retval := CrcLoop(list, finder, retval0, t[k..], all);
    remover := UndoRemove(remover, list.next, list, t, 1, all);
  }

  // Every datum is backed up in its upper byte, as core_list_init leaves it
  ghost predicate BackedUp(rec: Snapshot, nodes: seq<ListHead>) {
    forall n | n in nodes :: Low(At(rec, n).data16) == High(At(rec, n).data16)
  }

  lemma SameRest(s: seq<ListHead>, t: seq<ListHead>)
    requires s != [] && t != [] && s[0] == t[0] && multiset(s) == multiset(t)
    ensures multiset(s[1..]) == multiset(t[1..])
    ensures s[1..] == t[1..] ==> s == t
  {
    assert s == [s[0]] + s[1..] && t == [t[0]] + t[1..];
    assert multiset(s[1..]) == multiset(s) - multiset{s[0]};
    assert multiset(t[1..]) == multiset(t) - multiset{t[0]};
  }

  ghost predicate IndexOrdered(rec: Snapshot, s: seq<ListHead>) {
    forall i, j | 0 <= i < j < |s| :: At(rec, s[i]).idx <= At(rec, s[j]).idx
  }

  ghost predicate StrictlyIndexOrdered(rec: Snapshot, s: seq<ListHead>) {
    forall i, j | 0 <= i < j < |s| :: At(rec, s[i]).idx < At(rec, s[j]).idx
  }

  lemma FirstIsLeast(rec: Snapshot, nodes: seq<ListHead>, out: seq<ListHead>)
    requires multiset(out) == multiset(nodes) && nodes != [] && out != []
    requires StrictlyIndexOrdered(rec, nodes) && IndexOrdered(rec, out)
    ensures out[0] == nodes[0]
  {
    SameNodes(out, nodes);
    assert nodes[0] in Nodes(out) && out[0] in Nodes(nodes);
  }

  // Two orders of the same nodes by increasing index, one of them strict, are the same
  lemma {:induction false} OrderIsUnique(rec: Snapshot, nodes: seq<ListHead>, out: seq<ListHead>)
    requires multiset(out) == multiset(nodes)
    requires StrictlyIndexOrdered(rec, nodes) && IndexOrdered(rec, out)
    ensures out == nodes
  {
    SameNodes(out, nodes);
    if nodes != [] {
      FirstIsLeast(rec, nodes, out);
      SameRest(out, nodes);
      OrderIsUnique(rec, nodes[1..], out[1..]);
    }
  }

  lemma Regenerated(r0: Record, r1: Record, r2: Record, res: Results?)
    requires Evolves(Order(CmpComplex, res), r0, r1) && Evolves(Order(CmpIdx, null), r1, r2)
    requires Low(r0.data16) == High(r0.data16) && Fixed(Order(CmpIdx, null), r2)
    ensures r2 == r0
  {
  }

  lemma RestoredData(r0: Snapshot, r1: Snapshot, r2: Snapshot, res: Results?, nodes: seq<ListHead>)
    requires BackedUp(r0, nodes) && r0.Keys == Nodes(nodes)
    requires EvolvesAll(Order(CmpComplex, res), r0, r1) && EvolvesAll(Order(CmpIdx, null), r1, r2)
    requires AllFixed(Order(CmpIdx, null), r2, nodes)
    ensures r2 == r0
  {
    hide Evolves, Fixed, High, Low;
    forall n | n in nodes
      ensures r2[n] == r0[n]
    {
      assert n in r0 && n in r1 && n in r2;
      assert At(r0, n) == r0[n] && At(r2, n) == r2[n];
      Regenerated(r0[n], r1[n], r2[n], res);
    }
  }

  // Sorting by index with the data regenerated gives back the original data, and the original order
  // if it was by increasing index
  lemma Restored(r0: Snapshot, r1: Snapshot, r2: Snapshot, res: Results?,
                 nodes: seq<ListHead>, s: seq<ListHead>, out: seq<ListHead>)
    requires BackedUp(r0, nodes) && r0.Keys == Nodes(nodes) && multiset(s) == multiset(nodes)
    requires EvolvesAll(Order(CmpComplex, res), r0, r1) && EvolvesAll(Order(CmpIdx, null), r1, r2)
    requires StablySorted(Order(CmpIdx, null), r2, s, out) && AllFixed(Order(CmpIdx, null), r2, s)
    ensures r2 == r0
    ensures StrictlyIndexOrdered(r0, nodes) ==> out == nodes
  {
    hide EvolvesAll, BackedUp;
    SameNodes(s, nodes);
    assert forall n | n in nodes :: n in Nodes(s);
    RestoredData(r0, r1, r2, res, nodes);
    StableIsOrdered(r2, s, out);
    if StrictlyIndexOrdered(r0, nodes) {
      OrderIsUnique(r2, nodes, out);
    }
  }

  lemma StableIsOrdered(rec: Snapshot, s: seq<ListHead>, out: seq<ListHead>)
    requires StablySorted(Order(CmpIdx, null), rec, s, out)
    ensures multiset(out) == multiset(s) && IndexOrdered(rec, out)
  {
    forall i, j | 0 <= i < j < |out|
      ensures At(rec, out[i]).idx <= At(rec, out[j]).idx
    {
      assert Leq(Order(CmpIdx, null), At(rec, out[i]), At(rec, out[j]));
    }
  }

  lemma {:induction false} ListIsUnique(head: ListHead?, s: seq<ListHead>, t: seq<ListHead>)
    requires IsList(head, s) && IsList(head, t)
    ensures s == t
  {
    if s != [] && t != [] {
      assert s == [head] + s[1..] && t == [head] + t[1..];
      ListIsUnique(head.next, s[1..], t[1..]);
    }
  }

  // Two lists of the same nodes, linked at the same time, are the same list
  lemma SameLists(s: seq<ListHead>, t: seq<ListHead>)
    requires multiset(s) == multiset(t) && s != [] && t != []
    requires IsList(s[0], s) && IsList(t[0], t)
    ensures s == t
  {
    assert s[0] in multiset(t) && |multiset(s)| == |s| && |multiset(t)| == |t|;
    var k :| 0 <= k < |t| && t[k] == s[0];
    SuffixIsList(t[0], t, k);
    ListIsUnique(s[0], s, t[k..]);
  }

  // The list that the caller of core_bench_list holds
  lemma OriginalList(list: ListHead, nodes: seq<ListHead>, out: seq<ListHead>)
    requires nodes != [] && out != [] && list == nodes[0] && multiset(out) == multiset(nodes) && IsList(out[0], out)
    ensures IsList(list, nodes) <==> out == nodes
  {
    hide IsList;
    if IsList(list, nodes) {
      SameLists(nodes, out);
    }
  }

  // The CRC over n copies of the bits of a datum

  function Copies(n: nat, bits: seq<bool>): seq<bool> {
    if n == 0 then [] else bits + Copies(n - 1, bits)
  }

  lemma {:induction false} CrcTimesFolds(n: nat, data: U16, crc: U16)
    ensures CrcTimes(n, data, crc) == Fold(Copies(n, Bits(data, 16)), crc)
  {
    hide Fold, Bits;
    if n == 0 {
      NothingFolded(crc);
    } else {
      CrcTimesFolds(n - 1, data, Crc16(data, crc));
      FoldJoined(Bits(data, 16), Copies(n - 1, Bits(data, 16)), crc);
    }
  }

  lemma NothingFolded(crc: U16)
    ensures Fold([], crc) == crc
  {
  }

  // The records of a list without its second datum
  ghost function WithoutSecond(rec: Snapshot, s: seq<ListHead>): (d: seq<Record>)
    requires |s| >= 2
    ensures |d| == |s| - 1
  {
    seq(|s| - 1, j requires 0 <= j < |s| - 1 => At(rec, if j == 0 then s[0] else s[j + 1]))
  }

  // The number of records from the first on that has the index, or the low byte when the index is
  // negative; all but one when none has it
  ghost predicate TailFrom(d: seq<Record>, idx: Int16, byte: int, tail: nat) {
    && 0 < tail <= |d|
    && (forall j | 0 <= j < |d| - tail :: if idx >= 0 then d[j].idx != idx else d[j].data16 % 256 != byte)
    && ((if idx >= 0 then d[|d| - tail].idx == idx else d[|d| - tail].data16 % 256 == byte)
        || (tail == |d| - 1 && forall j | 0 <= j < |d| :: if idx >= 0 then d[j].idx != idx
            else d[j].data16 % 256 != byte))
  }

  lemma MatchIs(r: Record, info: Record)
    ensures Matches(r, info) <==> if info.idx >= 0 then r.idx == info.idx else r.data16 % 256 == info.data16
  {
  }

  lemma RemovedRecords(rec: Snapshot, s: seq<ListHead>, j: nat)
    requires |s| >= 3 && Distinct(s) && j < |s| - 1
    ensures At(Swapped(rec, s[1], s[2]), Without(s, 2)[j]) == WithoutSecond(rec, s)[j]
  {
  }

  // The tail that is counted while the second datum is out of the list
  lemma RemovedTail(rec: Snapshot, s: seq<ListHead>, info: Record, crc: U16) returns (tail: nat)
    requires |s| >= 3 && Distinct(s)
    ensures TailFrom(WithoutSecond(rec, s), info.idx, info.data16, tail)
    ensures CrcRemoved(rec, s, info, crc) == CrcTimes(tail, At(rec, s[0]).data16, crc)
  {
    var t, d, sw := Without(s, 2), WithoutSecond(rec, s), Swapped(rec, s[1], s[2]);
    var k := FirstMatch(sw, t, info);
    FirstMatchIs(sw, t, info);
    tail := if k < |t| then |t| - k else |t| - 1;
    forall j | 0 <= j < |t|
      ensures Matches(At(sw, t[j]), info) <==>
        if info.idx >= 0 then d[j].idx == info.idx else d[j].data16 % 256 == info.data16
    {
      RemovedRecords(rec, s, j);
      MatchIs(d[j], info);
    }
    hide Matches, FirstMatch, Swapped, WithoutSecond, CrcTimes, At;
  }

  // The value of core_bench_list: the bits of the search with four for each hit and one off for each
  // miss, then the CRC of two runs of copies. The first run has the first datum of the list that was
  // sorted by data, once for each node of the tail, the second that of the final list, once for every
  // node but one.
  ghost predicate Returned(retval: U16, bits: seq<nat>, found: nat, missed: nat, first: Record, tail: nat,
                           final: Record, size: nat)
  {
    size > 0 &&
    retval == Fold(Copies(tail, Bits(first.data16, 16)) + Copies(size - 1, Bits(final.data16, 16)),
                   (Sum(bits) + 4 * found - missed) % 0x1_0000)
  }

  lemma ReturnedIs(rec: Snapshot, mid: Snapshot, sorted: seq<ListHead>, out: seq<ListHead>, st: Search, n: Int16,
                   bits: seq<nat>)
      returns (tail: nat)
    requires |out| == |sorted| >= 3 && Distinct(sorted) && st.retval == Sum(bits) % 0x1_0000
    ensures TailFrom(WithoutSecond(mid, sorted), st.idx, if n <= 0 then 0 else (n - 1) % 256, tail)
    ensures Returned(BenchResult(rec, mid, sorted, out, st, n), bits, st.found, st.missed,
                     At(mid, sorted[0]), tail, At(rec, out[0]), |out|)
  {
    hide Distinct, Sum, Fold, Bits, CrcRemoved, CrcTimes, Crc16, Copies, At, TailFrom, WithoutSecond;
    var info := Record(if n <= 0 then 0 else (n - 1) % 256, st.idx);
    var v := (st.retval + 4 * st.found - st.missed) % 0x1_0000;
    ValueModulo(Sum(bits), 4 * st.found - st.missed);
    tail := RemovedTail(mid, sorted, info, v);
    var first, final := At(mid, sorted[0]).data16, At(rec, out[0]).data16;
    CrcTimesFolds(tail, first, v);
    CrcTimesFolds(|out| - 1, final, CrcTimes(tail, first, v));
    FoldJoined(Copies(tail, Bits(first, 16)), Copies(|out| - 1, Bits(final, 16)), v);
  }

  lemma ValueModulo(x: nat, y: int)
    ensures (x % 0x1_0000 + y) % 0x1_0000 == (x + y) % 0x1_0000
  {
  }

  // The first sort, which only a positive finder_idx asks for
  method SortByData(list0: ListHead, res: Results, finder_idx: Int16, ghost s: seq<ListHead>, ghost all: set<ListHead>)
      returns (list: ListHead, ghost sorted: seq<ListHead>)
    requires IsList(list0, s) && |s| >= 2 && Nodes(s) == all
    modifies all`next, Infos(all)`data16, Scratch(res)`calls, Scratch(res)`crc, Scratch(res)`crcstate,
        Scratch(res)`crcmatrix
    ensures IsList(list, sorted) && multiset(sorted) == multiset(s)
    ensures EvolvesAll(Order(CmpComplex, res), old(Records(all)), Records(all))
    ensures if finder_idx > 0
      then SortedByData(Records(all), s, sorted)
          && StablySorted(Order(CmpComplex, res), Records(all), s, sorted)
          && AllFixed(Order(CmpComplex, res), Records(all), s)
      else sorted == s && Records(all) == old(Records(all))
  {
    list, sorted := list0, s;
    if finder_idx > 0 {
      list, sorted := Mergesort(list, CmpComplex, res, s);
    }
  }

  // What core_bench_list computes: st is the list and the counters after the search, mid and sorted
  // the data and the order after the sort by data, out the order at the end
  ghost function BenchResult(rec: Snapshot, mid: Snapshot, sorted: seq<ListHead>, out: seq<ListHead>,
                             st: Search, find_num: Int16): U16
    requires |out| >= 3 && |sorted| >= 3
  {
    var info := Record(if find_num <= 0 then 0 else (find_num - 1) % 256, st.idx);
    var searched := (st.retval + 4 * st.found - st.missed) % 0x1_0000;
    CrcTimes(|out| - 1, At(rec, out[0]).data16, CrcRemoved(mid, sorted, info, searched))
  }

  // The second sort brings every datum back; the CRC of the first one is taken for each later node
  method RestoreAndCrc(list0: ListHead, retval0: U16, ghost res: Results, ghost rec: Snapshot,
                       ghost nodes: seq<ListHead>, ghost s: seq<ListHead>)
      returns (list: ListHead, retval: U16, ghost out: seq<ListHead>)
    requires IsList(list0, s) && |nodes| >= 2 && multiset(s) == multiset(nodes)
    requires BackedUp(rec, nodes) && rec.Keys == Nodes(nodes)
    requires EvolvesAll(Order(CmpComplex, res), rec, Records(Nodes(nodes)))
    modifies Nodes(nodes)`next, Infos(Nodes(nodes))`data16
    ensures IsList(list, out) && Records(Nodes(nodes)) == rec && out != [] && list == out[0]
    ensures StablySorted(Order(CmpIdx, null), rec, s, out)
    ensures StrictlyIndexOrdered(rec, nodes) ==> out == nodes
    ensures retval == CrcTimes(|out| - 1, At(rec, out[0]).data16, retval0)
  {
    hide Linked, Distinct, Records, StablySorted, EvolvesAll, AllFixed, BackedUp, StrictlyIndexOrdered, Crc16, CrcTimes,
      Infos;
    ghost var mid := Records(Nodes(s));
    SameNodes(s, nodes);
    list, out := Mergesort(list0, CmpIdx, null, s);
    Restored(rec, mid, Records(Nodes(s)), res, nodes, s, out);
    StableIsOrdered(rec, s, out);
    SameNodes(out, nodes);
    SecondNode(list, out);
    SuffixIsList(list, out, 1);
    HeadRecord(Nodes(nodes), list, out);
    retval := CrcLoop(list, list.next, retval0, out[1..], Nodes(nodes));
  }

  // out is the order at the end. res->list still names the node that was the first one, so what the
  // caller holds is the original list exactly when that order is the original one.
  method CoreBenchList(res: Results, finder_idx: Int16, ghost nodes: seq<ListHead>)
      returns (retval: U16, ghost st: Search, ghost mid: Snapshot, ghost sorted: seq<ListHead>,
          ghost out: seq<ListHead>, ghost trace: Trace, ghost tail: nat)
    requires res.list != null && IsList(res.list, nodes) && |nodes| >= 3
    requires BackedUp(Records(Nodes(nodes)), nodes)
    modifies Nodes(nodes)`next, Nodes(nodes)`info, Infos(Nodes(nodes))`data16
    modifies res`calls, res`crc, res`crcstate, res`crcmatrix
    ensures multiset(out) == multiset(nodes) && |out| == |nodes| == |sorted| && IsList(out[0], out)
    ensures forall n | n in nodes :: n.info == old(n.info)
    ensures Records(Nodes(nodes)) == old(Records(Nodes(nodes)))
    ensures st == Rounds(old(Records(Nodes(nodes))), Search(nodes, finder_idx, 0, 0, 0), 0, res.seed3)
    ensures var n := if res.seed3 < 0 then 0 else res.seed3;
      && Searched(old(Records(Nodes(nodes))), nodes, st, finder_idx, n, trace.lists, trace.bits)
      && TailFrom(WithoutSecond(mid, sorted), st.idx, if n == 0 then 0 else (n - 1) % 256, tail)
      && Returned(retval, trace.bits, st.found, st.missed, At(mid, sorted[0]), tail,
                  At(old(Records(Nodes(nodes))), out[0]), |out|)
    ensures finder_idx > 0 ==> SortedByData(mid, st.s, sorted)
    ensures SortedByIndex(old(Records(Nodes(nodes))), sorted, out)
    ensures if finder_idx > 0
      then StablySorted(Order(CmpComplex, res), mid, st.s, sorted) && AllFixed(Order(CmpComplex, res), mid, st.s)
      else sorted == st.s && mid == old(Records(Nodes(nodes)))
    ensures EvolvesAll(Order(CmpComplex, res), old(Records(Nodes(nodes))), mid)
    ensures StablySorted(Order(CmpIdx, null), old(Records(Nodes(nodes))), sorted, out)
    ensures StrictlyIndexOrdered(old(Records(Nodes(nodes))), nodes) ==> out == nodes
    ensures IsList(res.list, nodes) <==> out == nodes
    ensures retval == BenchResult(old(Records(Nodes(nodes))), mid, sorted, out, st, res.seed3)
  {
    hide IsList, Nodes, Linked, Distinct, Records, StablySorted, EvolvesAll, AllFixed, BackedUp, StrictlyIndexOrdered,
      SortedByData, SortedByIndex, Rounds, Crc16, CrcTimes, CrcRemoved, Infos, At, Round, Searched, TailFrom,
      WithoutSecond, Returned, BenchResult;
    ghost var all, rec := Nodes(nodes), Records(Nodes(nodes));
    HeadIs(res.list, nodes);
    var list, info := res.list, Record(0, 0);
    list, info, retval, st, sorted, trace := SearchAndSort(list, res, finder_idx, nodes, all);
    mid := Records(all);
    ListDistinct(list, sorted);
    SearchedSum(rec, nodes, st, finder_idx, if res.seed3 < 0 then 0 else res.seed3, trace.lists, trace.bits);
    ghost var retval1 := retval;
    list, retval, out := RemoveAndRestore(list, info, retval, res, rec, nodes, sorted, all, mid);
    OriginalList(res.list, nodes, out);
    StableOrders(Order(CmpIdx, null), rec, sorted, out);
    BenchResultIs(rec, mid, sorted, out, st, res.seed3, info, retval1, retval);
    tail := ReturnedIs(rec, mid, sorted, out, st, res.seed3, trace.bits);
  }

  lemma ListDistinct(list: ListHead?, s: seq<ListHead>)
    requires IsList(list, s)
    ensures Distinct(s)
  {
  }

  lemma BenchResultIs(rec: Snapshot, mid: Snapshot, sorted: seq<ListHead>, out: seq<ListHead>, st: Search, n: Int16,
                      info: Record, searched: U16, retval: U16)
    requires |out| >= 3 && |sorted| >= 3
    requires info == Record(if n <= 0 then 0 else (n - 1) % 256, st.idx)
    requires searched == (st.retval + 4 * st.found - st.missed) % 0x1_0000
    requires retval == CrcTimes(|out| - 1, At(rec, out[0]).data16, CrcRemoved(mid, sorted, info, searched))
    ensures retval == BenchResult(rec, mid, sorted, out, st, n)
  {
    hide CrcTimes, CrcRemoved, At;
  }

  // The first two steps: the search, and the sort by data
  method SearchAndSort(list0: ListHead, res: Results, finder_idx: Int16, ghost nodes: seq<ListHead>,
                       ghost all: set<ListHead>)
      returns (list: ListHead, info: Record, retval: U16, ghost st: Search, ghost sorted: seq<ListHead>,
          ghost trace: Trace)
    requires IsList(list0, nodes) && |nodes| >= 3 && Nodes(nodes) == all
    modifies all`next, Infos(all)`data16, res`calls, res`crc, res`crcstate, res`crcmatrix
    ensures IsList(list, sorted)
    ensures multiset(sorted) == multiset(nodes) && |sorted| == |nodes| && Nodes(sorted) == all
    ensures st == Rounds(old(Records(all)), Search(nodes, finder_idx, 0, 0, 0), 0, res.seed3)
    ensures info == Record(if res.seed3 <= 0 then 0 else (res.seed3 - 1) % 256, st.idx)
    ensures Searched(old(Records(all)), nodes, st, finder_idx, if res.seed3 < 0 then 0 else res.seed3,
                     trace.lists, trace.bits)
    ensures retval == (st.retval + 4 * st.found - st.missed) % 0x1_0000
    ensures finder_idx > 0 ==> SortedByData(Records(all), st.s, sorted)
    ensures if finder_idx > 0
      then StablySorted(Order(CmpComplex, res), Records(all), st.s, sorted)
        && AllFixed(Order(CmpComplex, res), Records(all), st.s)
      else sorted == st.s && Records(all) == old(Records(all))
    ensures EvolvesAll(Order(CmpComplex, res), old(Records(all)), Records(all))
  {
    hide IsList, Linked, Distinct, Records, StablySorted, SortedByData, EvolvesAll, AllFixed, Rounds, Infos, At, Round,
      Searched;
    list, info, retval, st, trace := FindPhase(list0, res.seed3, finder_idx, nodes, all);
    SameNodes(st.s, nodes);
    list, sorted := SortByData(list, res, finder_idx, st.s, all);
    SameNodes(sorted, nodes);
  }

  // The last three steps: remove, CRC and undo, then sort by index
  method RemoveAndRestore(list0: ListHead, info: Record, retval0: U16, ghost res: Results, ghost rec: Snapshot,
                          ghost nodes: seq<ListHead>, ghost sorted: seq<ListHead>, ghost all: set<ListHead>,
                          ghost mid: Snapshot)
      returns (list: ListHead, retval: U16, ghost out: seq<ListHead>)
    requires IsList(list0, sorted) && |nodes| >= 3 && multiset(sorted) == multiset(nodes) && |sorted| == |nodes|
    requires all == Nodes(nodes) == Nodes(sorted)
    requires BackedUp(rec, nodes) && rec.Keys == all && mid == Records(all)
    requires EvolvesAll(Order(CmpComplex, res), rec, mid)
    modifies all`next, all`info, Infos(all)`data16
    ensures multiset(out) == multiset(nodes) && |out| == |nodes|
    ensures IsList(list, out) && Records(all) == rec && list == out[0]
    ensures StablySorted(Order(CmpIdx, null), rec, sorted, out)
    ensures StrictlyIndexOrdered(rec, nodes) ==> out == nodes
    ensures forall n | n in all :: n.info == old(n.info)
    ensures retval == CrcTimes(|out| - 1, At(rec, out[0]).data16, CrcRemoved(mid, sorted, info, retval0))
  {
    hide IsList, Linked, Distinct, Records, EvolvesAll, BackedUp, StablySorted, StrictlyIndexOrdered, CrcTimes,
      CrcRemoved, Infos, At;
    retval := RemoveCrcUndo(list0, info, retval0, sorted, all);
    list, retval, out := RestoreAndCrc(list0, retval, res, rec, nodes, sorted);
    StableIsOrdered(rec, sorted, out);
    SameNodes(out, nodes);
  }
}
