// core_list_init: the list that core_bench_list starts from.
module ListInit {
  import opened BenchList
  import opened Binary
  import opened CoreList
  import opened ListIndices
  import opened ListSearch
  import opened MachineInts
  import opened MergeOrder
  import opened MergeSort

  // No two nodes share their data
  ghost predicate Unshared(s: seq<ListHead>)
    reads s`info
  {
    forall i, j | 0 <= i < j < |s| :: s[i].info != s[j].info
  }

  // The memory of a list
  ghost function Cells(s: seq<ListHead>): set<object>
    reads s`info
  {
    (set n | n in s :: n as object) + (set n | n in s :: n.info as object)
  }

  // Insert an item behind the first node, if there is room for it
  method InsertNew(insert_point: ListHead, data16: U16, idx: Int16, used0: nat, size: nat, ghost s: seq<ListHead>)
      returns (newitem: ListHead?, used: nat, ghost t: seq<ListHead>)
    requires IsList(insert_point, s) && Unshared(s)
    modifies insert_point`next
    ensures IsList(insert_point, t) && Unshared(t)
    ensures if used0 + 1 < size
      then newitem != null && fresh(newitem) && fresh(newitem.info) && newitem.info.data16 == data16
          && newitem.info.idx == idx
        && used == used0 + 1 && t == [s[0], newitem] + s[1..]
      else newitem == null && used == used0 && t == s
  {
    if used0 + 1 >= size {
      return null, used0, s;
    }
    var info := new ListData(data16, idx);
    var item := new ListHead(info);
    item.next := insert_point.next;
    insert_point.next := item;
    newitem, used, t := item, used0 + 1, [s[0], item] + s[1..];
  }

  // The nodes before they are sorted, with count items inserted
  ghost predicate Filled(s: seq<ListHead>, seed: Int16, count: nat)
    reads s`info, Infos(Nodes(s))
  {
    && |s| == count + 2
    && s[0].info.data16 == 0x8080 && s[0].info.idx == 0
    && s[count + 1].info.data16 == 0xffff && s[count + 1].info.idx == 0x7fff
    && forall k | 0 < k <= count :: s[k].info.data16 == Datum(seed, count - k)
  }

  // Item i, or nothing when the block is full
  method InsertItem(list: ListHead, size: nat, seed: Int16, i: nat, used0: nat, ghost s: seq<ListHead>)
      returns (used: nat, ghost t: seq<ListHead>)
    requires size >= 3 && IsList(list, s) && Unshared(s) && used0 == |s| && Filled(s, seed, Min(i, size - 3))
    modifies list`next
    ensures IsList(list, t) && Unshared(t) && used == |t| && Filled(t, seed, Min(i + 1, size - 3))
    ensures fresh(Cells(t) - Cells(s)) && list in Cells(t)
  {
    hide Datum, IsList, Unshared;
    HeadIn(list, s);
    var newitem;
    newitem, used, t := InsertNew(list, Datum(seed, i), 0x7fff, used0, size, s);
    HeadIn(list, t);
    if newitem != null {
      MoreCells(s, newitem, t);
    }
  }

  lemma MoreCells(s: seq<ListHead>, x: ListHead, t: seq<ListHead>)
    requires s != [] && t == [s[0], x] + s[1..]
    ensures Cells(t) == Cells(s) + {x, x.info}
  {
    assert forall n | n in t :: n in s || n == x;
    assert forall n | n in s :: n in t;
    assert x in t;
  }

  lemma HeadIn(list: ListHead, s: seq<ListHead>)
    requires IsList(list, s)
    ensures s != [] && s[0] == list && list in Cells(s)
  {
    assert s[0] in s;
  }

  // The two ends, then as many items as fit
  method Build(size: nat, seed: Int16) returns (list: ListHead, ghost s: seq<ListHead>)
    requires size >= 3
    ensures IsList(list, s) && Unshared(s) && fresh(Cells(s))
    ensures Filled(s, seed, size - 3)
  {
    var used, i;
    list, used, s := BuildEnds(size, seed);
    assert Min(0, size - 3) == 0 && Min(size, size - 3) == size - 3;
    hide IsList, Filled, Unshared, Cells, Min;
    i := 0;
    while i < size
      invariant 0 <= i <= size && fresh(Cells(s))
      invariant used == |s| && IsList(list, s) && Unshared(s) && Filled(s, seed, Min(i, size - 3))
      invariant list in Cells(s)
    {
      used, s := InsertItem(list, size, seed, i, used, s);
      i := i + 1;
    }
  }

  method BuildHead() returns (list: ListHead)
    ensures IsList(list, [list]) && fresh(list) && fresh(list.info)
    ensures list.info.data16 == 0x8080 && list.info.idx == 0
  {
    var info := new ListData(0x8080, 0);
    list := new ListHead(info);
  }

  lemma CellsOfOne(list: ListHead)
    ensures Cells([list]) == {list, list.info} && Unshared([list])
  {
    assert list in [list];
  }

  method BuildEnds(size: nat, seed: Int16) returns (list: ListHead, used: nat, ghost s: seq<ListHead>)
    requires size >= 3
    ensures IsList(list, s) && Unshared(s) && fresh(Cells(s))
    ensures used == |s| && Filled(s, seed, 0) && list in Cells(s)
  {
    hide Datum, IsList, Cells, Unshared;
    list := BuildHead();
    CellsOfOne(list);
    var newitem;
    newitem, used, s := InsertNew(list, 0xffff, 0x7fff, 1, size, [list]);
    assert s == [list, newitem];
    MoreCells([list], newitem, s);
    HeadIn(list, s);
  }

  lemma Successor(list: ListHead, s: seq<ListHead>, k: nat)
    requires IsList(list, s) && k < |s|
    ensures s[k].next == if k + 1 < |s| then s[k + 1] else null
  {
  }

  // The nodes before place i have their index
  ghost predicate Numbered(s: seq<ListHead>, size: nat, seed: Int16, i: nat)
    reads s`info, Infos(Nodes(s))
  {
    i <= |s| && forall k | 0 < k < i :: s[k].info.idx == IndexOf(seed, size, k)
  }

  method SetIndex(finder: ListHead, idx: Int16, size: nat, seed: Int16, ghost s: seq<ListHead>, ghost i: nat)
    requires Unshared(s) && size >= 3 && Filled(s, seed, size - 3) && 0 < i < size - 2 && finder == s[i]
    requires Numbered(s, size, seed, i) && idx == IndexOf(seed, size, i)
    modifies finder.info`idx
    ensures Filled(s, seed, size - 3) && Numbered(s, size, seed, i + 1)
  {
    hide IndexOf, Datum;
    assert forall k | 0 <= k < |s| && k != i :: s[k].info != s[i].info;
    finder.info.idx := idx;
  }

  // Every node between the ends gets its index
  method Number(list: ListHead, size: nat, seed: Int16, ghost s: seq<ListHead>)
    requires size >= 3 && IsList(list, s) && Unshared(s) && Filled(s, seed, size - 3)
    modifies Infos(Nodes(s))`idx
    ensures Filled(s, seed, size - 3) && Numbered(s, size, seed, size - 2)
  {
    hide Filled, Numbered, Unshared, IsList, Or, Xor, Signed16, IndexOf;
    Numberless(s, size, seed);
    var finder := list.next;
    Successor(list, s, 0);
    HeadIn(list, s);
    var i: nat := 1;
    Successor(list, s, 1);
    while finder.next != null
      invariant 0 < i <= size - 2 && finder == s[i] && finder in Nodes(s)
      invariant finder.next == if i + 1 < |s| then s[i + 1] else null
      invariant Filled(s, seed, size - 3) && Numbered(s, size, seed, i)
      decreases |s| - i
    {
      ghost var k := i;
      var idx;
      if i < size / 5 {
        idx := Signed16(i);
        i := i + 1;
      } else {
        var pat := Xor(i % 0x1_0000, seed % 0x1_0000, 16);
        i := i + 1;
        idx := Or(i % 8 * 0x100, pat, 16) % 0x4000;
      }
      IndexIs(seed, size, k);
      SetIndex(finder, idx, size, seed, s, k);
      finder := finder.next;
      Successor(list, s, i);
    }
  }

  lemma Numberless(s: seq<ListHead>, size: nat, seed: Int16)
    requires size >= 3 && Filled(s, seed, size - 3)
    ensures |s| == size - 1 && Numbered(s, size, seed, 1)
  {
  }

  lemma IndexIs(seed: Int16, size: nat, k: nat)
    ensures IndexOf(seed, size, k) ==
      if k < size / 5 then Signed16(k)
      else Or((k + 1) % 8 * 0x100, Xor(k % 0x1_0000, seed % 0x1_0000, 16), 16) % 0x4000
  {
    hide Or, Xor;
  }

  // The records of the nodes in their initial seed order
  ghost predicate Laid(rec: Snapshot, s: seq<ListHead>, seed: Int16, size: nat) {
    && |s| == size - 1 >= 2
    && (forall k | 0 <= k < |s| :: At(rec, s[k]).idx == Idx(seed, size, k))
    && At(rec, s[0]).data16 == 0x8080 && At(rec, s[size - 2]).data16 == 0xffff
    && forall k | 0 < k < size - 2 :: At(rec, s[k]).data16 == Datum(seed, size - 3 - k)
  }

  // The same records, bit by bit. The item behind the head came last.
  ghost predicate Items(rec: Snapshot, s: seq<ListHead>, seed: Int16, size: nat) {
    && |s| == size - 1 >= 2
    && At(rec, s[0]) == Record(0x8080, 0) && At(rec, s[size - 2]) == Record(0xffff, 0x7fff)
    && forall k | 0 < k < size - 2 ::
      && ItemBits(At(rec, s[k]).data16, seed, size - 3 - k)
      && (k < size / 5 && k < 0x8000 ==> At(rec, s[k]).idx == k)
      && (size / 5 <= k ==> MixedBits(At(rec, s[k]).idx, seed, k))
  }

  lemma LaidItems(rec: Snapshot, s: seq<ListHead>, seed: Int16, size: nat)
    requires Laid(rec, s, seed, size)
    ensures Items(rec, s, seed, size)
  {
    hide Datum, IndexOf, ItemBits, MixedBits;
    assert At(rec, s[0]).idx == Idx(seed, size, 0) && At(rec, s[size - 2]).idx == Idx(seed, size, size - 2);
    forall k | 0 < k < size - 2
      ensures ItemBits(At(rec, s[k]).data16, seed, size - 3 - k)
      ensures k < size / 5 && k < 0x8000 ==> At(rec, s[k]).idx == k
      ensures size / 5 <= k ==> MixedBits(At(rec, s[k]).idx, seed, k)
    {
      DatumBits(seed, size - 3 - k);
      IndexBits(seed, size, k);
      assert At(rec, s[k]).idx == Idx(seed, size, k);
    }
  }

  method CoreListInit(size: nat, seed: Int16)
      returns (list: ListHead, ghost laid: seq<ListHead>, ghost nodes: seq<ListHead>)
    requires size >= 3
    ensures IsList(list, nodes) && fresh(Cells(laid)) && Distinct(laid)
    ensures Laid(Records(Nodes(laid)), laid, seed, size)
    ensures Items(Records(Nodes(laid)), laid, seed, size)
    ensures StablySorted(Order(CmpIdx, null), Records(Nodes(laid)), laid, nodes)
    ensures SortedByIndex(Records(Nodes(laid)), laid, nodes)
  {
    hide Filled, Numbered, StablySorted, SortedByIndex, AllFixed, EvolvesAll, Unshared, Laid;
    list, laid := Build(size, seed);
    CellsAre(laid);
    Number(list, size, seed, laid);
    LaidOut(laid, size, seed);
    ghost var rec := Records(Nodes(laid));
    assert Distinct(laid);
    hide Linked, Distinct, IsList, Records, Cells, Infos, Nodes;
    list, nodes := Mergesort(list, CmpIdx, null, laid);
    NothingToFix(rec, Records(Nodes(laid)), laid, seed, size);
    LaidItems(Records(Nodes(laid)), laid, seed, size);
  }

  lemma CellsAre(s: seq<ListHead>)
    ensures forall n | n in Nodes(s) :: n in Cells(s)
    ensures forall d | d in Infos(Nodes(s)) :: d in Cells(s)
  {
  }

  lemma LaidOut(s: seq<ListHead>, size: nat, seed: Int16)
    requires size >= 3 && Filled(s, seed, size - 3) && Numbered(s, size, seed, size - 2)
    ensures Laid(Records(Nodes(s)), s, seed, size)
  {
    hide Datum, IndexOf;
    var rec := Records(Nodes(s));
    assert forall k | 0 <= k < |s| :: s[k] in Nodes(s) && At(rec, s[k]) == Rec(s[k].info);
  }

  lemma DatumFixed(seed: Int16, i: nat)
    ensures Low(Datum(seed, i)) == High(Datum(seed, i))
  {
    hide Xor;
    var dat := Xor(seed % 0x1_0000, i % 0x1_0000, 16) % 16 * 8 + i % 8;
    assert dat < 0x100;
  }

  lemma LaidFixed(rec: Snapshot, s: seq<ListHead>, seed: Int16, size: nat)
    requires Laid(rec, s, seed, size)
    ensures forall n | n in s :: Low(At(rec, n).data16) == High(At(rec, n).data16)
  {
    hide Datum, Idx;
    forall k | 0 <= k < |s|
      ensures Low(At(rec, s[k]).data16) == High(At(rec, s[k]).data16)
    {
      if 0 < k < size - 2 {
        DatumFixed(seed, size - 3 - k);
      }
    }
  }

  // Comparisons change nothing here: every datum is backed up already
  lemma NothingToFix(r0: Snapshot, r1: Snapshot, s: seq<ListHead>, seed: Int16, size: nat)
    requires Laid(r0, s, seed, size) && EvolvesAll(Order(CmpIdx, null), r0, r1)
    requires r0.Keys == Nodes(s)
    ensures Laid(r1, s, seed, size)
  {
    LaidFixed(r0, s, seed, size);
    hide Datum, Idx, Low, High;
    forall n | n in s
      ensures At(r1, n) == At(r0, n)
    {
      assert n in r0 && Evolves(Order(CmpIdx, null), r0[n], r1[n]);
    }
  }

  ghost predicate DifferentIndices(rec: Snapshot, s: seq<ListHead>) {
    forall i, j | 0 <= i < j < |s| :: At(rec, s[i]).idx != At(rec, s[j]).idx
  }

  lemma LaidDistinct(rec: Snapshot, laid: seq<ListHead>, seed: Int16, size: nat)
    requires Laid(rec, laid, seed, size)
    ensures DifferentIndices(rec, laid) <==> DistinctIndices(seed, size)
  {
    hide Idx, Datum;
    if DifferentIndices(rec, laid) {
      forall j, k | 0 <= j < k < size - 1
        ensures Idx(seed, size, j) != Idx(seed, size, k)
      {
        assert At(rec, laid[j]).idx != At(rec, laid[k]).idx;
      }
    }
  }

  lemma PlaceOf(s: seq<ListHead>, t: seq<ListHead>, i: nat) returns (k: nat)
    requires multiset(s) == multiset(t) && i < |s|
    ensures k < |t| && t[k] == s[i]
  {
    assert s[i] in multiset(t);
    k :| 0 <= k < |t| && t[k] == s[i];
  }

  lemma DifferentElsewhere(rec: Snapshot, s: seq<ListHead>, t: seq<ListHead>)
    requires multiset(s) == multiset(t) && Distinct(s) && DifferentIndices(rec, t)
    ensures DifferentIndices(rec, s)
  {
    forall i, j | 0 <= i < j < |s|
      ensures At(rec, s[i]).idx != At(rec, s[j]).idx
    {
      var a := PlaceOf(s, t, i);
      var b := PlaceOf(s, t, j);
      assert s[i] != s[j];
    }
  }

  // The initial list has backed-up data in the order of the indices, which is a strict one exactly
  // when no index was given twice
  lemma InitialOrder(rec: Snapshot, laid: seq<ListHead>, nodes: seq<ListHead>, seed: Int16, size: nat)
    requires Laid(rec, laid, seed, size) && StablySorted(Order(CmpIdx, null), rec, laid, nodes)
    requires Distinct(laid) && Distinct(nodes)
    ensures BackedUp(rec, nodes) && IndexOrdered(rec, nodes)
    ensures StrictlyIndexOrdered(rec, nodes) <==> DistinctIndices(seed, size)
  {
    LaidFixed(rec, laid, seed, size);
    StableIsOrdered(rec, laid, nodes);
    LaidDistinct(rec, laid, seed, size);
    hide StablySorted, DistinctIndices, Low, High, Laid, Distinct;
    SameNodes(nodes, laid);
    assert forall n | n in nodes :: n in Nodes(laid);
    if DifferentIndices(rec, laid) {
      DifferentElsewhere(rec, nodes, laid);
      assert StrictlyIndexOrdered(rec, nodes);
    } else if StrictlyIndexOrdered(rec, nodes) {
      DifferentElsewhere(rec, laid, nodes);
    }
  }

  lemma LaidLength(rec: Snapshot, s: seq<ListHead>, seed: Int16, size: nat)
    requires Laid(rec, s, seed, size)
    ensures |s| == size - 1
  {
  }
}
