// core_list_init and core_bench_list together: when the benchmark leaves the list as it was initialized.
module InitBench {
  import opened BenchList
  import opened CoreList
  import opened ListIndices
  import opened ListInit
  import opened ListSearch
  import opened MachineInts
  import opened MergeOrder
  import opened MergeSort

  // The place of the node with index 0
  ghost function Sought(rec: Snapshot, nodes: seq<ListHead>): (k: nat)
    ensures k <= |nodes|
  {
    FirstMatch(rec, nodes, Record(0, 0))
  }

  // The order after a search for that node alone: the list is reversed, and the node that was before
  // the found one comes second
  ghost function SearchedOnce(rec: Snapshot, nodes: seq<ListHead>): seq<ListHead> {
    var r, k := Reversed(nodes), Sought(rec, nodes);
    if k == |nodes| then r else Promoted(r, |nodes| - 1 - k)
  }

  lemma OneRound(rec: Snapshot, st: Search, i: nat, n: int)
    requires |st.s| >= 2 && n == i + 1
    ensures Rounds(rec, st, i, n) == Round(rec, st, i)
  {
    RoundKeeps(rec, st, i);
    hide Round;
  }

  lemma RoundList(rec: Snapshot, st: Search, i: nat)
    requires |st.s| >= 2
    ensures var k := FirstMatch(rec, st.s, Record(i % 256, st.idx));
      Round(rec, st, i).s == if k == |st.s| then Reversed(st.s) else Promoted(Reversed(st.s), |st.s| - 1 - k)
  {
    hide FirstMatch, Reversed, Promoted, ListSearch.Bit, At, Next16;
  }

  lemma FirstRound(rec: Snapshot, st: Search, i: nat, n: int)
    requires |st.s| >= 2 && st.idx == 0 && i == 0 && n == 1
    ensures Rounds(rec, st, i, n).s == SearchedOnce(rec, st.s)
  {
    hide Round, Rounds, FirstMatch, Reversed, Promoted;
    OneRound(rec, st, i, n);
    RoundList(rec, st, i);
  }

  // Where the node of place i goes when the one after place k is promoted
  function Moved(k: nat, i: nat): nat {
    if i == 0 then 0 else if i == k + 1 then 1 else if i <= k then i + 1 else i
  }

  // Of two nodes the first stays first, unless the second one is promoted
  lemma PromotedOrder<T>(r: seq<T>, k: nat, a: nat, b: nat) returns (p: nat, q: nat)
    requires k < |r| && a < b < |r| && b != k + 1
    ensures p < q < |Promoted(r, k)| && Promoted(r, k)[p] == r[a] && Promoted(r, k)[q] == r[b]
  {
    PromotedContents(r, k);
    p, q := a, b;
    if 0 < k < |r| - 1 {
      p, q := Moved(k, a), Moved(k, b);
      PromotedPlaces(r, k, p);
      PromotedPlaces(r, k, q);
    }
  }

  // Two nodes change their order, unless the first one is promoted
  lemma OrderTurns(rec: Snapshot, nodes: seq<ListHead>, i: nat, j: nat) returns (p: nat, q: nat)
    requires i < j < |nodes| && i + 1 != Sought(rec, nodes)
    ensures var s := SearchedOnce(rec, nodes); p < q < |s| && s[p] == nodes[j] && s[q] == nodes[i]
  {
    hide Reversed, Promoted, Sought;
    var n, k := |nodes|, Sought(rec, nodes);
    p, q := n - 1 - j, n - 1 - i;
    ReversedAt(nodes, p);
    ReversedAt(nodes, q);
    if k < n {
      p, q := PromotedOrder(Reversed(nodes), n - 1 - k, p, q);
    }
  }

  // A stable sort does not undo it for nodes of equal index
  lemma TieTurns(rec: Snapshot, s: seq<ListHead>, out: seq<ListHead>, i: nat, j: nat, p: nat, q: nat)
    requires StablySorted(Order(CmpIdx, null), rec, s, out)
    requires i < j < |out| && p < q < |s| && s[p] == out[j] && s[q] == out[i]
    ensures At(rec, out[i]).idx != At(rec, out[j]).idx
  {
  }

  lemma TieIsNotRestored(rec: Snapshot, nodes: seq<ListHead>, out: seq<ListHead>, i: nat, j: nat)
    requires |nodes| >= 2 && StablySorted(Order(CmpIdx, null), rec, SearchedOnce(rec, nodes), out)
    requires i < j < |nodes| && At(rec, nodes[i]).idx == At(rec, nodes[j]).idx && i + 1 != Sought(rec, nodes)
    ensures out != nodes
  {
    hide StablySorted, SearchedOnce, Sought;
    if out == nodes {
      var p, q := OrderTurns(rec, nodes, i, j);
      TieTurns(rec, SearchedOnce(rec, nodes), out, i, j, p, q);
    }
  }

  // Two places in the order of insertion, and the places that these nodes have in the list, the
  // lower first
  lemma PlacesInList(rec: Snapshot, laid: seq<ListHead>, nodes: seq<ListHead>, seed: Int16, size: nat, a: nat, b: nat)
      returns (i: nat, j: nat)
    requires Laid(rec, laid, seed, size) && multiset(nodes) == multiset(laid) && Distinct(laid)
    requires a < b < size - 1 && Idx(seed, size, a) == Idx(seed, size, b)
    ensures i < j < |nodes| && At(rec, nodes[i]).idx == At(rec, nodes[j]).idx
    ensures {nodes[i], nodes[j]} == {laid[a], laid[b]}
  {
    hide Idx, Datum;
    i := PlaceOf(laid, nodes, a);
    j := PlaceOf(laid, nodes, b);
    assert laid[a] != laid[b];
    if j < i {
      i, j := j, i;
    }
  }

  // Below 700 blocks no index is negative, so the head stays first
  lemma HeadIsSought(rec: Snapshot, laid: seq<ListHead>, nodes: seq<ListHead>, seed: Int16, size: nat)
    requires Laid(rec, laid, seed, size) && StablySorted(Order(CmpIdx, null), rec, laid, nodes)
    requires size < 700
    ensures nodes != [] && Sought(rec, nodes) == 0
  {
    StableIsOrdered(rec, laid, nodes);
    SameNodes(nodes, laid);
    hide StablySorted, Datum, IndexOf;
    var k := PlaceOf(laid, nodes, 0);
    var m := PlaceOf(nodes, laid, 0);
    if 0 < m < size - 2 {
      IndexSmall(seed, size, m);
      if m < size / 5 {
        SmallIndex(seed, size, m);
      }
    }
  }

  lemma SmallPlaces(k: nat)
    requires k < 0xfe
    ensures k / 0x100 == (k + 2) / 0x100 == 0
  {
  }

  lemma NextPlaces(m: nat)
    ensures (0x200 * m + 2) % 2 == 0 && (0x200 * m + 2) / 0x100 % 2 == 0
  {
    assert 0x200 * m + 2 == 0x100 * (2 * m) + 2;
  }

  lemma TwoPairs(size: nat) returns (k: nat)
    requires size >= 700
    ensures IsPair(size, k) && IsPair(size, k + 2)
  {
    var q := size / 5;
    if q < 250 {
      k := if q % 2 == 0 then q else q + 1;
      SmallPlaces(k);
    } else {
      var m := (q + 0x1ff) / 0x200;
      k := 0x200 * m;
      EvenBlock(m);
      NextPlaces(m);
    }
  }

  lemma PairRepeats(seed: Int16, size: nat, k: nat)
    requires size >= 3 && IsPair(size, k)
    ensures k + 0x100 < size - 1 && Idx(seed, size, k) == Idx(seed, size, k + 0x100)
  {
    SameMixed(seed, size, k);
    hide IndexOf;
  }

  // In a long list one of two pairs of equal index is not promoted
  lemma LongIsNotRestored(rec: Snapshot, laid: seq<ListHead>, nodes: seq<ListHead>, seed: Int16, size: nat,
                          out: seq<ListHead>)
    requires size >= 700 && Laid(rec, laid, seed, size) && Distinct(laid)
    requires multiset(nodes) == multiset(laid) && |nodes| == size - 1
    requires StablySorted(Order(CmpIdx, null), rec, SearchedOnce(rec, nodes), out)
    ensures out != nodes
  {
    hide StablySorted, SearchedOnce, Sought, Laid, Idx, IsPair;
    var k := TwoPairs(size);
    PairRepeats(seed, size, k);
    PairRepeats(seed, size, k + 2);
    var i, j := PlacesInList(rec, laid, nodes, seed, size, k, k + 0x100);
    var i', j' := PlacesInList(rec, laid, nodes, seed, size, k + 2, k + 0x102);
    LaidLength(rec, laid, seed, size);
    FourApart(laid, k, k + 2, k + 0x100, k + 0x102);
    if i + 1 != Sought(rec, nodes) {
      TieIsNotRestored(rec, nodes, out, i, j);
    } else {
      assert nodes[i] in {laid[k], laid[k + 0x100]} && nodes[i'] in {laid[k + 2], laid[k + 0x102]};
      TieIsNotRestored(rec, nodes, out, i', j');
    }
  }

  lemma FourApart<T>(s: seq<T>, a: nat, b: nat, c: nat, d: nat)
    requires Distinct(s) && a < b < c < d < |s|
    ensures {s[a], s[c]} !! {s[b], s[d]}
  {
  }

  // When an index is given twice, the run that searches for one value, the index 0, and does not sort
  // by data ends in another order
  lemma RepeatIsNotRestored(rec: Snapshot, laid: seq<ListHead>, nodes: seq<ListHead>, seed: Int16, size: nat,
                            out: seq<ListHead>)
    requires size >= 4 && Laid(rec, laid, seed, size) && Distinct(laid)
    requires StablySorted(Order(CmpIdx, null), rec, laid, nodes) && |nodes| == size - 1
    requires !DistinctIndices(seed, size)
    requires StablySorted(Order(CmpIdx, null), rec, SearchedOnce(rec, nodes), out)
    ensures out != nodes
  {
    hide StablySorted, SearchedOnce, Sought, Laid, Distinct, Idx, IndexOrdered;
    StableIsOrdered(rec, laid, nodes);
    if size < 700 {
      var a, b :| 0 <= a < b < size - 1 && Idx(seed, size, a) == Idx(seed, size, b);
      var i, j := PlacesInList(rec, laid, nodes, seed, size, a, b);
      HeadIsSought(rec, laid, nodes, seed, size);
      TieIsNotRestored(rec, nodes, out, i, j);
    } else {
      LongIsNotRestored(rec, laid, nodes, seed, size, out);
    }
  }

  // Initialization and benchmark together. With no index given twice every run leaves the list as it
  // was initialized; otherwise the run of seed3 == 1 and finder_idx == 0 does not. Data and records
  // are back in any case.
  method InitAndBench(size: nat, seed: Int16, finder_idx: Int16, seed3: Int16,
                      stateKernel: (nat, U16, U16) -> U16, matrixKernel: (nat, U16, U16) -> U16)
      returns (list: ListHead, res: Results, ghost laid: seq<ListHead>, ghost nodes: seq<ListHead>,
               ghost out: seq<ListHead>)
    requires size >= 4
    ensures fresh(res) && res.list == list && nodes != [] && list == nodes[0]
    ensures Laid(Records(Nodes(laid)), laid, seed, size)
    ensures StablySorted(Order(CmpIdx, null), Records(Nodes(laid)), laid, nodes)
    ensures multiset(out) == multiset(nodes) && out != [] && IsList(out[0], out)
    ensures DistinctIndices(seed, size) ==> IsList(list, nodes)
    ensures !DistinctIndices(seed, size) && seed3 == 1 && finder_idx == 0 ==> !IsList(list, nodes)
  {
    hide DistinctIndices, StablySorted, Laid, BackedUp, StrictlyIndexOrdered, IndexOrdered, Rounds, BenchResult;
    list, laid, nodes := CoreListInit(size, seed);
    ghost var rec := Records(Nodes(laid));
    StableIsOrdered(rec, laid, nodes);
    LaidLength(rec, laid, seed, size);
    SameNodes(nodes, laid);
    InitialOrder(rec, laid, nodes, seed, size);
    CellsAre(laid);
    res := new Results(stateKernel, matrixKernel, seed3, list);
    assert Records(Nodes(laid)) == rec;
    hide Records, Infos, Nodes, IsList, Cells;
    var retval;
    ghost var st, mid, sorted, trace, tail;
    retval, st, mid, sorted, out, trace, tail := CoreBenchList(res, finder_idx, nodes);
    if !DistinctIndices(seed, size) && seed3 == 1 && finder_idx == 0 {
      FirstRound(rec, Search(nodes, finder_idx, 0, 0, 0), 0, seed3);
      RepeatIsNotRestored(rec, laid, nodes, seed, size, out);
    }
  }
}
