// The first part of core_bench_list: values are looked for, and the list turns round each time.
module ListSearch {
  import opened CoreList
  import opened MachineInts
  import opened MergeOrder
  import opened MergeSort

  // The node that core_list_find looks for: by index, or by the low byte when the index is negative
  predicate Matches(r: Record, info: Record) {
    if info.idx >= 0 then r.idx == info.idx else Low(r.data16) == info.data16
  }

  // The place of the first match, |s| when there is none
  ghost function FirstMatch(rec: Snapshot, s: seq<ListHead>, info: Record): (k: nat)
    ensures k <= |s|
  {
    if s == [] || Matches(At(rec, s[0]), info) then 0 else 1 + FirstMatch(rec, s[1..], info)
  }

  method Find(list0: ListHead?, info: Record, ghost s: seq<ListHead>, ghost all: set<ListHead>)
      returns (list: ListHead?)
    requires IsList(list0, s) && Nodes(s) <= all
    ensures var k := FirstMatch(Records(all), s, info); list == if k < |s| then s[k] else null
    ensures IsList(list0, s)
    ensures Records(all) == old(Records(all))
  {
    list := list0;
    ghost var r := s;
    if info.idx >= 0 {
      while list != null && list.info.idx != info.idx
        invariant IsList(list, r) && Nodes(r) <= all && r == s[|s| - |r|..]
        invariant FirstMatch(Records(all), s, info) == |s| - |r| + FirstMatch(Records(all), r, info)
        decreases |r|
      {
        list := list.next;
        r := r[1..];
      }
    } else {
      while list != null && list.info.data16 % 256 != info.data16
        invariant IsList(list, r) && Nodes(r) <= all && r == s[|s| - |r|..]
        invariant FirstMatch(Records(all), s, info) == |s| - |r| + FirstMatch(Records(all), r, info)
        decreases |r|
      {
        list := list.next;
        r := r[1..];
      }
    }
  }

  ghost function Reversed<T>(s: seq<T>): (r: seq<T>)
    ensures multiset(r) == multiset(s) && |r| == |s|
  {
    if s == [] then [] else
      assert s == [s[0]] + s[1..];
      Reversed(s[1..]) + [s[0]]
  }

  // Move the first node of list in front of next
  method Relink(list: ListHead, next: ListHead?, ghost todo: seq<ListHead>, ghost done: seq<ListHead>,
                ghost all: set<ListHead>)
      returns (tmp: ListHead?)
    requires IsList(list, todo) && IsList(next, done) && Apart(done, todo)
    modifies list`next
    ensures IsList(tmp, todo[1..]) && IsList(list, [todo[0]] + done) && Apart([todo[0]] + done, todo[1..])
    ensures Records(all) == old(Records(all))
  {
    assert list in todo && list !in done;
    tmp := list.next;
    list.next := next;
  }

  method Reverse(list0: ListHead?, ghost s: seq<ListHead>, ghost all: set<ListHead>) returns (next: ListHead?)
    requires IsList(list0, s)
    modifies Nodes(s)`next
    ensures IsList(next, Reversed(s)) && Records(all) == old(Records(all))
  {
    hide Linked, Distinct, Apart, Records;
    next := null;
    var list := list0;
    ghost var todo, done := s, [];
    Nothing(list0, s);
    while list != null
      invariant IsList(list, todo) && IsList(next, done) && Apart(done, todo) && Nodes(todo) <= Nodes(s)
      invariant Reversed(s) == Reversed(todo) + done
      invariant Records(all) == old(Records(all))
      decreases |todo|
    {
      var tmp := Relink(list, next, todo, done, all);
      assert Reversed(todo) + done == Reversed(todo[1..]) + ([todo[0]] + done);
      todo, done := todo[1..], [todo[0]] + done;
      next := list;
      list := tmp;
    }
    assert [] + done == done;
  }

  lemma Nothing(list: ListHead?, s: seq<ListHead>)
    ensures IsList(null, []) && Apart([], s)
    ensures Reversed(s) == Reversed(s) + []
  {
  }

  lemma {:induction false} ReversedAt<T>(s: seq<T>, i: nat)
    requires i < |s|
    ensures Reversed(s)[i] == s[|s| - 1 - i]
  {
    if i < |s| - 1 {
      ReversedAt(s[1..], i);
    }
  }

  // The node after place k moved to second place, if there is one
  ghost function Promoted<T>(s: seq<T>, k: nat): seq<T>
    requires k < |s|
  {
    if 0 < k < |s| - 1 then [s[0], s[k + 1]] + s[1..k + 1] + s[k + 2..] else s
  }

  lemma PromotedContents<T>(s: seq<T>, k: nat)
    requires k < |s|
    ensures multiset(Promoted(s, k)) == multiset(s) && |Promoted(s, k)| == |s| && Promoted(s, k)[0] == s[0]
  {
    if 0 < k < |s| - 1 {
      var a, b, c, d := [s[0]], s[1..k + 1], [s[k + 1]], s[k + 2..];
      assert s == a + b + c + d && Promoted(s, k) == a + c + b + d;
      SameContents(a, b, c, d);
    }
  }

  lemma SameContents<T>(a: seq<T>, b: seq<T>, c: seq<T>, d: seq<T>)
    ensures multiset(a + c + b + d) == multiset(a + b + c + d)
  {
  }

  lemma PromotedPlaces<T>(s: seq<T>, k: nat, i: nat)
    requires i < |s| && 0 < k < |s| - 1
    ensures Promoted(s, k)[i] ==
      if i == 0 then s[0] else if i == 1 then s[k + 1] else if i < k + 2 then s[i - 1] else s[i]
  {
  }

  lemma PromotedDistinct<T>(s: seq<T>, k: nat)
    requires k < |s| && Distinct(s)
    ensures Distinct(Promoted(s, k))
  {
    if 0 < k < |s| - 1 {
      forall i, j | 0 <= i < j < |s|
        ensures Promoted(s, k)[i] != Promoted(s, k)[j]
      {
        PromotedPlaces(s, k, i);
        PromotedPlaces(s, k, j);
      }
    }
  }

  // What follows the found node goes to second place
  method Promote(list: ListHead, this_find: ListHead, ghost s: seq<ListHead>, ghost k: nat, ghost all: set<ListHead>)
    requires IsList(list, s) && k < |s| && this_find == s[k]
    modifies Nodes(s)`next
    ensures IsList(list, Promoted(s, k)) && Records(all) == old(Records(all))
  {
    PromotedDistinct(s, k);
    hide Distinct, Records;
    ghost var t := Promoted(s, k);
    if this_find.next != null {
      assert k < |s| - 1;
      var finder := this_find.next;
      assert finder == s[k + 1];
      this_find.next := finder.next;
      finder.next := list.next;
      list.next := finder;
      assert forall i | 0 <= i < |s| - 1 && i != k :: s[i] != s[k];
      forall i | 0 <= i < |s| - 1
        ensures t[i].next == t[i + 1]
      {
        if k > 0 {
          PromotedPlaces(s, k, i);
          PromotedPlaces(s, k, i + 1);
        }
      }
    }
  }

  // The list and the counters while values are looked for
  datatype Search = Search(s: seq<ListHead>, idx: Int16, retval: U16, found: nat, missed: nat)

  function Bit(data: U16, weight: nat): U16
    requires weight > 0
  {
    data / weight % 2
  }

  // One round: look for info, reverse the list, and promote the successor of what was found
  ghost function Round(rec: Snapshot, st: Search, i: nat): Search
    requires |st.s| >= 2
  {
    var k := FirstMatch(rec, st.s, Record(i % 256, st.idx));
    var r := Reversed(st.s);
    var idx := if st.idx >= 0 then Next16(st.idx) else st.idx;
    if k == |st.s| then
      Search(r, idx, (st.retval + Bit(At(rec, r[1]).data16, 256)) % 0x1_0000, st.found, st.missed + 1)
    else
      var data := At(rec, st.s[k]).data16;
      var bit := if Bit(data, 1) == 1 then Bit(data, 512) else 0;
      Search(Promoted(r, |st.s| - 1 - k), idx, (st.retval + bit) % 0x1_0000, st.found + 1, st.missed)
  }

  lemma RoundKeeps(rec: Snapshot, st: Search, i: nat)
    requires |st.s| >= 2
    ensures multiset(Round(rec, st, i).s) == multiset(st.s) && |Round(rec, st, i).s| == |st.s|
  {
    hide Promoted, FirstMatch, Reversed, Bit;
    var k := FirstMatch(rec, st.s, Record(i % 256, st.idx));
    if k < |st.s| {
      PromotedContents(Reversed(st.s), |st.s| - 1 - k);
    }
  }

  ghost function Rounds(rec: Snapshot, st: Search, i: nat, n: int): Search
    requires |st.s| >= 2
    decreases n - i
  {
    if i >= n then st else
      RoundKeeps(rec, st, i);
      Rounds(rec, Round(rec, st, i), i + 1, n)
  }

  method FindRound(list0: ListHead, info: Record, i: nat, retval0: U16, found0: nat, missed0: nat,
                   ghost st: Search, ghost all: set<ListHead>)
      returns (list: ListHead, retval: U16, found: nat, missed: nat)
    requires IsList(list0, st.s) && |st.s| >= 2 && Nodes(st.s) <= all
    requires info == Record(i % 256, st.idx) && st == Search(st.s, st.idx, retval0, found0, missed0)
    modifies Nodes(st.s)`next
    ensures Records(all) == old(Records(all))
    ensures var st1 := Round(Records(all), st, i);
      IsList(list, st1.s) && st1 == Search(st1.s, st1.idx, retval, found, missed)
  {
    hide Distinct, Linked, Records, FirstMatch, Reversed, Promoted;
    list, retval, found, missed := list0, retval0, found0, missed0;
    ghost var k := FirstMatch(Records(all), st.s, info);
    ghost var r := Reversed(st.s);
    SameNodes(r, st.s);
    var this_find := Find(list, info, st.s, all);
    assert this_find != null ==> k < |st.s|;
    list := Reverse(list, st.s, all);
    if this_find == null {
      missed := missed + 1;
      SecondNode(list, r);
      RecordAt(all, r[1]);
      retval := (retval + list.next.info.data16 / 256 % 2) % 0x1_0000;
    } else {
      found := found + 1;
      RecordAt(all, this_find);
      if this_find.info.data16 % 2 == 1 {
        retval := (retval + this_find.info.data16 / 512 % 2) % 0x1_0000;
      }
      ReversedAt(st.s, |st.s| - 1 - k);
      Promote(list, this_find, r, |st.s| - 1 - k, all);
    }
  }

  lemma SecondNode(list: ListHead, s: seq<ListHead>)
    requires IsList(list, s) && |s| >= 2
    ensures list.next == s[1]
  {
  }

  lemma SameNodes(a: seq<ListHead>, b: seq<ListHead>)
    requires multiset(a) == multiset(b)
    ensures Nodes(a) == Nodes(b) && |a| == |b|
  {
    assert |multiset(a)| == |a| && |multiset(b)| == |b|;
    forall n
      ensures n in a <==> n in b
    {
      assert n in multiset(a) <==> n in multiset(b);
    }
  }

  lemma RecordAt(all: set<ListHead>, n: ListHead)
    requires n in all
    ensures At(Records(all), n) == Rec(n.info)
  {
  }

  lemma RoundIndex(rec: Snapshot, st: Search, i: nat)
    requires |st.s| >= 2
    ensures Round(rec, st, i).idx == if st.idx >= 0 then Next16(st.idx) else st.idx
  {
  }

  // What the search does, told of the lists themselves

  // The index looked for in round i: it counts up, and stays at the lowest number once it wraps
  function WantedIndex(finder_idx: Int16, i: nat): Int16 {
    if finder_idx < 0 then finder_idx else if finder_idx + i < 0x8000 then finder_idx + i else -0x8000
  }

  // Round i takes r for what it looks for: by index, or by the low byte when there is no index
  predicate Answers(r: Record, finder_idx: Int16, i: nat) {
    var w := WantedIndex(finder_idx, i);
    if w >= 0 then r.idx == w else r.data16 % 256 == i % 256
  }

  ghost predicate Answered(rec: Snapshot, s: seq<ListHead>, finder_idx: Int16, i: nat) {
    exists k :: 0 <= k < |s| && Answers(At(rec, s[k]), finder_idx, i)
  }

  ghost predicate FirstAnswer(rec: Snapshot, s: seq<ListHead>, finder_idx: Int16, i: nat, k: nat) {
    && k < |s| && Answers(At(rec, s[k]), finder_idx, i)
    && forall j | 0 <= j < k :: !Answers(At(rec, s[j]), finder_idx, i)
  }

  // Where the node in place j of a list that has turned round was before: the order is the opposite
  // one, but that the node before place k, if there is one and it is not last then, comes second
  function Origin(n: nat, k: nat, j: nat): (i: nat)
    requires j < n
    ensures i < n
  {
    if 0 < k < n - 1 && j == 1 then k - 1 else if 0 < k < n - 1 && 1 < j <= n - k then n - j else n - 1 - j
  }

  ghost predicate TurnedRound<T>(s: seq<T>, t: seq<T>, k: nat) {
    |t| == |s| && forall j | 0 <= j < |s| :: t[j] == s[Origin(|s|, k, j)]
  }

  // Round i turns the list s into t and adds bit to the value
  ghost predicate Turns(rec: Snapshot, s: seq<ListHead>, t: seq<ListHead>, finder_idx: Int16, i: nat, bit: nat) {
    && |s| >= 2
    && (Answered(rec, s, finder_idx, i) ==>
      exists k: nat :: FirstAnswer(rec, s, finder_idx, i, k) && TurnedRound(s, t, k)
        && bit == At(rec, s[k]).data16 % 2 * (At(rec, s[k]).data16 / 512 % 2))
    && (!Answered(rec, s, finder_idx, i) ==>
      TurnedRound(s, t, 0) && bit == At(rec, s[|s| - 2]).data16 / 256 % 2)
  }

  // The lists between the rounds, and the bits of the rounds
  datatype Trace = Trace(lists: seq<seq<ListHead>>, bits: seq<nat>)

  ghost predicate Traced(rec: Snapshot, lists: seq<seq<ListHead>>, bits: seq<nat>, finder_idx: Int16) {
    && |lists| == |bits| + 1
    && forall i | 0 <= i < |bits| :: Turns(rec, lists[i], lists[i + 1], finder_idx, i, bits[i])
  }

  ghost function Sum(bits: seq<nat>): nat {
    if bits == [] then 0 else Sum(bits[..|bits| - 1]) + bits[|bits| - 1]
  }

  // The rounds among the first n whose question some node answers
  ghost function Hits(rec: Snapshot, s: seq<ListHead>, finder_idx: Int16, n: nat): (h: nat)
    ensures h <= n
  {
    if n == 0 then 0 else Hits(rec, s, finder_idx, n - 1) + if Answered(rec, s, finder_idx, n - 1) then 1 else 0
  }

  lemma MatchesAnswers(r: Record, finder_idx: Int16, i: nat)
    ensures Matches(r, Record(i % 256, WantedIndex(finder_idx, i))) <==> Answers(r, finder_idx, i)
  {
  }

  lemma {:induction false} FirstMatchIs(rec: Snapshot, s: seq<ListHead>, info: Record)
    ensures var k := FirstMatch(rec, s, info);
      && (k < |s| ==> Matches(At(rec, s[k]), info))
      && forall j | 0 <= j < k :: !Matches(At(rec, s[j]), info)
  {
    hide Matches;
    if s != [] && !Matches(At(rec, s[0]), info) {
      FirstMatchIs(rec, s[1..], info);
      forall j | 0 <= j < FirstMatch(rec, s, info)
        ensures !Matches(At(rec, s[j]), info)
      {
        assert j > 0 ==> s[j] == s[1..][j - 1];
      }
    }
  }

  lemma FirstMatchAnswers(rec: Snapshot, s: seq<ListHead>, finder_idx: Int16, i: nat)
    ensures var k := FirstMatch(rec, s, Record(i % 256, WantedIndex(finder_idx, i)));
      && (Answered(rec, s, finder_idx, i) <==> k < |s|)
      && (k < |s| ==> FirstAnswer(rec, s, finder_idx, i, k))
  {
    var info := Record(i % 256, WantedIndex(finder_idx, i));
    FirstMatchIs(rec, s, info);
    forall j | 0 <= j < |s|
      ensures Matches(At(rec, s[j]), info) <==> Answers(At(rec, s[j]), finder_idx, i)
    {
      MatchesAnswers(At(rec, s[j]), finder_idx, i);
    }
    hide Matches, Answers, FirstMatch, WantedIndex;
  }

  lemma ReversedTurns<T>(s: seq<T>)
    ensures TurnedRound(s, Reversed(s), 0)
  {
    forall j | 0 <= j < |s|
      ensures Reversed(s)[j] == s[|s| - 1 - j]
    {
      ReversedAt(s, j);
    }
  }

  lemma PromotedPlace<T>(s: seq<T>, k: nat, j: nat)
    requires 0 < k < |s| - 1 && j < |s|
    ensures |Promoted(Reversed(s), |s| - 1 - k)| == |s|
    ensures Promoted(Reversed(s), |s| - 1 - k)[j] == s[Origin(|s|, k, j)]
  {
    var n := |s|;
    hide Reversed, Promoted;
    PromotedContents(Reversed(s), n - 1 - k);
    PromotedPlaces(Reversed(s), n - 1 - k, j);
    ReversedAt(s, j);
    if j == 1 {
      ReversedAt(s, n - k);
    } else if j > 1 {
      ReversedAt(s, j - 1);
    }
  }

  lemma TurnedPlace<T>(s: seq<T>, k: nat, j: nat)
    requires k < |s| && j < |s|
    ensures |Promoted(Reversed(s), |s| - 1 - k)| == |s|
    ensures Promoted(Reversed(s), |s| - 1 - k)[j] == s[Origin(|s|, k, j)]
  {
    hide Reversed, Promoted, Origin;
    if 0 < k < |s| - 1 {
      PromotedPlace(s, k, j);
    } else {
      Unpromoted(Reversed(s), |s| - 1 - k);
      ReversedAt(s, j);
      OriginPlain(|s|, k, j);
    }
  }

  lemma PromotedTurns<T>(s: seq<T>, k: nat)
    requires k < |s|
    ensures TurnedRound(s, Promoted(Reversed(s), |s| - 1 - k), k)
  {
    hide Reversed, Promoted, Origin;
    TurnedPlace(s, k, 0);
    forall j | 0 <= j < |s|
      ensures Promoted(Reversed(s), |s| - 1 - k)[j] == s[Origin(|s|, k, j)]
    {
      TurnedPlace(s, k, j);
    }
  }

  lemma OriginPlain(n: nat, k: nat, j: nat)
    requires j < n && !(0 < k < n - 1)
    ensures Origin(n, k, j) == n - 1 - j
  {
  }

  lemma Unpromoted<T>(s: seq<T>, k: nat)
    requires k < |s| && !(0 < k < |s| - 1)
    ensures Promoted(s, k) == s
  {
  }

  lemma AnsweredAlike(rec: Snapshot, s: seq<ListHead>, t: seq<ListHead>, finder_idx: Int16, i: nat)
    requires multiset(s) == multiset(t) && Answered(rec, s, finder_idx, i)
    ensures Answered(rec, t, finder_idx, i)
  {
    hide Answers;
    var k :| 0 <= k < |s| && Answers(At(rec, s[k]), finder_idx, i);
    assert s[k] in multiset(t);
    var j :| 0 <= j < |t| && t[j] == s[k];
  }

  lemma FoundTurns(rec: Snapshot, s: seq<ListHead>, t: seq<ListHead>, finder_idx: Int16, i: nat, k: nat, bit: nat)
    requires |s| >= 2 && FirstAnswer(rec, s, finder_idx, i, k) && TurnedRound(s, t, k)
    requires bit == At(rec, s[k]).data16 % 2 * (At(rec, s[k]).data16 / 512 % 2)
    ensures Turns(rec, s, t, finder_idx, i, bit)
  {
    hide Answers, TurnedRound;
  }

  lemma MissedTurns(rec: Snapshot, s: seq<ListHead>, t: seq<ListHead>, finder_idx: Int16, i: nat, bit: nat)
    requires |s| >= 2 && !Answered(rec, s, finder_idx, i) && TurnedRound(s, t, 0)
    requires bit == At(rec, s[|s| - 2]).data16 / 256 % 2
    ensures Turns(rec, s, t, finder_idx, i, bit)
  {
    hide Answered, TurnedRound;
  }

  lemma FoundBit(data: U16)
    ensures (if Bit(data, 1) == 1 then Bit(data, 512) else 0) == data % 2 * (data / 512 % 2)
  {
  }

  lemma RoundFound(rec: Snapshot, st: Search, i: nat, k: nat)
    requires |st.s| >= 2 && k == FirstMatch(rec, st.s, Record(i % 256, st.idx)) < |st.s|
    ensures var u, data := Round(rec, st, i), At(rec, st.s[k]).data16;
      && u.s == Promoted(Reversed(st.s), |st.s| - 1 - k)
      && u.retval == (st.retval + data % 2 * (data / 512 % 2)) % 0x1_0000
      && u.found == st.found + 1 && u.missed == st.missed
  {
    FoundBit(At(rec, st.s[k]).data16);
    hide FirstMatch, Promoted, Reversed, Bit, At, Next16;
  }

  lemma RoundMissed(rec: Snapshot, st: Search, i: nat)
    requires |st.s| >= 2 && FirstMatch(rec, st.s, Record(i % 256, st.idx)) == |st.s|
    ensures var u, data := Round(rec, st, i), At(rec, st.s[|st.s| - 2]).data16;
      && u.s == Reversed(st.s) && u.retval == (st.retval + data / 256 % 2) % 0x1_0000
      && u.found == st.found && u.missed == st.missed + 1
  {
    ReversedAt(st.s, 1);
    MissedBit(At(rec, st.s[|st.s| - 2]).data16);
    hide FirstMatch, Promoted, Reversed, Bit, At, Next16;
  }

  lemma NextWanted(finder_idx: Int16, i: nat)
    ensures var w := WantedIndex(finder_idx, i);
      WantedIndex(finder_idx, i + 1) == if w >= 0 then Next16(w) else w
  {
  }

  lemma RoundTurns(rec: Snapshot, st: Search, finder_idx: Int16, i: nat) returns (bit: nat)
    requires |st.s| >= 2 && st.idx == WantedIndex(finder_idx, i)
    ensures var u := Round(rec, st, i);
      && Turns(rec, st.s, u.s, finder_idx, i, bit) && u.retval == (st.retval + bit) % 0x1_0000
      && u.idx == WantedIndex(finder_idx, i + 1)
      && u.found == st.found + (if Answered(rec, st.s, finder_idx, i) then 1 else 0)
      && u.found + u.missed == st.found + st.missed + 1
  {
    hide FirstMatch, Answered, FirstAnswer, Turns, TurnedRound, Promoted, Reversed, Round, At, WantedIndex, Next16;
    var k := FirstMatch(rec, st.s, Record(i % 256, st.idx));
    FirstMatchAnswers(rec, st.s, finder_idx, i);
    NextWanted(finder_idx, i);
    RoundIndex(rec, st, i);
    if k < |st.s| {
      var data := At(rec, st.s[k]).data16;
      bit := data % 2 * (data / 512 % 2);
      RoundFound(rec, st, i, k);
      PromotedTurns(st.s, k);
      FoundTurns(rec, st.s, Round(rec, st, i).s, finder_idx, i, k, bit);
    } else {
      bit := At(rec, st.s[|st.s| - 2]).data16 / 256 % 2;
      RoundMissed(rec, st, i);
      ReversedTurns(st.s);
      MissedTurns(rec, st.s, Round(rec, st, i).s, finder_idx, i, bit);
    }
  }

  lemma MissedBit(data: U16)
    ensures Bit(data, 256) == data / 256 % 2
  {
  }

  // What a search of n rounds has come to, the list s being the first one
  ghost predicate Searched(rec: Snapshot, s: seq<ListHead>, st: Search, finder_idx: Int16, n: nat,
                           lists: seq<seq<ListHead>>, bits: seq<nat>)
  {
    && |bits| == n && Traced(rec, lists, bits, finder_idx) && lists[0] == s && lists[n] == st.s
    && st.retval == Sum(bits) % 0x1_0000 && st.idx == WantedIndex(finder_idx, n)
    && st.found == Hits(rec, s, finder_idx, n) && st.found + st.missed == n
  }

  lemma SearchedSum(rec: Snapshot, s: seq<ListHead>, st: Search, finder_idx: Int16, n: nat,
                    lists: seq<seq<ListHead>>, bits: seq<nat>)
    requires Searched(rec, s, st, finder_idx, n, lists, bits)
    ensures st.retval == Sum(bits) % 0x1_0000
  {
  }

  lemma SearchStarts(rec: Snapshot, s: seq<ListHead>, finder_idx: Int16)
    ensures Searched(rec, s, Search(s, finder_idx, 0, 0, 0), finder_idx, 0, [s], [])
  {
  }

  lemma TraceGrows(rec: Snapshot, lists: seq<seq<ListHead>>, bits: seq<nat>, finder_idx: Int16,
                   t: seq<ListHead>, bit: nat)
    requires Traced(rec, lists, bits, finder_idx)
    requires Turns(rec, lists[|bits|], t, finder_idx, |bits|, bit)
    ensures Traced(rec, lists + [t], bits + [bit], finder_idx) && Sum(bits + [bit]) == Sum(bits) + bit
  {
    hide Turns;
    var l, b := lists + [t], bits + [bit];
    assert b[..|bits|] == bits;
    forall i | 0 <= i < |b|
      ensures Turns(rec, l[i], l[i + 1], finder_idx, i, b[i])
    {
      if i < |bits| {
        assert Turns(rec, lists[i], lists[i + 1], finder_idx, i, bits[i]);
      }
    }
  }

  lemma SearchGoesOn(rec: Snapshot, s: seq<ListHead>, st: Search, finder_idx: Int16, n: nat,
                     lists: seq<seq<ListHead>>, bits: seq<nat>)
      returns (bit: nat)
    requires |st.s| >= 2 && multiset(st.s) == multiset(s) && Searched(rec, s, st, finder_idx, n, lists, bits)
    ensures Searched(rec, s, Round(rec, st, n), finder_idx, n + 1, lists + [Round(rec, st, n).s], bits + [bit])
  {
    hide Turns, Round, Answered, Sum, Traced;
    bit := RoundTurns(rec, st, finder_idx, n);
    TraceLength(rec, lists, bits, finder_idx);
    TraceGrows(rec, lists, bits, finder_idx, Round(rec, st, n).s, bit);
    SumModulo(Sum(bits), bit);
    if Answered(rec, st.s, finder_idx, n) {
      AnsweredAlike(rec, st.s, s, finder_idx, n);
    } else if Answered(rec, s, finder_idx, n) {
      AnsweredAlike(rec, s, st.s, finder_idx, n);
    }
  }

  lemma TraceLength(rec: Snapshot, lists: seq<seq<ListHead>>, bits: seq<nat>, finder_idx: Int16)
    requires Traced(rec, lists, bits, finder_idx)
    ensures |lists| == |bits| + 1
  {
  }

  lemma SumModulo(x: nat, bit: nat)
    ensures (x % 0x1_0000 + bit) % 0x1_0000 == (x + bit) % 0x1_0000
  {
  }

  method FindPhase(list0: ListHead, find_num: Int16, finder_idx: Int16, ghost s: seq<ListHead>,
                   ghost all: set<ListHead>)
      returns (list: ListHead, info: Record, retval: U16, ghost st: Search,
               ghost trace: Trace)
    requires IsList(list0, s) && |s| >= 2 && Nodes(s) == all
    modifies all`next
    ensures Records(all) == old(Records(all))
    ensures Searched(Records(all), s, st, finder_idx, if find_num < 0 then 0 else find_num,
                     trace.lists, trace.bits)
    ensures st == Rounds(Records(all), Search(s, finder_idx, 0, 0, 0), 0, find_num)
    ensures IsList(list, st.s) && multiset(st.s) == multiset(s)
    ensures info == Record(if find_num <= 0 then 0 else (find_num - 1) % 256, st.idx)
    ensures retval == (st.retval + 4 * st.found - st.missed) % 0x1_0000
  {
    hide Linked, Distinct, Records, Round, Searched;
    list, retval, st := list0, 0, Search(s, finder_idx, 0, 0, 0);
    ghost var lists, bits: seq<nat> := [s], [];
    var found, missed := 0, 0;
    info := Record(0, finder_idx);
    ghost var rec := Records(all);
    SearchStarts(rec, s, finder_idx);
    var i := 0;
    while i < find_num
      invariant i == 0 || i <= find_num
      invariant Searched(rec, s, st, finder_idx, i, lists, bits)
      invariant Records(all) == rec && IsList(list, st.s)
      invariant |st.s| >= 2 && multiset(st.s) == multiset(s) && Nodes(st.s) == all
      invariant st == Search(st.s, st.idx, retval, found, missed)
      invariant info == Record(if i == 0 then 0 else (i - 1) % 256, st.idx)
      invariant Rounds(rec, Search(s, finder_idx, 0, 0, 0), 0, find_num) == Rounds(rec, st, i, find_num)
    {
      info := info.(data16 := i % 256);
      RoundKeeps(rec, st, i);
      SameNodes(Round(rec, st, i).s, st.s);
      RoundIndex(rec, st, i);
      list, retval, found, missed := FindRound(list, info, i, retval, found, missed, st, all);
      if info.idx >= 0 {
        info := info.(idx := Next16(info.idx));
      }
      ghost var bit := SearchGoesOn(rec, s, st, finder_idx, i, lists, bits);
      st := Round(rec, st, i);
      lists, bits := lists + [st.s], bits + [bit];
      i := i + 1;
    }
    retval := (retval + found * 4 - missed) % 0x1_0000;
    trace := Trace(lists, bits);
  }
}
