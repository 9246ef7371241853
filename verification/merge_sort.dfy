// core_list_mergesort: the in-place bottom-up merge sort.
module MergeSort {
  import opened CoreList
  import opened MergeOrder

  ghost function Infos(all: set<ListHead>): set<ListData>
    reads all`info
  {
    set n | n in all :: n.info
  }

  ghost function Records(all: set<ListHead>): (rec: Snapshot)
    reads all`info, Infos(all)
    ensures rec.Keys == all
  {
    map n | n in all :: Rec(n.info)
  }

  ghost predicate Distinct<T>(s: seq<T>) {
    forall i, j | 0 <= i < j < |s| :: s[i] != s[j]
  }

  ghost predicate Apart<T>(s: seq<T>, t: seq<T>) {
    forall x | x in s :: x !in t
  }

  ghost predicate Linked(s: seq<ListHead>)
    reads s`next
  {
    forall i | 0 <= i < |s| - 1 :: s[i].next == s[i + 1]
  }

  // s is the NULL-terminated list that starts at head
  ghost predicate IsList(head: ListHead?, s: seq<ListHead>)
    reads s`next
  {
    && Distinct(s)
    && Linked(s)
    && if |s| == 0 then head == null else head == s[0] && s[|s| - 1].next == null
  }

  ghost function Min(a: int, b: int): int { if a < b then a else b }

  // The merged list so far: from list to tail
  ghost predicate Built(list: ListHead?, tail: ListHead?, s: seq<ListHead>)
    reads s`next
  {
    && Distinct(s)
    && Linked(s)
    && if s == [] then list == null && tail == null else list == s[0] && tail == s[|s| - 1]
  }

  // out is merged, a is the rest of the first run, and chain all that follows it
  ghost predicate Shape(list: ListHead?, tail: ListHead?, out: seq<ListHead>,
                        p: ListHead?, a: seq<ListHead>, q: ListHead?, chain: seq<ListHead>)
    reads out`next, a`next, chain`next
  {
    && Built(list, tail, out)
    && Distinct(a) && Linked(a) && (a != [] ==> p == a[0])
    && IsList(q, chain)
    && Apart(out, a) && Apart(out, chain) && Apart(a, chain)
  }

  // Link e behind tail
  method Emit(list: ListHead?, tail: ListHead?, e: ListHead, ghost out: seq<ListHead>, ghost all: set<ListHead>)
      returns (list': ListHead?, tail': ListHead?)
    requires Built(list, tail, out) && e !in out
    modifies (set n | n in out)`next
    ensures Built(list', tail', out + [e])
    ensures Records(all) == old(Records(all))
  {
    if tail != null {
      tail.next := e;
      list' := list;
    } else {
      list' := e;
    }
    tail' := e;
  }

  method Close(list0: ListHead?, tail: ListHead?, ghost out: seq<ListHead>, ghost all: set<ListHead>)
      returns (list: ListHead)
    requires Built(list0, tail, out) && out != []
    modifies (set n | n in out)`next
    ensures IsList(list, out) && Records(all) == old(Records(all))
  {
    tail.next := null;
    list := list0;
  }

  method TakeP(list: ListHead?, tail: ListHead?, p: ListHead,
               ghost out: seq<ListHead>, ghost a: seq<ListHead>, ghost q: ListHead?, ghost chain: seq<ListHead>,
               ghost all: set<ListHead>)
      returns (list': ListHead?, tail': ListHead?, p': ListHead?)
    requires Shape(list, tail, out, p, a, q, chain) && a != []
    modifies (set n | n in out)`next
    ensures Shape(list', tail', out + [a[0]], p', a[1..], q, chain)
    ensures Records(all) == old(Records(all))
  {
    var e := p;
    p' := p.next;
    list', tail' := Emit(list, tail, e, out, all);
  }

  method TakeQ(list: ListHead?, tail: ListHead?, q: ListHead,
               ghost out: seq<ListHead>, ghost p: ListHead?, ghost a: seq<ListHead>, ghost chain: seq<ListHead>,
               ghost all: set<ListHead>)
      returns (list': ListHead?, tail': ListHead?, q': ListHead?)
    requires Shape(list, tail, out, p, a, q, chain)
    modifies (set n | n in out)`next
    ensures Shape(list', tail', out + [chain[0]], p, a, q', chain[1..])
    ensures Records(all) == old(Records(all))
  {
    var e := q;
    q' := q.next;
    list', tail' := Emit(list, tail, e, out, all);
  }

  method CompareNodes(cmp: Comparator, p: ListHead, q: ListHead, res: Results?, ghost all: set<ListHead>)
      returns (c: int)
    requires Usable(Order(cmp, res)) && p in all && q in all
    modifies Infos(all)`data16, Scratch(res)`calls, Scratch(res)`crc, Scratch(res)`crcstate, Scratch(res)`crcmatrix
    ensures EvolvesAll(Order(cmp, res), old(Records(all)), Records(all))
    ensures Fixed(Order(cmp, res), At(Records(all), p)) && Fixed(Order(cmp, res), At(Records(all), q))
    ensures c <= 0 <==> Leq(Order(cmp, res), At(Records(all), p), At(Records(all), q))
  {
    c := Compare(cmp, p.info, q.info, res);
  }

  // A merge of the runs a0 and b0: what is merged goes behind out, rest follows b0
  datatype Job = Job(o: Order, all: set<ListHead>, pos: Positions, rec0: Snapshot,
                       out: seq<ListHead>, a0: seq<ListHead>, b0: seq<ListHead>, rest: seq<ListHead>)

  ghost predicate Within(all: set<ListHead>, s: seq<ListHead>) {
    forall n | n in s :: n in all
  }

  // m is merged, a and b remain: the nodes
  ghost predicate Places(g: Job, list: ListHead?, tail: ListHead?, m: seq<ListHead>,
                         p: ListHead?, a: seq<ListHead>, q: ListHead?, b: seq<ListHead>)
    reads g.all`next
  {
    && Within(g.all, g.out + m) && Within(g.all, a) && Within(g.all, b + g.rest)
    && Shape(list, tail, g.out + m, p, a, q, b + g.rest)
  }

  // and their order
  ghost predicate Ordered(g: Job, rec: Snapshot, m: seq<ListHead>, a: seq<ListHead>, b: seq<ListHead>) {
    && g.a0 != [] && Run(g.o, g.rec0, g.pos, g.a0) && Run(g.o, g.rec0, g.pos, g.b0)
    && Merging(g.o, g.rec0, rec, g.a0, g.b0, m, a, b)
  }

  ghost predicate State(g: Job, list: ListHead?, tail: ListHead?, m: seq<ListHead>,
                        p: ListHead?, a: seq<ListHead>, q: ListHead?, b: seq<ListHead>)
    reads g.all, Infos(g.all)
  {
    Places(g, list, tail, m, p, a, q, b) && Ordered(g, Records(g.all), m, a, b)
  }

  lemma Heads(g: Job, list: ListHead?, tail: ListHead?, m: seq<ListHead>,
              p: ListHead?, a: seq<ListHead>, q: ListHead?, b: seq<ListHead>)
    requires Places(g, list, tail, m, p, a, q, b)
    ensures a != [] ==> p == a[0] && p in g.all
    ensures q != null && b + g.rest != [] ==> q == (b + g.rest)[0] && q in g.all
    ensures q != null <==> b + g.rest != []
  {
  }

  // Two nodes of the merge have been compared: p's first element is lower or the same
  ghost predicate LeftFirst(g: Job, a: seq<ListHead>, b: seq<ListHead>)
    requires a != [] && b != []
    reads g.all, Infos(g.all)
  {
    Leq(g.o, At(Records(g.all), a[0]), At(Records(g.all), b[0]))
  }

  ghost predicate AllCompared(g: Job)
    reads g.all, Infos(g.all)
  {
    AllFixed(g.o, Records(g.all), g.a0) && AllFixed(g.o, Records(g.all), g.b0)
  }

  method EmitP(ghost g: Job, list0: ListHead?, tail0: ListHead?, ghost m: seq<ListHead>,
               p0: ListHead?, ghost a: seq<ListHead>, ghost q: ListHead?, ghost b: seq<ListHead>)
      returns (list: ListHead?, tail: ListHead?, p: ListHead?)
    requires State(g, list0, tail0, m, p0, a, q, b) && a != []
    requires b == [] || (AllCompared(g) && LeftFirst(g, a, b))
    modifies g.all`next
    ensures State(g, list, tail, m + [a[0]], p, a[1..], q, b)
  {
    OrderedLeft(g, Records(g.all), m, a, b);
    hide Ordered, Places, Infos, AllCompared, LeftFirst;
    list, tail, p := MoveP(g, list0, tail0, m, p0, a, q, b);
  }

  method MoveP(ghost g: Job, list0: ListHead?, tail0: ListHead?, ghost m: seq<ListHead>,
               p0: ListHead?, ghost a: seq<ListHead>, ghost q: ListHead?, ghost b: seq<ListHead>)
      returns (list: ListHead?, tail: ListHead?, p: ListHead?)
    requires Places(g, list0, tail0, m, p0, a, q, b) && a != []
    modifies g.all`next
    ensures Places(g, list, tail, m + [a[0]], p, a[1..], q, b) && Records(g.all) == old(Records(g.all))
  {
    hide Shape, Records, Infos;
    assert g.out + m + [a[0]] == g.out + (m + [a[0]]);
    Heads(g, list0, tail0, m, p0, a, q, b);
    list, tail, p := TakeP(list0, tail0, p0, g.out + m, a, q, b + g.rest, g.all);
  }

  lemma OrderedLeft(g: Job, rec: Snapshot, m: seq<ListHead>, a: seq<ListHead>, b: seq<ListHead>)
    requires Ordered(g, rec, m, a, b) && a != []
    requires b == [] || (AllFixed(g.o, rec, g.a0) && AllFixed(g.o, rec, g.b0) && Leq(g.o, At(rec, a[0]), At(rec, b[0])))
    ensures Ordered(g, rec, m + [a[0]], a[1..], b)
  {
    hide Merging, Run, AllFixed;
    StepLeft(g.o, g.rec0, rec, g.a0, g.b0, m, a, b);
  }

  lemma OrderedRight(g: Job, rec: Snapshot, m: seq<ListHead>, a: seq<ListHead>, b: seq<ListHead>)
    requires Ordered(g, rec, m, a, b) && b != []
    requires a == [] || (AllFixed(g.o, rec, g.a0) && AllFixed(g.o, rec, g.b0)
        && !Leq(g.o, At(rec, a[0]), At(rec, b[0])))
    ensures Ordered(g, rec, m + [b[0]], a, b[1..])
  {
    hide Merging, Run, AllFixed;
    StepRight(g.o, g.rec0, rec, g.a0, g.b0, m, a, b);
  }

  method EmitQ(ghost g: Job, list0: ListHead?, tail0: ListHead?, ghost m: seq<ListHead>,
               ghost p: ListHead?, ghost a: seq<ListHead>, q0: ListHead?, ghost b: seq<ListHead>)
      returns (list: ListHead?, tail: ListHead?, q: ListHead?)
    requires State(g, list0, tail0, m, p, a, q0, b) && b != []
    requires a == [] || (AllCompared(g) && !LeftFirst(g, a, b))
    modifies g.all`next
    ensures State(g, list, tail, m + [b[0]], p, a, q, b[1..])
    ensures q == null <==> b[1..] + g.rest == []
  {
    OrderedRight(g, Records(g.all), m, a, b);
    hide Ordered, Places, Infos, AllCompared, LeftFirst;
    list, tail, q := MoveQ(g, list0, tail0, m, p, a, q0, b);
    Heads(g, list, tail, m + [b[0]], p, a, q, b[1..]);
  }

  method MoveQ(ghost g: Job, list0: ListHead?, tail0: ListHead?, ghost m: seq<ListHead>,
               ghost p: ListHead?, ghost a: seq<ListHead>, q0: ListHead?, ghost b: seq<ListHead>)
      returns (list: ListHead?, tail: ListHead?, q: ListHead?)
    requires Places(g, list0, tail0, m, p, a, q0, b) && b != []
    modifies g.all`next
    ensures Places(g, list, tail, m + [b[0]], p, a, q, b[1..]) && Records(g.all) == old(Records(g.all))
  {
    hide Shape, Records, Infos;
    assert g.out + m + [b[0]] == g.out + (m + [b[0]]);
    assert (b + g.rest)[1..] == b[1..] + g.rest && (b + g.rest)[0] == b[0];
    Heads(g, list0, tail0, m, p, a, q0, b);
    ShapeQ(list0, tail0, g.out + m, p, a, q0, b + g.rest);
    list, tail, q := TakeQ(list0, tail0, q0, g.out + m, p, a, b + g.rest, g.all);
  }

  lemma ShapeQ(list: ListHead?, tail: ListHead?, out: seq<ListHead>,
               p: ListHead?, a: seq<ListHead>, q: ListHead?, chain: seq<ListHead>)
    requires Shape(list, tail, out, p, a, q, chain)
    ensures q == null <==> chain == []
  {
  }

  lemma OrderedCompared(g: Job, r0: Snapshot, r1: Snapshot, m: seq<ListHead>, a: seq<ListHead>, b: seq<ListHead>)
    requires Ordered(g, r0, m, a, b) && a != [] && b != []
    requires EvolvesAll(g.o, r0, r1) && Fixed(g.o, At(r1, a[0])) && Fixed(g.o, At(r1, b[0]))
    ensures Ordered(g, r1, m, a, b) && AllFixed(g.o, r1, g.a0) && AllFixed(g.o, r1, g.b0)
  {
    hide Merging, Run, AllFixed, EvolvesAll;
    Compared(g.o, g.rec0, r0, r1, g.pos, g.a0, g.b0, m, a, b);
  }

  // Whether p gives the next node, by the run lengths and else by a comparison
  method FromP(ghost g: Job, cmp: Comparator, res: Results?, ghost list: ListHead?, ghost tail: ListHead?,
               ghost m: seq<ListHead>,
               p: ListHead?, psize: nat, ghost a: seq<ListHead>, q: ListHead?, qsize: nat, ghost b: seq<ListHead>)
      returns (left: bool)
    requires g.o == Order(cmp, res) && Usable(g.o) && State(g, list, tail, m, p, a, q, b)
    requires psize == |a| && |b| <= qsize && (|b| < qsize ==> g.rest == [])
    requires psize > 0 || (qsize > 0 && q != null)
    modifies Infos(g.all)`data16, Scratch(res)`calls, Scratch(res)`crc, Scratch(res)`crcstate, Scratch(res)`crcmatrix
    ensures State(g, list, tail, m, p, a, q, b)
    ensures if left then a != [] else b != []
    ensures a == [] || b == [] || (AllCompared(g) && left == LeftFirst(g, a, b))
  {
    Heads(g, list, tail, m, p, a, q, b);
    hide Places, Ordered, Infos, AllCompared, LeftFirst, Usable;
    if psize == 0 {
      return false;
    } else if qsize == 0 || q == null {
      NoSecond(g, list, tail, m, p, a, q, b, qsize);
      return true;
    }
    left := CompareHeads(g, cmp, res, list, tail, m, p, a, q, b);
  }

  method CompareHeads(ghost g: Job, cmp: Comparator, res: Results?, ghost list: ListHead?, ghost tail: ListHead?,
                      ghost m: seq<ListHead>,
                      p: ListHead, ghost a: seq<ListHead>, q: ListHead, ghost b: seq<ListHead>)
      returns (left: bool)
    requires g.o == Order(cmp, res) && Usable(g.o) && State(g, list, tail, m, p, a, q, b)
    requires a != [] && b != [] && p == a[0] && q == b[0] && p in g.all && q in g.all
    modifies Infos(g.all)`data16, Scratch(res)`calls, Scratch(res)`crc, Scratch(res)`crcstate, Scratch(res)`crcmatrix
    ensures State(g, list, tail, m, p, a, q, b) && AllCompared(g) && left == LeftFirst(g, a, b)
  {
    hide Places, Ordered, EvolvesAll, AllFixed, Leq, Fixed, At, Shape, Usable, Infos, Records;
    ghost var rec := Records(g.all);
    var c := CompareNodes(cmp, p, q, res, g.all);
    OrderedCompared(g, rec, Records(g.all), m, a, b);
    left := c <= 0;
  }

  lemma NoSecond(g: Job, list: ListHead?, tail: ListHead?, m: seq<ListHead>,
                 p: ListHead?, a: seq<ListHead>, q: ListHead?, b: seq<ListHead>, qsize: nat)
    requires Places(g, list, tail, m, p, a, q, b) && |b| <= qsize && (qsize == 0 || q == null)
    ensures b == []
  {
  }

  method MergeLoop(ghost g: Job, list0: ListHead?, tail0: ListHead?, p0: ListHead, psize0: nat, q0: ListHead?,
                   insize: nat,
                   cmp: Comparator, res: Results?)
      returns (list: ListHead?, tail: ListHead?, p: ListHead?, q: ListHead?, ghost m: seq<ListHead>)
    requires g.o == Order(cmp, res) && Usable(g.o)
    requires psize0 == |g.a0| && |g.b0| <= insize && (|g.b0| < insize ==> g.rest == [])
    requires State(g, list0, tail0, [], p0, g.a0, q0, g.b0)
    requires q0 == null <==> g.b0 + g.rest == []
    modifies g.all`next, Infos(g.all)`data16, Scratch(res)`calls, Scratch(res)`crc, Scratch(res)`crcstate,
        Scratch(res)`crcmatrix
    ensures State(g, list, tail, m, p, [], q, [])
  {
    hide *;
    ghost var a, b := g.a0, g.b0;
    m := [];
    p := p0;
    var psize, qsize := psize0, insize;
    list, tail, q := list0, tail0, q0;
    while psize > 0 || (qsize > 0 && q != null)
      invariant psize == |a| && |b| <= qsize && (|b| < qsize ==> g.rest == [])
      invariant State(g, list, tail, m, p, a, q, b)
      invariant q == null <==> b + g.rest == []
      decreases psize + |b|
    {
      var left := FromP(g, cmp, res, list, tail, m, p, psize, a, q, qsize, b);
      if left {
        list, tail, p := EmitP(g, list, tail, m, p, a, q, b);
        psize := psize - 1;
        m, a := m + [a[0]], a[1..];
      } else {
        list, tail, q := EmitQ(g, list, tail, m, p, a, q, b);
        qsize := qsize - 1;
        m, b := m + [b[0]], b[1..];
      }
    }
    assert a == [] && b == [];
  }

  lemma EvolvesNot(o: Order, rec: Snapshot)
    ensures EvolvesAll(o, rec, rec)
  {
  }

  method MergeRuns(list0: ListHead?, tail0: ListHead?, p0: ListHead, psize0: nat, q0: ListHead?, insize: nat,
                   cmp: Comparator, res: Results?, ghost all: set<ListHead>, ghost pos: Positions,
                   ghost out: seq<ListHead>, ghost a0: seq<ListHead>, ghost b0: seq<ListHead>,
                   ghost rest: seq<ListHead>)
      returns (list: ListHead?, tail: ListHead?, q: ListHead?, ghost m: seq<ListHead>)
    requires Usable(Order(cmp, res))
    requires psize0 == |a0| > 0 && |b0| <= insize && (|b0| < insize ==> rest == [])
    requires Shape(list0, tail0, out, p0, a0, q0, b0 + rest)
    requires Within(all, out) && Within(all, a0) && Within(all, b0 + rest)
    requires Run(Order(cmp, res), Records(all), pos, a0)
    requires Run(Order(cmp, res), Records(all), pos, b0)
    requires Below(pos, a0, b0)
    modifies all`next, Infos(all)`data16, Scratch(res)`calls, Scratch(res)`crc, Scratch(res)`crcstate,
        Scratch(res)`crcmatrix
    ensures Shape(list, tail, out + m, null, [], q, rest)
    ensures Within(all, out + m) && Within(all, rest)
    ensures multiset(m) == multiset(a0) + multiset(b0) && |m| == |a0| + |b0|
    ensures EvolvesAll(Order(cmp, res), old(Records(all)), Records(all))
    ensures Run(Order(cmp, res), Records(all), pos, m)
  {
    ghost var g := Job(Order(cmp, res), all, pos, Records(all), out, a0, b0, rest);
    JobBegins(g, list0, tail0, p0, q0);
    hide *;
    var p;
    list, tail, p, q, m := MergeLoop(g, list0, tail0, p0, psize0, q0, insize, cmp, res);
    JobEnds(g, Records(all), list, tail, m, p, q);
  }

  lemma JobBegins(g: Job, list: ListHead?, tail: ListHead?, p: ListHead?, q: ListHead?)
    requires Within(g.all, g.out) && Within(g.all, g.a0) && Within(g.all, g.b0 + g.rest)
    requires Shape(list, tail, g.out, p, g.a0, q, g.b0 + g.rest) && g.rec0 == Records(g.all)
    requires g.a0 != [] && Run(g.o, g.rec0, g.pos, g.a0) && Run(g.o, g.rec0, g.pos, g.b0)
    ensures State(g, list, tail, [], p, g.a0, q, g.b0)
    ensures q == null <==> g.b0 + g.rest == []
  {
    hide Shape, Run, Merged, EvolvesAll;
    EvolvesNot(g.o, g.rec0);
    ShapeQ(list, tail, g.out, p, g.a0, q, g.b0 + g.rest);
    assert g.out + [] == g.out && [] + Merged(g.o, g.rec0, g.a0, g.b0) == Merged(g.o, g.rec0, g.a0, g.b0);
  }

  lemma JobEnds(g: Job, rec: Snapshot, list: ListHead?, tail: ListHead?, m: seq<ListHead>, p: ListHead?, q: ListHead?)
    requires Places(g, list, tail, m, p, [], q, []) && Ordered(g, rec, m, [], [])
    requires Usable(g.o) && Below(g.pos, g.a0, g.b0)
    ensures Shape(list, tail, g.out + m, null, [], q, g.rest) && Within(g.all, g.out + m) && Within(g.all, g.rest)
    ensures multiset(m) == multiset(g.a0) + multiset(g.b0) && |m| == |g.a0| + |g.b0|
    ensures EvolvesAll(g.o, g.rec0, rec) && Run(g.o, rec, g.pos, m)
  {
    hide Run, EvolvesAll, Below, Usable, Merged;
    assert [] + g.rest == g.rest;
    Finished(g.o, g.rec0, rec, g.pos, g.a0, g.b0, m);
  }

  // The two runs at the front of r, and what follows them
  ghost function FirstRun(r: seq<ListHead>, w: nat): seq<ListHead> { r[..Min(w, |r|)] }
  ghost function AfterRun(r: seq<ListHead>, w: nat): seq<ListHead> { r[Min(w, |r|)..] }

  // Walk over the first run
  method StepPlaces(p: ListHead, insize: nat, ghost r: seq<ListHead>) returns (q: ListHead?, psize: nat)
    requires IsList(p, r) && insize > 0
    ensures psize == |FirstRun(r, insize)| && IsList(q, AfterRun(r, insize))
  {
    q := p;
    psize := 0;
    for i := 0 to insize
      invariant psize == i < |r| || (psize == i == insize <= |r|)
      invariant q == if i < |r| then r[i] else null
    {
      assert i < |r| - 1 ==> r[i].next == r[i + 1];
      psize := psize + 1;
      q := q.next;
      if q == null {
        break;
      }
    }
    assert psize < |r| ==> r[psize..][0] == q;
  }

  ghost predicate PassState(o: Order, all: set<ListHead>, pos: Positions, insize: nat, s: seq<ListHead>,
                            list: ListHead?,
                            tail: ListHead?, out: seq<ListHead>, p: ListHead?, r: seq<ListHead>, nmerges: nat)
    requires insize > 0
    reads all, Infos(all)
  {
    && (forall n | n in out + r :: n in all)
    && Shape(list, tail, out, null, [], p, r)
    && Passing(o, Records(all), pos, insize, s, out, r, nmerges)
  }

  lemma CutShape(list: ListHead?, tail: ListHead?, out: seq<ListHead>, p: ListHead?, r: seq<ListHead>, w: nat,
                 q: ListHead?)
    requires Shape(list, tail, out, null, [], p, r) && IsList(q, AfterRun(r, w))
    ensures Shape(list, tail, out, p, FirstRun(r, w), q, AfterRun(r, w))
  {
  }

  lemma CutRuns(o: Order, rec: Snapshot, pos: Positions, r: seq<ListHead>, w: nat)
    requires w > 0 && r != [] && Runs(o, rec, pos, r, w)
    ensures var a, b, rest := FirstRun(r, w), FirstRun(AfterRun(r, w), w), AfterRun(AfterRun(r, w), w);
      && a + (b + rest) == r && AfterRun(r, w) == b + rest
      && a != [] && |a| <= w && |b| <= w && (rest != [] ==> |a| == |b| == w) && (|b| < w ==> rest == [])
      && Run(o, rec, pos, a) && Run(o, rec, pos, b) && Runs(o, rec, pos, rest, w)
      && Below(pos, a, b + rest) && Below(pos, a, b) && Below(pos, b, rest)
  {
    hide Run, Runs, Below;
    SplitRuns(o, rec, pos, r, w, Min(w, |r|));
    var r1 := AfterRun(r, w);
    SplitRuns(o, rec, pos, r1, w, Min(w, |r1|));
    assert FirstRun(r1, w) + AfterRun(r1, w) == r1;
    BelowPrefix(pos, FirstRun(r, w), FirstRun(r1, w), AfterRun(r1, w));
  }

  lemma BelowPrefix(pos: Positions, a: seq<ListHead>, b: seq<ListHead>, c: seq<ListHead>)
    requires Below(pos, a, b + c)
    ensures Below(pos, a, b)
  {
  }

  // Merge the two runs that start at p
  method MergeNext(list0: ListHead?, tail0: ListHead?, p0: ListHead, insize: nat, cmp: Comparator, res: Results?,
                   ghost all: set<ListHead>, ghost pos: Positions, ghost s: seq<ListHead>,
                   ghost out0: seq<ListHead>, ghost r0: seq<ListHead>, ghost nmerges: nat)
      returns (list: ListHead?, tail: ListHead?, p: ListHead?, ghost out: seq<ListHead>, ghost r: seq<ListHead>)
    requires Usable(Order(cmp, res)) && insize > 0
    requires PassState(Order(cmp, res), all, pos, insize, s, list0, tail0, out0, p0, r0, nmerges)
    modifies all`next, Infos(all)`data16, Scratch(res)`calls, Scratch(res)`crc, Scratch(res)`crcstate,
        Scratch(res)`crcmatrix
    ensures PassState(Order(cmp, res), all, pos, insize, s, list, tail, out, p, r, nmerges + 1)
    ensures EvolvesAll(Order(cmp, res), old(Records(all)), Records(all))
    ensures |r| < |r0|
  {
    hide Run, Runs, FullRuns, EvolvesAll, FirstRun, AfterRun, Below, Linked, Distinct, Apart, Built;
    ghost var o, rec := Order(cmp, res), Records(all);
    var q, psize := StepPlaces(p0, insize, r0);
    ghost var a, b, rest := FirstRun(r0, insize), FirstRun(AfterRun(r0, insize), insize),
        AfterRun(AfterRun(r0, insize), insize);
    CutRuns(o, rec, pos, r0, insize);
    CutShape(list0, tail0, out0, p0, r0, insize, q);
    ghost var m;
    list, tail, p, m := MergeRuns(list0, tail0, p0, psize, q, insize, cmp, res, all, pos, out0, a, b, rest);
    PassStep(o, rec, Records(all), pos, insize, s, out0, nmerges, a, b, rest, m);
    out, r := out0 + m, rest;
  }

  lemma PassStart(o: Order, all: set<ListHead>, pos: Positions, insize: nat, s: seq<ListHead>, list: ListHead?)
    requires insize > 0 && IsList(list, s) && (forall n | n in s :: n in all)
    requires Runs(o, Records(all), pos, s, insize)
    ensures PassState(o, all, pos, insize, s, null, null, [], list, s, 0)
    ensures EvolvesAll(o, Records(all), Records(all))
  {
    assert [] + s == s;
  }

  lemma EvolvesTwice(o: Order, r0: Snapshot, r1: Snapshot, r2: Snapshot)
    requires EvolvesAll(o, r0, r1) && EvolvesAll(o, r1, r2)
    ensures EvolvesAll(o, r0, r2)
  {
  }

  // The end of a pass: close the merged list
  method Terminate(ghost o: Order, ghost all: set<ListHead>, ghost pos: Positions, ghost insize: nat,
                   ghost s: seq<ListHead>,
                   list0: ListHead?, tail: ListHead?, ghost out: seq<ListHead>, ghost r: seq<ListHead>,
                   ghost nmerges: nat)
      returns (list: ListHead)
    requires insize > 0 && s != [] && PassState(o, all, pos, insize, s, list0, tail, out, null, r, nmerges)
    modifies all`next
    ensures IsList(list, out) && nmerges > 0 && (forall n | n in out :: n in all)
    ensures Passing(o, Records(all), pos, insize, s, out, [], nmerges)
    ensures Records(all) == old(Records(all))
  {
    hide Runs, FullRuns, Below, Linked, Distinct;
    assert s[0] in multiset(s);
    list := Close(list0, tail, out, all);
  }

  // One pass: merge the runs of length insize two by two
  method Pass(list0: ListHead, insize: nat, cmp: Comparator, res: Results?,
              ghost all: set<ListHead>, ghost pos: Positions, ghost s: seq<ListHead>)
      returns (list: ListHead, nmerges: nat, ghost out: seq<ListHead>)
    requires Usable(Order(cmp, res)) && insize > 0
    requires IsList(list0, s) && s != [] && (forall n | n in s :: n in all)
    requires Runs(Order(cmp, res), Records(all), pos, s, insize)
    modifies all`next, Infos(all)`data16, Scratch(res)`calls, Scratch(res)`crc, Scratch(res)`crcstate,
        Scratch(res)`crcmatrix
    ensures IsList(list, out) && nmerges > 0 && (forall n | n in out :: n in all)
    ensures Passing(Order(cmp, res), Records(all), pos, insize, s, out, [], nmerges)
    ensures EvolvesAll(Order(cmp, res), old(Records(all)), Records(all))
  {
    hide *;
    ghost var o := Order(cmp, res);
    var p: ListHead? := list0;
    var l: ListHead?, tail: ListHead? := null, null;
    out, nmerges := [], 0;
    ghost var r := s;
    PassStart(o, all, pos, insize, s, list0);
    while p != null
      invariant PassState(o, all, pos, insize, s, l, tail, out, p, r, nmerges)
      invariant EvolvesAll(o, old(Records(all)), Records(all))
      decreases |r|
    {
      nmerges := nmerges + 1;
      ghost var rec := Records(all);
      l, tail, p, out, r := MergeNext(l, tail, p, insize, cmp, res, all, pos, s, out, r, nmerges - 1);
      EvolvesTwice(o, old(Records(all)), rec, Records(all));
    }
    list := Terminate(o, all, pos, insize, s, l, tail, out, r, nmerges);
  }

  // The place of every node in the list
  ghost predicate Numbers(pos: Positions, s: seq<ListHead>) {
    forall i | 0 <= i < |s| :: Place(pos, s[i]) == i
  }

  lemma {:induction false} SinglesAreRuns(o: Order, rec: Snapshot, pos: Positions, s: seq<ListHead>)
    requires forall i, j | 0 <= i < j < |s| :: Place(pos, s[i]) < Place(pos, s[j])
    ensures Runs(o, rec, pos, s, 1)
  {
    if |s| > 1 {
      SinglesAreRuns(o, rec, pos, s[1..]);
    }
  }

  // sorted, equivalent nodes in their old order
  ghost predicate StablySorted(o: Order, rec: Snapshot, nodes: seq<ListHead>, out: seq<ListHead>) {
    && multiset(out) == multiset(nodes)
    && (forall i, j | 0 <= i < j < |out| :: Leq(o, At(rec, out[i]), At(rec, out[j])))
    && (forall i, j, k, l | 0 <= i < j < |out| && 0 <= k < |nodes| && 0 <= l < |nodes| &&
          nodes[k] == out[i] && nodes[l] == out[j] && Leq(o, At(rec, out[j]), At(rec, out[i])) :: k < l)
  }

  // Every x in s comes before every y
  ghost predicate Earlier<T>(s: seq<T>, x: T, y: T) {
    forall k, l | 0 <= k < |s| && 0 <= l < |s| && s[k] == x && s[l] == y :: k < l
  }

  // The two orders of the benchmark, as a reader finds them in the list: by the low seven bits of the
  // datum, and by the index. What is equal keeps its old order.

  ghost predicate SortedByData(rec: Snapshot, nodes: seq<ListHead>, out: seq<ListHead>) {
    && multiset(out) == multiset(nodes)
    && forall i, j | 0 <= i < j < |out| ::
      && At(rec, out[i]).data16 % 128 <= At(rec, out[j]).data16 % 128
      && (At(rec, out[i]).data16 % 128 == At(rec, out[j]).data16 % 128 ==> Earlier(nodes, out[i], out[j]))
  }

  ghost predicate SortedByIndex(rec: Snapshot, nodes: seq<ListHead>, out: seq<ListHead>) {
    && multiset(out) == multiset(nodes)
    && forall i, j | 0 <= i < j < |out| ::
      && At(rec, out[i]).idx <= At(rec, out[j]).idx
      && (At(rec, out[i]).idx == At(rec, out[j]).idx ==> Earlier(nodes, out[i], out[j]))
  }

  lemma StableOrders(o: Order, rec: Snapshot, nodes: seq<ListHead>, out: seq<ListHead>)
    requires StablySorted(o, rec, nodes, out)
    ensures o.cmp.CmpComplex? ==> SortedByData(rec, nodes, out)
    ensures o.cmp.CmpIdx? ==> SortedByIndex(rec, nodes, out)
  {
    forall i, j | 0 <= i < j < |out|
      ensures Leq(o, At(rec, out[i]), At(rec, out[j]))
      ensures Leq(o, At(rec, out[j]), At(rec, out[i])) ==> Earlier(nodes, out[i], out[j])
    {
    }
  }

  lemma RunIsStablySorted(o: Order, rec: Snapshot, pos: Positions, nodes: seq<ListHead>, out: seq<ListHead>)
    requires Numbers(pos, nodes) && multiset(out) == multiset(nodes) && Run(o, rec, pos, out)
    ensures StablySorted(o, rec, nodes, out)
  {
  }

  ghost function Numbering(nodes: seq<ListHead>): (pos: Positions)
    ensures Distinct(nodes) ==> Numbers(pos, nodes)
  {
    map n | n in nodes :: var i :| 0 <= i < |nodes| && nodes[i] == n; i
  }

  ghost function Nodes(s: seq<ListHead>): set<ListHead> { set n | n in s }

  // The state between two passes
  ghost predicate Sorting(o: Order, pos: Positions, nodes: seq<ListHead>, list: ListHead?, s: seq<ListHead>,
                          insize: nat)
    reads nodes, s, Infos(Nodes(nodes))
  {
    && insize > 0 && IsList(list, s) && s != []
    && Nodes(s) <= Nodes(nodes)
    && multiset(s) == multiset(nodes)
    && Numbers(pos, nodes)
    && Runs(o, Records(Nodes(nodes)), pos, s, insize)
  }

  lemma BeforePasses(o: Order, nodes: seq<ListHead>, list: ListHead)
    requires IsList(list, nodes)
    ensures Sorting(o, Numbering(nodes), nodes, list, nodes, 1)
    ensures EvolvesAll(o, Records(Nodes(nodes)), Records(Nodes(nodes)))
  {
    SinglesAreRuns(o, Records(Nodes(nodes)), Numbering(nodes), nodes);
  }

  lemma AfterPass(o: Order, rec: Snapshot, pos: Positions, nodes: seq<ListHead>, s: seq<ListHead>, out: seq<ListHead>,
                  w: nat, nmerges: nat)
    requires w > 0 && nmerges > 0 && Passing(o, rec, pos, w, s, out, [], nmerges)
    requires multiset(s) == multiset(nodes) && Numbers(pos, nodes)
    ensures multiset(out) == multiset(nodes) && |out| == |nodes|
    ensures nmerges <= 1 ==> StablySorted(o, rec, nodes, out) && (|nodes| >= 2 ==> AllFixed(o, rec, nodes))
    ensures nmerges > 1 ==> Runs(o, rec, pos, out, 2 * w) && |out| > 2 * w
  {
    assert multiset(out) + multiset([]) == multiset(out);
    assert |out| == |multiset(out)| == |multiset(nodes)| == |nodes|;
    if nmerges <= 1 {
      RunIsStablySorted(o, rec, pos, nodes, out);
      assert forall n | n in nodes :: n in multiset(out);
    }
  }

  method Mergesort(list0: ListHead, cmp: Comparator, res: Results?, ghost nodes: seq<ListHead>)
      returns (list: ListHead, ghost out: seq<ListHead>)
    requires Usable(Order(cmp, res)) && IsList(list0, nodes)
    modifies Nodes(nodes)`next, Infos(Nodes(nodes))`data16, Scratch(res)`calls, Scratch(res)`crc,
        Scratch(res)`crcstate, Scratch(res)`crcmatrix
    ensures IsList(list, out)
    ensures StablySorted(Order(cmp, res), Records(Nodes(nodes)), nodes, out)
    ensures cmp.CmpComplex? ==> SortedByData(Records(Nodes(nodes)), nodes, out)
    ensures cmp.CmpIdx? ==> SortedByIndex(Records(Nodes(nodes)), nodes, out)
    ensures EvolvesAll(Order(cmp, res), old(Records(Nodes(nodes))), Records(Nodes(nodes)))
    ensures |nodes| >= 2 ==> AllFixed(Order(cmp, res), Records(Nodes(nodes)), nodes)
  {
    hide Runs, Passing, StablySorted, SortedByData, SortedByIndex, AllFixed, Numbers, Linked, Distinct, EvolvesAll,
      Numbering, Records;
    ghost var o, all := Order(cmp, res), Nodes(nodes);
    ghost var pos := Numbering(nodes);
    list, out := list0, nodes;
    var insize := 1;
    BeforePasses(o, nodes, list0);
    while true
      invariant insize == 1 || insize < |nodes|
      invariant Sorting(o, pos, nodes, list, out, insize)
      invariant EvolvesAll(o, old(Records(all)), Records(all))
      decreases |nodes| - insize
    {
      ghost var rec, s := Records(all), out;
      var nmerges;
      list, nmerges, out := Pass(list, insize, cmp, res, all, pos, s);
      EvolvesTwice(o, old(Records(all)), rec, Records(all));
      AfterPass(o, Records(all), pos, nodes, s, out, insize, nmerges);
      if nmerges <= 1 {
        StableOrders(o, Records(all), nodes, out);
        return;
      }
      insize := insize * 2;
    }
  }
}
