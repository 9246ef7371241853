// What core_list_mergesort makes of its runs, on values: sequences of list nodes under a snapshot
// of the records they point to.
module MergeOrder {
  import opened CoreList

  type Snapshot = map<ListHead, Record>
  type Positions = map<ListHead, int>

  ghost function At(rec: Snapshot, n: ListHead): Record {
    if n in rec then rec[n] else Record(0, 0)
  }

  ghost function Place(pos: Positions, n: ListHead): int {
    if n in pos then pos[n] else 0
  }

  // a stands before b: strictly lower, or equivalent and earlier in the original list
  ghost predicate Before(o: Order, rec: Snapshot, pos: Positions, a: ListHead, b: ListHead) {
    && Leq(o, At(rec, a), At(rec, b))
    && (Leq(o, At(rec, b), At(rec, a)) ==> Place(pos, a) < Place(pos, b))
  }

  ghost predicate Sorted(o: Order, rec: Snapshot, pos: Positions, s: seq<ListHead>) {
    forall i, j | 0 <= i < j < |s| :: Before(o, rec, pos, s[i], s[j])
  }

  ghost predicate AllFixed(o: Order, rec: Snapshot, s: seq<ListHead>) {
    forall n | n in s :: Fixed(o, At(rec, n))
  }

  // A run is sorted, and every node of it has been compared unless it is alone
  ghost predicate Run(o: Order, rec: Snapshot, pos: Positions, s: seq<ListHead>) {
    Sorted(o, rec, pos, s) && (|s| >= 2 ==> AllFixed(o, rec, s))
  }

  // Every node of a was before every node of b in the original list
  ghost predicate Below(pos: Positions, a: seq<ListHead>, b: seq<ListHead>) {
    forall x, y | x in a && y in b :: Place(pos, x) < Place(pos, y)
  }

  // s is cut into runs of length w, the last of which may be shorter
  ghost predicate Runs(o: Order, rec: Snapshot, pos: Positions, s: seq<ListHead>, w: nat)
    requires w > 0
  {
    if |s| <= w then Run(o, rec, pos, s)
    else Run(o, rec, pos, s[..w]) && Below(pos, s[..w], s[w..]) && Runs(o, rec, pos, s[w..], w)
  }

  // s is cut into runs of length w
  ghost predicate FullRuns(o: Order, rec: Snapshot, pos: Positions, s: seq<ListHead>, w: nat)
    requires w > 0
  {
    s == [] || (
      && w <= |s|
      && Run(o, rec, pos, s[..w])
      && Below(pos, s[..w], s[w..])
      && FullRuns(o, rec, pos, s[w..], w))
  }

  ghost predicate EvolvesAll(o: Order, r0: Snapshot, r1: Snapshot) {
    r1.Keys == r0.Keys && forall n | n in r0 :: Evolves(o, r0[n], r1[n])
  }

  lemma LeqTotal(o: Order, a: Record, b: Record)
    requires Usable(o)
    ensures Leq(o, a, b) || Leq(o, b, a)
  {
  }

  lemma LeqTransitive(o: Order, a: Record, b: Record, c: Record)
    requires Usable(o) && Leq(o, a, b) && Leq(o, b, c)
    ensures Leq(o, a, c)
  {
  }

  // Comparisons do not disturb a run: only the key of a node standing alone may still change
  lemma RunEvolves(o: Order, r0: Snapshot, r1: Snapshot, pos: Positions, s: seq<ListHead>)
    requires EvolvesAll(o, r0, r1) && Run(o, r0, pos, s)
    ensures Run(o, r1, pos, s)
  {
    if |s| >= 2 {
      assert forall i | 0 <= i < |s| :: s[i] in s && At(r1, s[i]) == At(r0, s[i]);
    }
  }

  lemma {:induction false} RunsEvolve(o: Order, r0: Snapshot, r1: Snapshot, pos: Positions, s: seq<ListHead>, w: nat)
    requires EvolvesAll(o, r0, r1) && w > 0 && Runs(o, r0, pos, s, w)
    ensures Runs(o, r1, pos, s, w)
  {
    if |s| <= w {
      RunEvolves(o, r0, r1, pos, s);
    } else {
      RunEvolves(o, r0, r1, pos, s[..w]);
      RunsEvolve(o, r0, r1, pos, s[w..], w);
    }
  }

  lemma {:induction false} FullRunsEvolve(o: Order, r0: Snapshot, r1: Snapshot, pos: Positions, s: seq<ListHead>,
                                          w: nat)
    requires EvolvesAll(o, r0, r1) && w > 0 && FullRuns(o, r0, pos, s, w)
    ensures FullRuns(o, r1, pos, s, w)
  {
    if s != [] {
      RunEvolves(o, r0, r1, pos, s[..w]);
      FullRunsEvolve(o, r0, r1, pos, s[w..], w);
    }
  }

  lemma {:induction false} AppendRun(o: Order, rec: Snapshot, pos: Positions, s: seq<ListHead>, m: seq<ListHead>,
                                     w: nat)
    requires w > 0 && FullRuns(o, rec, pos, s, w) && Run(o, rec, pos, m) && 0 < |m| <= w && Below(pos, s, m)
    ensures Runs(o, rec, pos, s + m, w)
    ensures |m| == w ==> FullRuns(o, rec, pos, s + m, w)
  {
    if s == [] {
      assert s + m == m && m[..|m|] == m;
      assert |m| == w ==> m[w..] == [];
    } else {
      assert (s + m)[..w] == s[..w] && (s + m)[w..] == s[w..] + m;
      AppendRun(o, rec, pos, s[w..], m, w);
    }
  }

  // Two runs merged; the first gives way only to what is strictly lower
  ghost function Merged(o: Order, rec: Snapshot, a: seq<ListHead>, b: seq<ListHead>): seq<ListHead> {
    if a == [] then b
    else if b == [] then a
    else if Leq(o, At(rec, a[0]), At(rec, b[0])) then [a[0]] + Merged(o, rec, a[1..], b)
    else [b[0]] + Merged(o, rec, a, b[1..])
  }

  lemma {:induction false} MergedContents(o: Order, rec: Snapshot, a: seq<ListHead>, b: seq<ListHead>)
    ensures multiset(Merged(o, rec, a, b)) == multiset(a) + multiset(b)
    ensures |Merged(o, rec, a, b)| == |a| + |b|
  {
    if a == [] || b == [] {
    } else if Leq(o, At(rec, a[0]), At(rec, b[0])) {
      MergedContents(o, rec, a[1..], b);
      assert a == [a[0]] + a[1..];
    } else {
      MergedContents(o, rec, a, b[1..]);
      assert b == [b[0]] + b[1..];
    }
  }

  lemma BeforeRest(o: Order, rec: Snapshot, pos: Positions, x: ListHead, b: seq<ListHead>)
    requires Usable(o) && Sorted(o, rec, pos, b) && b != []
    requires Before(o, rec, pos, x, b[0])
    ensures forall y | y in b :: Before(o, rec, pos, x, y)
  {
    forall y | y in b
      ensures Before(o, rec, pos, x, y)
    {
      var k :| 0 <= k < |b| && b[k] == y;
      if k > 0 {
        assert Before(o, rec, pos, b[0], b[k]);
        LeqTransitive(o, At(rec, x), At(rec, b[0]), At(rec, b[k]));
        if Leq(o, At(rec, b[k]), At(rec, x)) {
          LeqTransitive(o, At(rec, b[k]), At(rec, x), At(rec, b[0]));
          LeqTransitive(o, At(rec, b[0]), At(rec, b[k]), At(rec, x));
        }
      }
    }
  }

  lemma SortedCons(o: Order, rec: Snapshot, pos: Positions, x: ListHead, s: seq<ListHead>)
    requires Sorted(o, rec, pos, s) && forall y | y in s :: Before(o, rec, pos, x, y)
    ensures Sorted(o, rec, pos, [x] + s)
  {
  }

  lemma {:induction false} MergedSorted(o: Order, rec: Snapshot, pos: Positions, a: seq<ListHead>, b: seq<ListHead>)
    requires Usable(o) && Sorted(o, rec, pos, a) && Sorted(o, rec, pos, b) && Below(pos, a, b)
    ensures Sorted(o, rec, pos, Merged(o, rec, a, b))
  {
    if a != [] && b != [] {
      var left := Leq(o, At(rec, a[0]), At(rec, b[0]));
      LeqTotal(o, At(rec, a[0]), At(rec, b[0]));
      var a', b' := if left then a[1..] else a, if left then b else b[1..];
      var x := if left then a[0] else b[0];
      MergedSorted(o, rec, pos, a', b');
      MergedContents(o, rec, a', b');
      assert Merged(o, rec, a, b) == [x] + Merged(o, rec, a', b');
      hide Merged, Leq;
      if left {
        BeforeRest(o, rec, pos, x, b);
      } else {
        BeforeRest(o, rec, pos, x, a);
      }
      forall y | y in Merged(o, rec, a', b')
        ensures Before(o, rec, pos, x, y)
      {
        assert y in multiset(Merged(o, rec, a', b'));
        assert y in a' || y in b';
      }
      SortedCons(o, rec, pos, x, Merged(o, rec, a', b'));
    }
  }

  lemma {:induction false} MergedAgrees(o: Order, r0: Snapshot, r1: Snapshot, a: seq<ListHead>, b: seq<ListHead>)
    requires forall n | n in a || n in b :: At(r1, n) == At(r0, n)
    ensures Merged(o, r0, a, b) == Merged(o, r1, a, b)
  {
    if a != [] && b != [] {
      if Leq(o, At(r0, a[0]), At(r0, b[0])) {
        MergedAgrees(o, r0, r1, a[1..], b);
      } else {
        MergedAgrees(o, r0, r1, a, b[1..]);
      }
    }
  }

  // One merge of the runs a0 and b0 under way: m is merged, a and b remain. Every key is fixed by
  // the first comparison; a run without a partner is copied and not compared.
  ghost predicate Merging(o: Order, rec0: Snapshot, rec: Snapshot, a0: seq<ListHead>, b0: seq<ListHead>,
                          m: seq<ListHead>, a: seq<ListHead>, b: seq<ListHead>) {
    && EvolvesAll(o, rec0, rec)
    && m + Merged(o, rec, a, b) == Merged(o, rec, a0, b0)
    && (forall n | n in a :: n in a0) && (forall n | n in b :: n in b0)
    && (
      || (b0 == [] && rec == rec0)
      || (m == [] && a == a0 && b == b0 && rec == rec0)
      || (AllFixed(o, rec, a0) && AllFixed(o, rec, b0)))
  }

  lemma Compared(o: Order, rec0: Snapshot, r0: Snapshot, r1: Snapshot, pos: Positions, a0: seq<ListHead>,
                 b0: seq<ListHead>,
                 m: seq<ListHead>, a: seq<ListHead>, b: seq<ListHead>)
    requires Merging(o, rec0, r0, a0, b0, m, a, b) && a != [] && b != []
    requires Run(o, rec0, pos, a0) && Run(o, rec0, pos, b0)
    requires EvolvesAll(o, r0, r1) && Fixed(o, At(r1, a[0])) && Fixed(o, At(r1, b[0]))
    ensures Merging(o, rec0, r1, a0, b0, m, a, b)
    ensures AllFixed(o, r1, a0) && AllFixed(o, r1, b0)
  {
    assert b[0] in b0;
    if AllFixed(o, r0, a0) && AllFixed(o, r0, b0) {
      MergedAgrees(o, r0, r1, a0, b0);
      MergedAgrees(o, r0, r1, a, b);
    } else {
      assert |a| < 2 ==> a == [a[0]];
      assert |b| < 2 ==> b == [b[0]];
      assert [] + Merged(o, r1, a, b) == Merged(o, r1, a, b);
    }
  }

  lemma StepLeft(o: Order, rec0: Snapshot, rec: Snapshot, a0: seq<ListHead>, b0: seq<ListHead>,
                 m: seq<ListHead>, a: seq<ListHead>, b: seq<ListHead>)
    requires Merging(o, rec0, rec, a0, b0, m, a, b) && a != []
    requires b == [] || (AllFixed(o, rec, a0) && AllFixed(o, rec, b0) && Leq(o, At(rec, a[0]), At(rec, b[0])))
    ensures Merging(o, rec0, rec, a0, b0, m + [a[0]], a[1..], b)
  {
    assert [a[0]] + a[1..] == a;
    assert m + [a[0]] + Merged(o, rec, a[1..], b) == m + ([a[0]] + Merged(o, rec, a[1..], b));
  }

  lemma StepRight(o: Order, rec0: Snapshot, rec: Snapshot, a0: seq<ListHead>, b0: seq<ListHead>,
                  m: seq<ListHead>, a: seq<ListHead>, b: seq<ListHead>)
    requires Merging(o, rec0, rec, a0, b0, m, a, b) && a0 != [] && b != []
    requires a == [] || (AllFixed(o, rec, a0) && AllFixed(o, rec, b0) && !Leq(o, At(rec, a[0]), At(rec, b[0])))
    ensures Merging(o, rec0, rec, a0, b0, m + [b[0]], a, b[1..])
  {
    assert b[0] in b0;
    assert [b[0]] + b[1..] == b;
    assert m + [b[0]] + Merged(o, rec, a, b[1..]) == m + ([b[0]] + Merged(o, rec, a, b[1..]));
  }

  lemma Finished(o: Order, rec0: Snapshot, rec: Snapshot, pos: Positions, a0: seq<ListHead>, b0: seq<ListHead>,
                 m: seq<ListHead>)
    requires Usable(o) && Merging(o, rec0, rec, a0, b0, m, [], []) && a0 != []
    requires Run(o, rec0, pos, a0) && Run(o, rec0, pos, b0) && Below(pos, a0, b0)
    ensures multiset(m) == multiset(a0) + multiset(b0) && |m| == |a0| + |b0|
    ensures Run(o, rec, pos, m)
  {
    assert m + [] == m;
    MergedContents(o, rec, a0, b0);
    RunEvolves(o, rec0, rec, pos, a0);
    RunEvolves(o, rec0, rec, pos, b0);
    MergedSorted(o, rec, pos, a0, b0);
    forall n | n in m
      ensures n in a0 || n in b0
    {
      assert n in multiset(m);
    }
  }

  // A pass over s under way: out holds finished runs of length 2 * w, r still has runs of length w
  ghost predicate Passing(o: Order, rec: Snapshot, pos: Positions, w: nat, s: seq<ListHead>,
                          out: seq<ListHead>, r: seq<ListHead>, nmerges: nat)
    requires w > 0
  {
    && Runs(o, rec, pos, r, w)
    && (if r == [] && out != [] then Runs(o, rec, pos, out, 2 * w) else FullRuns(o, rec, pos, out, 2 * w))
    && Below(pos, out, r)
    && multiset(out) + multiset(r) == multiset(s)
    && (nmerges == 0 <==> out == [])
    && (nmerges <= 1 <==> |out| <= 2 * w)
  }

  lemma SplitRuns(o: Order, rec: Snapshot, pos: Positions, r: seq<ListHead>, w: nat, k: nat)
    requires w > 0 && Runs(o, rec, pos, r, w) && k <= |r| && (k == w || (k < w && k == |r|))
    ensures Run(o, rec, pos, r[..k]) && Runs(o, rec, pos, r[k..], w) && Below(pos, r[..k], r[k..])
  {
    if |r| <= w {
      assert r[..k] == r && r[k..] == [];
    }
  }

  lemma PassStep(o: Order, rec0: Snapshot, rec: Snapshot, pos: Positions, w: nat, s: seq<ListHead>, out: seq<ListHead>,
                 nmerges: nat, a: seq<ListHead>, b: seq<ListHead>, rest: seq<ListHead>, m: seq<ListHead>)
    requires w > 0 && Passing(o, rec0, pos, w, s, out, a + (b + rest), nmerges) && EvolvesAll(o, rec0, rec)
    requires a != [] && |a| <= w && |b| <= w && (rest != [] ==> |a| == |b| == w)
    requires Below(pos, a, b + rest) && Below(pos, b, rest) && Runs(o, rec0, pos, rest, w)
    requires Run(o, rec, pos, m) && multiset(m) == multiset(a) + multiset(b) && |m| == |a| + |b|
    ensures Passing(o, rec, pos, w, s, out + m, rest, nmerges + 1)
  {
    hide Run, Runs, FullRuns, EvolvesAll;
    assert a[0] in a + (b + rest);
    FullRunsEvolve(o, rec0, rec, pos, out, 2 * w);
    RunsEvolve(o, rec0, rec, pos, rest, w);
    forall n | n in m
      ensures n in a || n in b
    {
      assert n in multiset(m);
    }
    AppendRun(o, rec, pos, out, m, 2 * w);
    assert multiset(a + (b + rest)) == multiset(a) + multiset(b) + multiset(rest);
  }
}
