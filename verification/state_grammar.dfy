// sw/coremark/core_state.c on values: the state machine and the texts that lead to each of its states.
module StateGrammar {
  import opened MachineInts

  type Text = seq<U8>

  datatype State = Start | Invalid | S1 | S2 | Int | Float | Exponent | Scientific

  predicate Comma(c: U8) { c == ',' as int }
  predicate Digit(c: U8) { '0' as int <= c <= '9' as int }
  predicate Sign(c: U8) { c == '+' as int || c == '-' as int }
  predicate Dot(c: U8) { c == '.' as int }
  predicate E(c: U8) { c == 'E' as int || c == 'e' as int }

  function Step(st: State, c: U8): State {
    match st
    case Start => if Digit(c) then Int else if Sign(c) then S1 else if Dot(c) then Float else Invalid
    case S1 => if Digit(c) then Int else if Dot(c) then Float else Invalid
    case Int => if Dot(c) then Float else if Digit(c) then Int else Invalid
    case Float => if E(c) then S2 else if Digit(c) then Float else Invalid
    case S2 => if Sign(c) then Exponent else Invalid
    case Exponent => if Digit(c) then Scientific else Invalid
    case Scientific => if Digit(c) then Scientific else Invalid
    case Invalid => Invalid
  }

  ghost function Run(t: Text): State {
    if t == [] then Start else Step(Run(t[..|t| - 1]), t[|t| - 1])
  }

  // The grammar

  ghost predicate Digits(t: Text) {
    forall i | 0 <= i < |t| :: Digit(t[i])
  }

  // t after its sign, if it has one
  ghost function Unsigned(t: Text): Text {
    if t != [] && Sign(t[0]) then t[1..] else t
  }

  // sign? digit+
  ghost predicate IsInt(t: Text) {
    Unsigned(t) != [] && Digits(Unsigned(t))
  }

  ghost predicate DotAt(t: Text, k: int) {
    0 <= k < |t| && Digits(t[..k]) && Dot(t[k]) && Digits(t[k + 1..])
  }

  // sign? digit* '.' digit*
  ghost predicate IsFloat(t: Text) {
    exists k :: DotAt(Unsigned(t), k)
  }

  // sign? digit* '.' digit* [eE] sign digit+, where the exponent starts at k
  ghost predicate ExponentAt(t: Text, k: int) {
    0 <= k < |t| - 2 && IsFloat(t[..k]) && E(t[k]) && Sign(t[k + 1]) && Digits(t[k + 2..])
  }

  ghost predicate IsScientific(t: Text) {
    exists k :: ExponentAt(t, k)
  }

  ghost predicate Accepts(st: State, t: Text) {
    match st
    case Start => t == []
    case S1 => |t| == 1 && Sign(t[0])
    case Int => IsInt(t)
    case Float => IsFloat(t)
    case S2 => t != [] && IsFloat(t[..|t| - 1]) && E(t[|t| - 1])
    case Exponent => |t| >= 2 && IsFloat(t[..|t| - 2]) && E(t[|t| - 2]) && Sign(t[|t| - 1])
    case Scientific => IsScientific(t)
    case Invalid => true
  }

  lemma FloatGrows(t: Text, c: U8)
    ensures IsFloat(t) && Digit(c) ==> IsFloat(t + [c])
    ensures IsInt(t) && Dot(c) ==> IsFloat(t + [c])
  {
    var u := Unsigned(t);
    if IsFloat(t) && Digit(c) {
      var k :| DotAt(u, k);
      assert Unsigned(t + [c]) == u + [c];
      assert (u + [c])[..k] == u[..k] && (u + [c])[k + 1..] == u[k + 1..] + [c];
      assert DotAt(u + [c], k);
    } else if IsInt(t) && Dot(c) {
      assert Unsigned(t + [c]) == u + [c];
      assert (u + [c])[..|u|] == u;
      assert DotAt(u + [c], |u|);
    }
  }

  lemma ScientificGrows(t: Text, c: U8)
    requires Digit(c)
    ensures Accepts(Exponent, t) ==> IsScientific(t + [c])
    ensures IsScientific(t) ==> IsScientific(t + [c])
  {
    if Accepts(Exponent, t) {
      assert (t + [c])[..|t| - 2] == t[..|t| - 2];
      assert ExponentAt(t + [c], |t| - 2);
    }
    if IsScientific(t) {
      var k :| ExponentAt(t, k);
      assert (t + [c])[..k] == t[..k] && (t + [c])[k + 2..] == t[k + 2..] + [c];
      assert ExponentAt(t + [c], k);
    }
  }

  lemma StepAccepts(st: State, t: Text, c: U8)
    requires Accepts(st, t)
    ensures Accepts(Step(st, c), t + [c])
  {
    hide IsFloat, IsScientific;
    var u := t + [c];
    assert u[..|t|] == t;
    match st
    case Start => FirstAccepts(c);
    case S1 => SecondAccepts(t[0], c); assert u == [t[0], c];
    case Int => FloatGrows(t, c); if Digit(c) { IntGrows(t, c); }
    case Float => FloatGrows(t, c);
    case S2 => assert u[..|u| - 2] == t[..|t| - 1];
    case Exponent => if Digit(c) { ScientificGrows(t, c); }
    case Scientific => if Digit(c) { ScientificGrows(t, c); }
    case Invalid =>
  }

  lemma IntGrows(t: Text, c: U8)
    requires IsInt(t) && Digit(c)
    ensures IsInt(t + [c])
  {
    assert Unsigned(t + [c]) == Unsigned(t) + [c];
  }

  lemma FirstAccepts(c: U8)
    ensures Accepts(Step(Start, c), [c])
  {
    if Dot(c) {
      assert Unsigned([c]) == [c];
      assert DotAt([c], 0);
    }
  }

  lemma SecondAccepts(s: U8, c: U8)
    requires Sign(s)
    ensures Accepts(Step(S1, c), [s, c])
  {
    assert Unsigned([s, c]) == [c];
    if Dot(c) {
      assert DotAt([c], 0);
    }
  }

  // The state before the last byte of an accepted text
  lemma StepBack(st: State, t: Text, c: U8) returns (before: State)
    requires st != Invalid && Accepts(st, t + [c])
    ensures before != Invalid && Accepts(before, t) && Step(before, c) == st
  {
    hide IsFloat, IsScientific;
    var u := t + [c];
    assert u[..|t|] == t && u[|t|] == c;
    match st
    case S1 => before := Start;
    case Int => before := IntBack(t, c);
    case Float => before := FloatBack(t, c);
    case S2 => before := Float;
    case Exponent => before := S2; assert t[..|t| - 1] == u[..|u| - 2] && t[|t| - 1] == u[|u| - 2];
    case Scientific => before := ScientificBack(t, c);
  }

  lemma IntBack(t: Text, c: U8) returns (before: State)
    requires IsInt(t + [c])
    ensures before != Invalid && Accepts(before, t) && Step(before, c) == Int
  {
    var u := Unsigned(t + [c]);
    assert Digit(u[|u| - 1]);
    if t == [] {
      before := Start;
    } else if |t| == 1 && Sign(t[0]) {
      before := S1;
    } else {
      before := Int;
      assert Unsigned(t) == u[..|u| - 1];
    }
  }

  lemma FloatBack(t: Text, c: U8) returns (before: State)
    requires IsFloat(t + [c])
    ensures before != Invalid && Accepts(before, t) && Step(before, c) == Float
  {
    var u := Unsigned(t + [c]);
    var k :| DotAt(u, k);
    if t == [] {
      before := Start;
    } else {
      var v := Unsigned(t);
      assert u == v + [c];
      assert k < |v| ==> v[..k] == u[..k] && u[k + 1..] == v[k + 1..] + [c];
      if k < |v| {
        before := Float;
        var f, g := u[k + 1..], v[k + 1..];
        assert f[|g|] == c && forall i | 0 <= i < |g| :: g[i] == f[i];
        assert DotAt(v, k);
      } else {
        assert u[..k] == v;
        before := if v == [] then S1 else Int;
      }
    }
  }

  lemma ScientificBack(t: Text, c: U8) returns (before: State)
    requires IsScientific(t + [c])
    ensures before != Invalid && Accepts(before, t) && Step(before, c) == Scientific
  {
    var u := t + [c];
    var k :| ExponentAt(u, k);
    hide IsFloat, Digits;
    DigitsBack(t[k + 2..], c, u[k + 2..]);
    assert u[..k] == t[..k];
    if k + 3 == |u| {
      before := Exponent;
      assert |t| - 2 == k;
    } else {
      before := Scientific;
      assert ExponentAt(t, k);
    }
  }

  lemma DigitsBack(t: Text, c: U8, u: Text)
    requires u == t + [c] && Digits(u)
    ensures Digits(t) && Digit(c)
  {
    assert u[|t|] == c;
    assert forall i | 0 <= i < |t| :: t[i] == u[i];
  }

  // The machine is in a state exactly after the texts that the grammar gives for it; it is in
  // Invalid after all others
  lemma {:induction false} GrammarExact(t: Text, st: State)
    requires st != Invalid
    ensures Run(t) == st <==> Accepts(st, t)
    decreases |t|
  {
    if t == [] {
      EmptyText(st);
    } else {
      var n := |t| - 1;
      var t0, c := t[..n], t[n];
      assert t == t0 + [c];
      if Run(t) == st {
        InvalidStays(t);
        GrammarExact(t0, Run(t0));
        StepAccepts(Run(t0), t0, c);
      }
      if Accepts(st, t) {
        var before := StepBack(st, t0, c);
        GrammarExact(t0, before);
      }
    }
  }

  lemma EmptyText(st: State)
    requires st != Invalid
    ensures st == Start <==> Accepts(st, [])
  {
    assert Unsigned([]) == [];
  }

  lemma InvalidStays(t: Text)
    requires t != [] && Run(t) != Invalid
    ensures Run(t[..|t| - 1]) != Invalid
  {
  }

  // One call of core_state_transition on the bytes before the NUL

  ghost function Result(st: State, t: Text): State
    decreases |t|
  {
    if t == [] || Comma(t[0]) || st == Invalid then st else Result(Step(st, t[0]), t[1..])
  }

  ghost function Consumed(st: State, t: Text): (n: nat)
    ensures n <= |t|
    decreases |t|
  {
    if t == [] || st == Invalid then 0
    else if Comma(t[0]) then 1
    else 1 + Consumed(Step(st, t[0]), t[1..])
  }

  // The bytes before the first comma
  ghost function Token(t: Text): Text {
    if t == [] || Comma(t[0]) then [] else [t[0]] + Token(t[1..])
  }

  ghost function RunFrom(st: State, t: Text): State
    decreases |t|
  {
    if t == [] then st else RunFrom(Step(st, t[0]), t[1..])
  }

  lemma {:induction false} RunFromInvalid(t: Text)
    ensures RunFrom(Invalid, t) == Invalid
  {
    if t != [] {
      RunFromInvalid(t[1..]);
    }
  }

  lemma {:induction false} ResultIsRun(st: State, t: Text)
    ensures Result(st, t) == RunFrom(st, Token(t))
    decreases |t|
  {
    if st == Invalid {
      RunFromInvalid(Token(t));
    } else if t != [] && !Comma(t[0]) {
      ResultIsRun(Step(st, t[0]), t[1..]);
      assert Token(t)[1..] == Token(t[1..]);
    }
  }

  lemma {:induction false} RunIsRunFrom(a: Text, t: Text)
    ensures Run(a + t) == RunFrom(Run(a), t)
    decreases |t|
  {
    if t == [] {
      assert a + t == a;
    } else {
      var b := a + [t[0]];
      assert b[..|a|] == a && b + t[1..] == a + t;
      RunIsRunFrom(b, t[1..]);
    }
  }

  // A call classifies the text up to the next comma or the end
  lemma TransitionClassifies(t: Text, st: State)
    requires st != Invalid
    ensures Result(Start, t) == st <==> Accepts(st, Token(t))
  {
    ResultIsRun(Start, t);
    RunIsRunFrom([], Token(t));
    assert [] + Token(t) == Token(t);
    GrammarExact(Token(t), st);
  }

  // It stops after the comma, or at the end, or right after the byte that makes the text invalid
  lemma {:induction false} StopsAt(st: State, t: Text)
    requires st != Invalid
    ensures t != [] ==> Consumed(st, t) > 0
    ensures Result(st, t) != Invalid ==> Consumed(st, t) == if |Token(t)| < |t| then |Token(t)| + 1 else |t|
    ensures Result(st, t) == Invalid ==> var n := Consumed(st, t);
      && 0 < n <= |Token(t)|
      && RunFrom(st, t[..n - 1]) != Invalid && RunFrom(st, t[..n]) == Invalid
    decreases |t|
  {
    if t != [] && !Comma(t[0]) {
      var st' := Step(st, t[0]);
      if st' == Invalid {
        assert Result(st, t) == Result(Invalid, t[1..]) == Invalid;
        assert t[..1] == [t[0]] && t[..0] == [];
        assert RunFrom(st, [t[0]]) == RunFrom(Step(st, t[0]), [t[0]][1..]);
      } else {
        StopsAt(st', t[1..]);
        if Result(st, t) == Invalid {
          var n := Consumed(st, t);
          assert t[..n][1..] == t[1..][..n - 1] && t[..n - 1][1..] == t[1..][..n - 2];
        }
      }
    }
  }
}
