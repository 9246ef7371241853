// tools/map.c on values: red-black trees of nodes, with a cursor into them.
module MapTree {
  import opened Powers

  datatype Color = RED | BLACK

  class Node {
    var data: int
    var color: Color
    var left: Node?
    var right: Node?
    var parent: Node?

    // createNode
    constructor (data: int)
      ensures this.data == data && color == RED && left == null && right == null && parent == null
    {
      this.data := data;
      color := RED;
      left, right, parent := null, null, null;
    }
  }

  // A tree and the nodes it is made of
  datatype Tree = Leaf | Tree(node: Node, color: Color, left: Tree, data: int, right: Tree)

  // The path from a subtree up to the root, with the siblings left and right of it
  datatype Path =
    | Top
    | LeftOf(node: Node, color: Color, data: int, right: Tree, up: Path)
    | RightOf(node: Node, color: Color, data: int, left: Tree, up: Path)

  ghost function Plug(c: Path, t: Tree): Tree
    decreases c
  {
    match c
    case Top => t
    case LeftOf(n, color, data, right, up) => Plug(up, Tree(n, color, t, data, right))
    case RightOf(n, color, data, left, up) => Plug(up, Tree(n, color, left, data, t))
  }

  ghost predicate IsRed(t: Tree) { t.Tree? && t.color == RED }

  ghost predicate UnderRed(c: Path) { !c.Top? && c.color == RED }

  // In-order keys

  ghost function InOrder(t: Tree): seq<int> {
    if t.Leaf? then [] else InOrder(t.left) + [t.data] + InOrder(t.right)
  }

  ghost function Before(c: Path): seq<int> {
    match c
    case Top => []
    case LeftOf(_, _, _, _, up) => Before(up)
    case RightOf(_, _, data, left, up) => Before(up) + InOrder(left) + [data]
  }

  ghost function After(c: Path): seq<int> {
    match c
    case Top => []
    case LeftOf(_, _, data, right, up) => [data] + InOrder(right) + After(up)
    case RightOf(_, _, _, _, up) => After(up)
  }

  lemma {:induction false} InOrderPlug(c: Path, t: Tree)
    ensures InOrder(Plug(c, t)) == Before(c) + InOrder(t) + After(c)
    decreases c
  {
    match c
    case Top =>
    case LeftOf(n, color, data, right, up) =>
      InOrderPlug(up, Tree(n, color, t, data, right));
    case RightOf(n, color, data, left, up) =>
      InOrderPlug(up, Tree(n, color, left, data, t));
  }

  ghost predicate Increasing(s: seq<int>) {
    forall i, j | 0 <= i < j < |s| :: s[i] < s[j]
  }

  ghost predicate Search(t: Tree) { Increasing(InOrder(t)) }

  // Balance

  ghost function BlackHeight(t: Tree): nat {
    if t.Leaf? then 0 else BlackHeight(t.left) + if t.color == BLACK then 1 else 0
  }

  // The same number of black nodes on every path
  ghost predicate Balanced(t: Tree) {
    t.Tree? ==> Balanced(t.left) && Balanced(t.right) && BlackHeight(t.left) == BlackHeight(t.right)
  }

  // No red node has a red child
  ghost predicate NoRedRed(t: Tree) {
    t.Tree? ==> NoRedRed(t.left) && NoRedRed(t.right) && (t.color == RED ==> !IsRed(t.left) && !IsRed(t.right))
  }

  ghost predicate RedBlack(t: Tree) {
    Balanced(t) && NoRedRed(t) && !IsRed(t)
  }

  // A balanced tree of black height h in place of the hole makes the whole balanced
  ghost predicate BalancedPath(c: Path, h: nat) {
    match c
    case Top => true
    case LeftOf(_, color, _, right, up) =>
      Balanced(right) && BlackHeight(right) == h && BalancedPath(up, h + if color == BLACK then 1 else 0)
    case RightOf(_, color, _, left, up) =>
      Balanced(left) && BlackHeight(left) == h && BalancedPath(up, h + if color == BLACK then 1 else 0)
  }

  // A black tree in place of the hole leaves no red node with a red child, and the root black
  ghost predicate NoRedRedPath(c: Path) {
    match c
    case Top => true
    case LeftOf(_, color, _, right, up) =>
      NoRedRed(right) && (color == RED ==> !IsRed(right) && !UnderRed(up) && !up.Top?) && NoRedRedPath(up)
    case RightOf(_, color, _, left, up) =>
      NoRedRed(left) && (color == RED ==> !IsRed(left) && !UnderRed(up) && !up.Top?) && NoRedRedPath(up)
  }

  lemma {:induction false} BalancedPlug(c: Path, t: Tree)
    requires Balanced(t) && BalancedPath(c, BlackHeight(t))
    ensures Balanced(Plug(c, t))
    decreases c
  {
    match c
    case Top =>
    case LeftOf(n, color, data, right, up) =>
      BalancedPlug(up, Tree(n, color, t, data, right));
    case RightOf(n, color, data, left, up) =>
      BalancedPlug(up, Tree(n, color, left, data, t));
  }

  lemma {:induction false} NoRedRedPlug(c: Path, t: Tree)
    requires NoRedRed(t) && NoRedRedPath(c) && (IsRed(t) ==> !UnderRed(c))
    ensures NoRedRed(Plug(c, t)) && (!c.Top? ==> !IsRed(Plug(c, t)))
    decreases c
  {
    match c
    case Top =>
    case LeftOf(n, color, data, right, up) =>
      NoRedRedPlug(up, Tree(n, color, t, data, right));
    case RightOf(n, color, data, left, up) =>
      NoRedRedPlug(up, Tree(n, color, left, data, t));
  }

  // Insertion as a leaf

  ghost function Inserted(t: Tree, leaf: Tree): Tree
    requires leaf.Tree?
  {
    if t.Leaf? then leaf
    else if leaf.data < t.data then t.(left := Inserted(t.left, leaf))
    else if leaf.data > t.data then t.(right := Inserted(t.right, leaf))
    else t
  }

  // The path along which insertBST descends
  ghost function Descent(t: Tree, key: int, c: Path): Path
    decreases t
  {
    if t.Leaf? then c
    else if key < t.data then Descent(t.left, key, LeftOf(t.node, t.color, t.data, t.right, c))
    else Descent(t.right, key, RightOf(t.node, t.color, t.data, t.left, c))
  }

  lemma {:induction false} InsertedIsPlugged(t: Tree, leaf: Tree, c: Path)
    requires leaf.Tree? && leaf.data !in InOrder(t)
    ensures Plug(c, Inserted(t, leaf)) == Plug(Descent(t, leaf.data, c), leaf)
    decreases t
  {
    if t.Tree? {
      assert leaf.data !in InOrder(t.left) && leaf.data !in InOrder(t.right) && leaf.data != t.data by {
        assert t.data in [t.data];
      }
      if leaf.data < t.data {
        InsertedIsPlugged(t.left, leaf, LeftOf(t.node, t.color, t.data, t.right, c));
      } else {
        InsertedIsPlugged(t.right, leaf, RightOf(t.node, t.color, t.data, t.left, c));
      }
    }
  }

  lemma {:induction false} DescentKeeps(t: Tree, key: int, c: Path)
    requires Balanced(t) && NoRedRed(t) && (IsRed(t) ==> !UnderRed(c) && !c.Top?)
    requires BalancedPath(c, BlackHeight(t)) && NoRedRedPath(c)
    ensures BalancedPath(Descent(t, key, c), 0) && NoRedRedPath(Descent(t, key, c))
    decreases t
  {
    if t.Tree? {
      if key < t.data {
        DescentKeeps(t.left, key, LeftOf(t.node, t.color, t.data, t.right, c));
      } else {
        DescentKeeps(t.right, key, RightOf(t.node, t.color, t.data, t.left, c));
      }
    }
  }

  lemma IncreasingParts(a: seq<int>, d: int, b: seq<int>)
    requires Increasing(a + [d] + b)
    ensures Increasing(a) && Increasing(b) && (forall x | x in a :: x < d) && (forall x | x in b :: d < x)
  {
    var s := a + [d] + b;
    assert s[|a|] == d;
    assert forall i | 0 <= i < |a| :: s[i] == a[i];
    assert forall i | 0 <= i < |b| :: s[|a| + 1 + i] == b[i];
    forall i, j | 0 <= i < j < |b| ensures b[i] < b[j] { assert s[|a| + 1 + i] < s[|a| + 1 + j]; }
    forall x | x in b ensures d < x { var i :| 0 <= i < |b| && b[i] == x; assert s[|a|] < s[|a| + 1 + i]; }
  }

  lemma IncreasingJoin(a: seq<int>, d: int, b: seq<int>)
    requires Increasing(a) && Increasing(b) && (forall x | x in a :: x < d) && (forall x | x in b :: d < x)
    ensures Increasing(a + [d] + b)
  {
    var s := a + [d] + b;
    forall i, j | 0 <= i < j < |s| ensures s[i] < s[j] {
      assert i < |a| ==> s[i] == a[i] && s[i] in a;
      assert j > |a| ==> s[j] == b[j - |a| - 1] && s[j] in b;
      assert i > |a| ==> s[i] == b[i - |a| - 1];
    }
  }

  lemma SubtreeKeys(t: Tree, key: int)
    requires t.Tree? && key !in InOrder(t)
    ensures key !in InOrder(t.left) && key != t.data && key !in InOrder(t.right)
  {
    assert key !in InOrder(t.left) + [t.data];
    assert t.data in [t.data];
  }

  lemma InsertedLeft(l: seq<int>, d: int, r: seq<int>, l1: seq<int>, key: int)
    requires Increasing(l + [d] + r) && Increasing(l1) && multiset(l1) == multiset(l) + multiset{key} && key < d
    ensures Increasing(l1 + [d] + r)
    ensures multiset(l1 + [d] + r) == multiset(l + [d] + r) + multiset{key}
  {
    hide Increasing;
    IncreasingParts(l, d, r);
    SameElements(l1, l, key);
    IncreasingJoin(l1, d, r);
  }

  lemma InsertedRight(l: seq<int>, d: int, r: seq<int>, r1: seq<int>, key: int)
    requires Increasing(l + [d] + r) && Increasing(r1) && multiset(r1) == multiset(r) + multiset{key} && d < key
    ensures Increasing(l + [d] + r1)
    ensures multiset(l + [d] + r1) == multiset(l + [d] + r) + multiset{key}
  {
    hide Increasing;
    IncreasingParts(l, d, r);
    SameElements(r1, r, key);
    IncreasingJoin(l, d, r1);
  }

  lemma {:induction false} InsertedInOrder(t: Tree, leaf: Tree)
    requires leaf.Tree? && leaf.left.Leaf? && leaf.right.Leaf? && Search(t) && leaf.data !in InOrder(t)
    ensures Search(Inserted(t, leaf))
    ensures multiset(InOrder(Inserted(t, leaf))) == multiset(InOrder(t)) + multiset{leaf.data}
    decreases t, 1
  {
    if t.Leaf? {
      assert InOrder(leaf) == [leaf.data];
    } else {
      InsertedBelow(t, leaf);
    }
  }

  lemma InsertedBelow(t: Tree, leaf: Tree)
    requires leaf.Tree? && leaf.left.Leaf? && leaf.right.Leaf? && Search(t) && leaf.data !in InOrder(t) && t.Tree?
    ensures Search(Inserted(t, leaf))
    ensures multiset(InOrder(Inserted(t, leaf))) == multiset(InOrder(t)) + multiset{leaf.data}
    decreases t, 0
  {
    hide Increasing;
    SubtreeKeys(t, leaf.data);
    var l, d, r, t1 := InOrder(t.left), t.data, InOrder(t.right), Inserted(t, leaf);
    IncreasingParts(l, d, r);
    assert InOrder(t1) == InOrder(t1.left) + [d] + InOrder(t1.right);
    if leaf.data < d {
      InsertedInOrder(t.left, leaf);
      InsertedLeft(l, d, r, InOrder(t1.left), leaf.data);
    } else {
      InsertedInOrder(t.right, leaf);
      InsertedRight(l, d, r, InOrder(t1.right), leaf.data);
    }
  }

  lemma SameElements(a: seq<int>, b: seq<int>, x: int)
    requires multiset(a) == multiset(b) + multiset{x}
    ensures forall y | y in a :: y in b || y == x
  {
    forall y | y in a
      ensures y in b || y == x
    {
      assert y in multiset(a);
    }
  }

  // The repair loop

  ghost predicate Violates(c: Path, t: Tree) {
    !c.Top? && !c.up.Top? && IsRed(t) && UnderRed(c)
  }

  ghost function Recolored(t: Tree, color: Color): Tree {
    if t.Leaf? then t else t.(color := color)
  }

  // One turn of the loop in fixViolation: the subtree of the grandparent afterwards
  ghost function Repaired(c: Path, t: Tree): Tree
    requires Violates(c, t)
  {
    match (c, c.up)
    case (LeftOf(p, pc, pd, pr, _), LeftOf(g, gc, gd, uncle, _)) =>
      if IsRed(uncle) then Tree(g, RED, Tree(p, BLACK, t, pd, pr), gd, Recolored(uncle, BLACK))
      else Tree(p, gc, t, pd, Tree(g, pc, pr, gd, uncle))
    case (RightOf(p, pc, pd, pl, _), LeftOf(g, gc, gd, uncle, _)) =>
      if IsRed(uncle) then Tree(g, RED, Tree(p, BLACK, pl, pd, t), gd, Recolored(uncle, BLACK))
      else Tree(t.node, gc, Tree(p, pc, pl, pd, t.left), t.data, Tree(g, t.color, t.right, gd, uncle))
    case (RightOf(p, pc, pd, pl, _), RightOf(g, gc, gd, uncle, _)) =>
      if IsRed(uncle) then Tree(g, RED, Recolored(uncle, BLACK), gd, Tree(p, BLACK, pl, pd, t))
      else Tree(p, gc, Tree(g, pc, uncle, gd, pl), pd, t)
    case (LeftOf(p, pc, pd, pr, _), RightOf(g, gc, gd, uncle, _)) =>
      if IsRed(uncle) then Tree(g, RED, Recolored(uncle, BLACK), gd, Tree(p, BLACK, t, pd, pr))
      else Tree(t.node, gc, Tree(g, t.color, uncle, gd, t.left), t.data, Tree(p, pc, t.right, pd, pr))
  }

  ghost function FixUp(c: Path, t: Tree): Tree
    decreases c
  {
    if Violates(c, t) then FixUp(c.up.up, Repaired(c, t)) else Recolored(Plug(c, t), BLACK)
  }

  lemma RepairedBalanced(c: Path, t: Tree)
    requires Violates(c, t) && Balanced(t) && BalancedPath(c, BlackHeight(t)) && NoRedRedPath(c)
    ensures Balanced(Repaired(c, t)) && BalancedPath(c.up.up, BlackHeight(Repaired(c, t)))
  {
    var up, s := c.up, Repaired(c, t);
    assert NoRedRedPath(up) && BalancedPath(up, BlackHeight(t));
    assert BalancedPath(up.up, BlackHeight(t) + 1);
    var uncle := if up.LeftOf? then up.right else up.left;
    assert Balanced(uncle) && BlackHeight(uncle) == BlackHeight(t);
    assert Balanced(Recolored(uncle, BLACK));
    assert Balanced(t.left) && Balanced(t.right);
    assert Balanced(s.left) && Balanced(s.right);
  }

  lemma RepairedColors(c: Path, t: Tree)
    requires Violates(c, t) && NoRedRed(t) && NoRedRedPath(c)
    ensures NoRedRed(Repaired(c, t)) && NoRedRedPath(c.up.up)
  {
    var up, s := c.up, Repaired(c, t);
    assert NoRedRedPath(up) && NoRedRedPath(up.up) && up.color == BLACK;
    var uncle := if up.LeftOf? then up.right else up.left;
    assert NoRedRed(uncle) && NoRedRed(Recolored(uncle, BLACK));
    assert NoRedRed(t.left) && NoRedRed(t.right);
    assert NoRedRed(s.left) && NoRedRed(s.right);
  }

  // The tree one level up
  ghost function Frame(c: Path, t: Tree): Tree
    requires !c.Top?
  {
    match c
    case LeftOf(n, color, data, right, _) => Tree(n, color, t, data, right)
    case RightOf(n, color, data, left, _) => Tree(n, color, left, data, t)
  }

  lemma Rotated(a: seq<int>, x: seq<int>, b: seq<int>, y: seq<int>, c: seq<int>)
    ensures (a + x + b) + y + c == a + x + (b + y + c)
  {
  }

  lemma RotatedTwice(a: seq<int>, x: seq<int>, b: seq<int>, y: seq<int>, c: seq<int>, z: seq<int>, d: seq<int>)
    ensures (a + x + (b + y + c)) + z + d == (a + x + b) + y + (c + z + d)
    ensures a + x + ((b + y + c) + z + d) == (a + x + b) + y + (c + z + d)
  {
  }

  lemma RepairedGrandparent(c: Path, t: Tree)
    requires Violates(c, t)
    ensures InOrder(Repaired(c, t)) == InOrder(Frame(c.up, Frame(c, t)))
  {
    var td, pd, gd := [t.data], [c.data], [c.up.data];
    var l, r := InOrder(t.left), InOrder(t.right);
    var uncle := if c.up.LeftOf? then c.up.right else c.up.left;
    var u := InOrder(uncle);
    assert InOrder(t) == l + td + r && InOrder(Recolored(uncle, BLACK)) == u;
    var f := InOrder(Frame(c, t));
    match (c, c.up)
    case (LeftOf(_, _, _, pr, _), LeftOf(_, _, _, _, _)) =>
      assert f == InOrder(t) + pd + InOrder(pr);
      Rotated(InOrder(t), pd, InOrder(pr), gd, u);
    case (RightOf(_, _, _, pl, _), LeftOf(_, _, _, _, _)) =>
      assert f == InOrder(pl) + pd + (l + td + r);
      RotatedTwice(InOrder(pl), pd, l, td, r, gd, u);
    case (RightOf(_, _, _, pl, _), RightOf(_, _, _, _, _)) =>
      assert f == InOrder(pl) + pd + InOrder(t);
      Rotated(u, gd, InOrder(pl), pd, InOrder(t));
    case (LeftOf(_, _, _, pr, _), RightOf(_, _, _, _, _)) =>
      assert f == (l + td + r) + pd + InOrder(pr);
      RotatedTwice(u, gd, l, td, r, pd, InOrder(pr));
  }

  lemma RepairedOrder(c: Path, t: Tree)
    requires Violates(c, t)
    ensures InOrder(Plug(c.up.up, Repaired(c, t))) == InOrder(Plug(c, t))
  {
    RepairedGrandparent(c, t);
    assert Plug(c, t) == Plug(c.up, Frame(c, t)) == Plug(c.up.up, Frame(c.up, Frame(c, t)));
    InOrderPlug(c.up.up, Frame(c.up, Frame(c, t)));
    InOrderPlug(c.up.up, Repaired(c, t));
  }

  lemma FixUpKeeps(c: Path, t: Tree)
    requires t.Tree? && Balanced(t) && NoRedRed(t) && BalancedPath(c, BlackHeight(t)) && NoRedRedPath(c)
    ensures RedBlack(FixUp(c, t)) && InOrder(FixUp(c, t)) == InOrder(Plug(c, t))
    decreases c
  {
    if Violates(c, t) {
      RepairedBalanced(c, t);
      RepairedColors(c, t);
      RepairedOrder(c, t);
      FixUpKeeps(c.up.up, Repaired(c, t));
    } else {
      BalancedPlug(c, t);
      NoRedRedPlug(c, t);
    }
  }

  // insertNode

  ghost function LeafNode(node: Node, data: int): Tree {
    Tree(node, RED, Leaf, data, Leaf)
  }

  ghost function WithKey(t: Tree, node: Node, data: int): Tree {
    FixUp(Descent(t, data, Top), LeafNode(node, data))
  }

  lemma WithKeyKeeps(t: Tree, node: Node, data: int)
    requires RedBlack(t) && Search(t) && data !in InOrder(t)
    ensures RedBlack(WithKey(t, node, data)) && Search(WithKey(t, node, data))
    ensures multiset(InOrder(WithKey(t, node, data))) == multiset(InOrder(t)) + multiset{data}
  {
    var leaf := LeafNode(node, data);
    assert BlackHeight(leaf.left) == 0 && Balanced(leaf.left);
    assert Balanced(leaf) && BlackHeight(leaf) == 0;
    DescentKeeps(t, data, Top);
    FixUpKeeps(Descent(t, data, Top), leaf);
    InsertedIsPlugged(t, leaf, Top);
    InsertedInOrder(t, leaf);
  }

  // The tree after a history of insertNode calls, from NULL
  ghost function History(nodes: seq<Node>, keys: seq<int>): Tree
    requires |nodes| == |keys|
  {
    if keys == [] then Leaf
    else var n := |keys| - 1; WithKey(History(nodes[..n], keys[..n]), nodes[n], keys[n])
  }

  ghost function Height(t: Tree): nat {
    if t.Leaf? then 0
    else 1 + if Height(t.left) > Height(t.right) then Height(t.left) else Height(t.right)
  }

  lemma {:induction false} HeightBound(t: Tree)
    requires Balanced(t) && NoRedRed(t)
    ensures Height(t) <= 2 * BlackHeight(t) + if IsRed(t) then 1 else 0
    ensures |InOrder(t)| + 1 >= Pow2(BlackHeight(t))
  {
    if t.Tree? {
      HeightBound(t.left);
      HeightBound(t.right);
    }
  }

  lemma {:induction false} Squares(p: nat, n: nat)
    requires p <= n
    ensures p * p <= n * n
  {
    if p < n {
      Squares(p, n - 1);
      assert n * n == (n - 1) * (n - 1) + 2 * n - 1;
    }
  }

  // height <= 2 * log2(size + 1)
  lemma HeightIsLogarithmic(t: Tree)
    requires RedBlack(t)
    ensures Pow2(Height(t)) <= (|InOrder(t)| + 1) * (|InOrder(t)| + 1)
  {
    hide Pow2, InOrder, Height, Balanced;
    HeightBound(t);
    var h := BlackHeight(t);
    Pow2Grows(Height(t), h + h);
    Pow2Sum(h, h);
    Squares(Pow2(h), |InOrder(t)| + 1);
  }

  // Any history of insertions of distinct keys gives a red-black search tree of exactly these keys
  lemma {:induction false} HistoryIsRedBlack(nodes: seq<Node>, keys: seq<int>)
    requires |nodes| == |keys| && forall i, j | 0 <= i < j < |keys| :: keys[i] != keys[j]
    ensures RedBlack(History(nodes, keys)) && Search(History(nodes, keys))
    ensures multiset(InOrder(History(nodes, keys))) == multiset(keys)
  {
    hide RedBlack, Search, InOrder, WithKey;
    if keys == [] {
      EmptyTree();
    } else {
      var n := |keys| - 1;
      var t := History(nodes[..n], keys[..n]);
      HistoryIsRedBlack(nodes[..n], keys[..n]);
      assert keys == keys[..n] + [keys[n]];
      assert keys[n] !in keys[..n];
      assert multiset(InOrder(t))[keys[n]] == 0;
      WithKeyKeeps(t, nodes[n], keys[n]);
    }
  }

  lemma EmptyTree()
    ensures RedBlack(Leaf) && Search(Leaf) && InOrder(Leaf) == []
  {
  }

  lemma HistoryIsShallow(nodes: seq<Node>, keys: seq<int>)
    requires |nodes| == |keys| && forall i, j | 0 <= i < j < |keys| :: keys[i] != keys[j]
    ensures Pow2(Height(History(nodes, keys))) <= (|keys| + 1) * (|keys| + 1)
  {
    hide *;
    var t := History(nodes, keys);
    HistoryIsRedBlack(nodes, keys);
    assert |multiset(InOrder(t))| == |InOrder(t)| && |multiset(keys)| == |keys|;
    HeightIsLogarithmic(t);
  }

  // deleteNodeBST: plain search-tree deletion. A node with one child takes over the child's fields,
  // a node with two children the least key of its right subtree.
  ghost function Deleted(t: Tree, key: int): Tree
    decreases t
  {
    if t.Leaf? then Leaf
    else if key < t.data then t.(left := Deleted(t.left, key))
    else if key > t.data then t.(right := Deleted(t.right, key))
    else if t.left.Leaf? && t.right.Leaf? then Leaf
    else if t.left.Leaf? then t.right.(node := t.node)
    else if t.right.Leaf? then t.left.(node := t.node)
    else var least := Least(t.right); t.(data := least, right := Deleted(t.right, least))
  }

  ghost function Least(t: Tree): (k: int)
    requires t.Tree?
    ensures InOrder(t) != [] && k == InOrder(t)[0]
  {
    if t.left.Leaf? then t.data else Least(t.left)
  }

  lemma IncreasingHead(a: seq<int>)
    requires Increasing(a) && a != []
    ensures a[0] in a && forall x | x in a :: x == a[0] || a[0] < x
  {
  }

  lemma {:induction false} IncreasingOnce(a: seq<int>, x: int)
    requires Increasing(a)
    ensures multiset(a)[x] <= 1
  {
    if a != [] {
      IncreasingOnce(a[1..], x);
      assert a == [a[0]] + a[1..];
      assert x == a[0] ==> x !in a[1..];
    }
  }

  lemma LessElements(a: seq<int>, b: seq<int>, x: int)
    requires multiset(a) == multiset(b) - multiset{x}
    ensures forall y | y in a :: y in b
    ensures Increasing(b) ==> x !in a
  {
    forall y | y in a
      ensures y in b
    {
      assert y in multiset(a);
    }
    if Increasing(b) {
      IncreasingOnce(b, x);
      assert multiset(a)[x] == 0;
      assert x !in multiset(a);
    }
  }

  lemma {:induction false} DeletedInOrder(t: Tree, key: int)
    requires Search(t)
    ensures Search(Deleted(t, key))
    ensures multiset(InOrder(Deleted(t, key))) == multiset(InOrder(t)) - multiset{key}
    ensures key !in InOrder(t) ==> Deleted(t, key) == t
  {
    if t.Tree? {
      var l, d, r := InOrder(t.left), t.data, InOrder(t.right);
      IncreasingParts(l, d, r);
      if key < d {
        DeletedInOrder(t.left, key);
        DeletedLeft(l, d, r, InOrder(Deleted(t.left, key)), key);
      } else if key > d {
        DeletedInOrder(t.right, key);
        DeletedRight(l, d, r, InOrder(Deleted(t.right, key)), key);
      } else if t.left.Leaf? || t.right.Leaf? {
        DeletedOnly(l, d, r);
      } else {
        DeletedInOrder(t.right, r[0]);
        DeletedBetween(l, d, r, InOrder(Deleted(t.right, r[0])));
      }
    }
  }

  lemma DeletedLeft(l: seq<int>, d: int, r: seq<int>, l1: seq<int>, key: int)
    requires Increasing(l + [d] + r) && Increasing(l1) && multiset(l1) == multiset(l) - multiset{key} && key < d
    ensures Increasing(l1 + [d] + r)
    ensures multiset(l1 + [d] + r) == multiset(l + [d] + r) - multiset{key}
  {
    IncreasingParts(l, d, r);
    LessElements(l1, l, key);
    IncreasingJoin(l1, d, r);
    assert key !in r;
  }

  lemma DeletedRight(l: seq<int>, d: int, r: seq<int>, r1: seq<int>, key: int)
    requires Increasing(l + [d] + r) && Increasing(r1) && multiset(r1) == multiset(r) - multiset{key} && d < key
    ensures Increasing(l + [d] + r1)
    ensures multiset(l + [d] + r1) == multiset(l + [d] + r) - multiset{key}
  {
    IncreasingParts(l, d, r);
    LessElements(r1, r, key);
    IncreasingJoin(l, d, r1);
    assert key !in l;
  }

  lemma DeletedOnly(l: seq<int>, d: int, r: seq<int>)
    requires l == [] || r == []
    ensures multiset(l + r) == multiset(l + [d] + r) - multiset{d}
    ensures d in l + [d] + r && l + r == if l == [] then r else l
  {
    assert (l + [d] + r)[|l|] == d;
  }

  lemma DeletedBetween(l: seq<int>, d: int, r: seq<int>, r1: seq<int>)
    requires Increasing(l + [d] + r) && r != [] && Increasing(r1) && multiset(r1) == multiset(r) - multiset{r[0]}
    ensures Increasing(l + [r[0]] + r1)
    ensures multiset(l + [r[0]] + r1) == multiset(l + [d] + r) - multiset{d}
    ensures d in l + [d] + r
  {
    IncreasingParts(l, d, r);
    IncreasingHead(r);
    LessElements(r1, r, r[0]);
    IncreasingJoin(l, r[0], r1);
    assert (l + [d] + r)[|l|] == d;
    assert r[0] in multiset(r);
  }

  // The subtree whose root deleteNodeBST unlinks
  ghost function Victim(t: Tree, key: int): Tree
    decreases t
  {
    if t.Leaf? then Leaf
    else if key < t.data then Victim(t.left, key)
    else if key > t.data then Victim(t.right, key)
    else if t.left.Leaf? || t.right.Leaf? then t
    else Victim(t.right, Least(t.right))
  }

  // deleteNodeBST unlinks the root itself
  ghost predicate UnlinksRoot(t: Tree, key: int) {
    t.Tree? && key == t.data && (t.left.Leaf? || t.right.Leaf?)
  }

  lemma LeastIsIn(t: Tree)
    requires t.Tree?
    ensures Least(t) in InOrder(t)
  {
  }

  lemma {:induction false} DeletedBalance(t: Tree, key: int)
    requires Balanced(t) && NoRedRed(t) && key in InOrder(t) && Search(t)
    ensures if IsRed(Victim(t, key)) then
        Balanced(Deleted(t, key)) && NoRedRed(Deleted(t, key)) && BlackHeight(Deleted(t, key)) == BlackHeight(t)
            && (IsRed(Deleted(t, key)) ==> IsRed(t))
      else if UnlinksRoot(t, key) then
        Balanced(Deleted(t, key)) && BlackHeight(Deleted(t, key)) == BlackHeight(t) - 1
      else !Balanced(Deleted(t, key))
  {
    IncreasingParts(InOrder(t.left), t.data, InOrder(t.right));
    if key < t.data {
      DeletedBalance(t.left, key);
    } else if key > t.data {
      DeletedBalance(t.right, key);
    } else if t.left.Tree? && t.right.Tree? {
      LeastIsIn(t.right);
      DeletedBalance(t.right, Least(t.right));
    } else {
      assert BlackHeight(t.left) == BlackHeight(t.right) == 0;
    }
  }

  // A deletion leaves a red-black tree balanced exactly when it unlinks a red node or the root
  lemma DeletionKeepsBalance(t: Tree, key: int)
    requires RedBlack(t) && Search(t)
    ensures Balanced(Deleted(t, key)) <==> key !in InOrder(t) || IsRed(Victim(t, key)) || UnlinksRoot(t, key)
  {
    if key in InOrder(t) {
      DeletedBalance(t, key);
    } else {
      DeletedInOrder(t, key);
    }
  }

  // A deletion that does not keep it, after four insertions: 1, 2 and 3 have become black

  ghost function Single(node: Node, color: Color, data: int): Tree { Tree(node, color, Leaf, data, Leaf) }

  lemma FirstKey(a: Node)
    ensures WithKey(Leaf, a, 2) == Single(a, BLACK, 2)
  {
    assert Descent(Leaf, 2, Top) == Top;
  }

  lemma SecondKey(a: Node, b: Node)
    ensures WithKey(Single(a, BLACK, 2), b, 1) == Tree(a, BLACK, Single(b, RED, 1), 2, Leaf)
  {
    var path := LeftOf(a, BLACK, 2, Leaf, Top);
    assert Descent(Leaf, 1, path) == path;
    assert Plug(Top, Tree(a, BLACK, LeafNode(b, 1), 2, Leaf)).Tree?;
  }

  lemma ThirdKey(a: Node, b: Node, c: Node)
    ensures WithKey(Tree(a, BLACK, Single(b, RED, 1), 2, Leaf), c, 3)
      == Tree(a, BLACK, Single(b, RED, 1), 2, Single(c, RED, 3))
  {
    var path := RightOf(a, BLACK, 2, Single(b, RED, 1), Top);
    assert Descent(Leaf, 3, path) == path;
    assert Plug(Top, Tree(a, BLACK, Single(b, RED, 1), 2, LeafNode(c, 3))).Tree?;
  }

  ghost function FourKeys(a: Node, b: Node, c: Node, d: Node): Tree {
    Tree(a, BLACK, Single(b, BLACK, 1), 2, Tree(c, BLACK, Leaf, 3, Single(d, RED, 4)))
  }

  lemma FourthKey(a: Node, b: Node, c: Node, d: Node)
    ensures WithKey(Tree(a, BLACK, Single(b, RED, 1), 2, Single(c, RED, 3)), d, 4) == FourKeys(a, b, c, d)
  {
    var path := RightOf(a, BLACK, 2, Single(b, RED, 1), Top);
    var below := RightOf(c, RED, 3, Leaf, path);
    assert Descent(Single(c, RED, 3), 4, path) == Descent(Leaf, 4, below) == below;
    var turned := Tree(a, RED, Single(b, BLACK, 1), 2, Tree(c, BLACK, Leaf, 3, LeafNode(d, 4)));
    assert Repaired(below, LeafNode(d, 4)) == turned;
    assert FixUp(Top, turned) == Recolored(turned, BLACK);
  }

  lemma FourInsertions(nodes: seq<Node>)
    requires |nodes| == 4
    ensures History(nodes, [2, 1, 3, 4]) == FourKeys(nodes[0], nodes[1], nodes[2], nodes[3])
  {
    hide WithKey, FourKeys;
    FirstKey(nodes[0]);
    SecondKey(nodes[0], nodes[1]);
    ThirdKey(nodes[0], nodes[1], nodes[2]);
    FourthKey(nodes[0], nodes[1], nodes[2], nodes[3]);
    assert [2, 1, 3, 4][..3] == [2, 1, 3] && [2, 1, 3][..2] == [2, 1] && [2, 1][..1] == [2] && [2][..0] == [];
    HistoryGrows(nodes[..1], [2]);
    HistoryGrows(nodes[..2], [2, 1]);
    HistoryGrows(nodes[..3], [2, 1, 3]);
    HistoryGrows(nodes, [2, 1, 3, 4]);
    assert nodes[..3][..2] == nodes[..2] && nodes[..2][..1] == nodes[..1];
    assert History(nodes[..1][..0], []) == Leaf;
  }

  lemma HistoryGrows(nodes: seq<Node>, keys: seq<int>)
    requires |nodes| == |keys| && keys != []
    ensures var n := |keys| - 1;
      History(nodes, keys) == WithKey(History(nodes[..n], keys[..n]), nodes[n], keys[n])
  {
  }

  lemma DeletionUnbalances(nodes: seq<Node>)
    requires |nodes| == 4
    ensures var t := History(nodes, [2, 1, 3, 4]); RedBlack(t) && Search(t) && !Balanced(Deleted(t, 1))
  {
    hide History, RedBlack, Search, FourKeys, Balanced, Deleted;
    HistoryIsRedBlack(nodes, [2, 1, 3, 4]);
    FourInsertions(nodes);
    FourKeysUnbalanced(nodes[0], nodes[1], nodes[2], nodes[3]);
  }

  lemma FourKeysUnbalanced(a: Node, b: Node, c: Node, d: Node)
    ensures !Balanced(Deleted(FourKeys(a, b, c, d), 1))
  {
    var r := Tree(c, BLACK, Leaf, 3, Single(d, RED, 4));
    assert Deleted(Single(b, BLACK, 1), 1) == Leaf;
    assert Deleted(FourKeys(a, b, c, d), 1) == Tree(a, BLACK, Leaf, 2, r);
    assert BlackHeight(r) == BlackHeight(Leaf) + 1;
  }
}
