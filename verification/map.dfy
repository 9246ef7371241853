// tools/map.c on the heap: the red-black tree of breakpoint addresses.
module Map {
  import opened MapTree

  ghost function Nodes(t: Tree): set<Node> {
    if t.Leaf? then {} else Nodes(t.left) + {t.node} + Nodes(t.right)
  }

  ghost function PathNodes(c: Path): set<Node> {
    match c
    case Top => {}
    case LeftOf(n, _, _, right, up) => {n} + Nodes(right) + PathNodes(up)
    case RightOf(n, _, _, left, up) => {n} + Nodes(left) + PathNodes(up)
  }

  // No node occurs twice
  ghost predicate Distinct(t: Tree) {
    t.Tree? ==>
      && t.node !in Nodes(t.left) && t.node !in Nodes(t.right) && Nodes(t.left) !! Nodes(t.right)
      && Distinct(t.left) && Distinct(t.right)
  }

  ghost predicate DistinctPath(c: Path) {
    match c
    case Top => true
    case LeftOf(n, _, _, right, up) =>
      n !in Nodes(right) && n !in PathNodes(up) && Nodes(right) !! PathNodes(up) && Distinct(right) && DistinctPath(up)
    case RightOf(n, _, _, left, up) =>
      n !in Nodes(left) && n !in PathNodes(up) && Nodes(left) !! PathNodes(up) && Distinct(left) && DistinctPath(up)
  }

  ghost function Root(t: Tree): Node? {
    if t.Leaf? then null else t.node
  }

  ghost function ParentOf(c: Path): Node? {
    if c.Top? then null else c.node
  }

  // The heap holds t, below the given parent
  ghost predicate Holds(t: Tree, parent: Node?)
    reads Nodes(t)
  {
    t.Tree? ==>
      && t.node.parent == parent && t.node.color == t.color && t.node.data == t.data
      && t.node.left == Root(t.left) && t.node.right == Root(t.right)
      && Holds(t.left, t.node) && Holds(t.right, t.node)
  }

  // The heap holds the path, with hole in place of the subtree
  ghost predicate HoldsPath(c: Path, hole: Node?)
    reads PathNodes(c)
  {
    match c
    case Top => true
    case LeftOf(n, color, data, right, up) =>
      && n.color == color && n.data == data && n.left == hole && n.right == Root(right)
      && n.parent == ParentOf(up) && Holds(right, n) && HoldsPath(up, n)
    case RightOf(n, color, data, left, up) =>
      && n.color == color && n.data == data && n.left == Root(left) && n.right == hole
      && n.parent == ParentOf(up) && Holds(left, n) && HoldsPath(up, n)
  }

  // The heap holds Plug(c, t), in two parts
  ghost predicate Focus(c: Path, t: Tree)
    reads PathNodes(c), Nodes(t)
  {
    && Distinct(t) && DistinctPath(c) && PathNodes(c) !! Nodes(t)
    && Holds(t, ParentOf(c)) && HoldsPath(c, Root(t))
  }

  // *root
  ghost function RootOf(c: Path, top: Node?): Node?
  {
    match c
    case Top => top
    case LeftOf(n, _, _, _, up) => RootOf(up, n)
    case RightOf(n, _, _, _, up) => RootOf(up, n)
  }

  ghost function RotatedLeft(t: Tree): Tree
    requires t.Tree? && t.right.Tree?
  {
    var r := t.right;
    Tree(r.node, r.color, Tree(t.node, t.color, t.left, t.data, r.left), r.data, r.right)
  }

  ghost function RotatedRight(t: Tree): Tree
    requires t.Tree? && t.left.Tree?
  {
    var l := t.left;
    Tree(l.node, l.color, l.left, l.data, Tree(t.node, t.color, l.right, t.data, t.right))
  }

  lemma RotatedLeftNodes(t: Tree)
    requires t.Tree? && t.right.Tree? && Distinct(t)
    ensures Distinct(RotatedLeft(t)) && Nodes(RotatedLeft(t)) == Nodes(t)
    ensures var a, b, d := t.left, t.right.left, t.right.right;
      && Nodes(t) == Nodes(a) + Nodes(b) + Nodes(d) + {t.node, t.right.node} && t.node != t.right.node
      && Nodes(a) !! Nodes(b) && Nodes(a) !! Nodes(d) && Nodes(b) !! Nodes(d) && Distinct(b)
      && (forall n | n in {t.node, t.right.node} :: n !in Nodes(a) && n !in Nodes(b) && n !in Nodes(d))
  {
    var r := RotatedLeft(t);
    assert Distinct(t.right);
    assert Nodes(t.right) == Nodes(t.right.left) + {t.right.node} + Nodes(t.right.right);
    assert Nodes(r.left) == Nodes(r.left.left) + {t.node} + Nodes(r.left.right);
    assert Distinct(r.left);
  }

  lemma RotatedLeftHolds(t: Tree, parent: Node?)
    requires t.Tree? && t.right.Tree?
    requires var x, y := t.node, t.right.node;
      && x.color == t.color && x.data == t.data && x.left == Root(t.left) && x.right == Root(t.right.left)
          && x.parent == y
      && y.color == t.right.color && y.data == t.right.data && y.left == x && y.right == Root(t.right.right)
          && y.parent == parent
      && Holds(t.left, x) && Holds(t.right.left, x) && Holds(t.right.right, y)
    ensures Holds(RotatedLeft(t), parent)
  {
    assert Holds(RotatedLeft(t).left, t.right.node);
  }

  lemma RotatedRightNodes(t: Tree)
    requires t.Tree? && t.left.Tree? && Distinct(t)
    ensures Distinct(RotatedRight(t)) && Nodes(RotatedRight(t)) == Nodes(t)
    ensures var a, b, d := t.right, t.left.right, t.left.left;
      && Nodes(t) == Nodes(a) + Nodes(b) + Nodes(d) + {t.node, t.left.node} && t.node != t.left.node
      && Nodes(a) !! Nodes(b) && Nodes(a) !! Nodes(d) && Nodes(b) !! Nodes(d) && Distinct(b)
      && (forall n | n in {t.node, t.left.node} :: n !in Nodes(a) && n !in Nodes(b) && n !in Nodes(d))
  {
    var r := RotatedRight(t);
    assert Distinct(t.left);
    assert Nodes(t.left) == Nodes(t.left.left) + {t.left.node} + Nodes(t.left.right);
    assert Nodes(r.right) == Nodes(r.right.left) + {t.node} + Nodes(r.right.right);
    assert Distinct(r.right);
  }

  lemma RotatedRightHolds(t: Tree, parent: Node?)
    requires t.Tree? && t.left.Tree?
    requires var x, y := t.node, t.left.node;
      && x.color == t.color && x.data == t.data && x.right == Root(t.right) && x.left == Root(t.left.right)
          && x.parent == y
      && y.color == t.left.color && y.data == t.left.data && y.right == x && y.left == Root(t.left.left)
          && y.parent == parent
      && Holds(t.right, x) && Holds(t.left.right, x) && Holds(t.left.left, y)
    ensures Holds(RotatedRight(t), parent)
  {
    assert Holds(RotatedRight(t).right, t.left.node);
  }

  method SetParent(n: Node?, p: Node, ghost t: Tree, ghost p0: Node?)
    requires Distinct(t) && Holds(t, p0) && n == Root(t)
    modifies (if n == null then {} else {n})`parent
    ensures Holds(t, p)
  {
    if n != null {
      n.parent := p;
    }
  }

  // The child pointer that leads to the hole
  method Relink(root0: Node?, x: Node, y: Node, ghost c: Path) returns (root: Node?)
    requires DistinctPath(c) && HoldsPath(c, x) && root0 == RootOf(c, x)
    requires x !in PathNodes(c) && x.parent == ParentOf(c)
    modifies PathNodes(c)
    ensures HoldsPath(c, y) && root == RootOf(c, y)
  {
    root := root0;
    if x.parent == null {
      root := y;
    } else if x == x.parent.left {
      x.parent.left := y;
    } else {
      x.parent.right := y;
    }
  }

  // A cursor at t in the tree that *root points to
  ghost predicate Cursor(all: set<Node>, root: Node?, c: Path, t: Tree)
    reads PathNodes(c), Nodes(t)
  {
    Focus(c, t) && Nodes(t) + PathNodes(c) <= all && root == RootOf(c, Root(t))
  }

  // Before a left rotation at t, below parent
  ghost predicate BeforeLeft(t: Tree, parent: Node?)
    requires t.Tree? && t.right.Tree?
    reads t.node, t.right.node, Nodes(t.left), Nodes(t.right.left), Nodes(t.right.right)
  {
    var x, y, a, b, d := t.node, t.right.node, t.left, t.right.left, t.right.right;
    && x.color == t.color && x.data == t.data && x.left == Root(a) && x.right == y && x.parent == parent
    && y.color == t.right.color && y.data == t.right.data && y.left == Root(b) && y.right == Root(d)
    && Holds(a, x) && Holds(b, y) && Holds(d, y)
  }

  // Half way: y is below parent, and x has y's inner subtree
  ghost predicate MidwayLeft(t: Tree, parent: Node?)
    requires t.Tree? && t.right.Tree?
    reads t.node, t.right.node, Nodes(t.left), Nodes(t.right.left), Nodes(t.right.right)
  {
    var x, y, a, b, d := t.node, t.right.node, t.left, t.right.left, t.right.right;
    && x.color == t.color && x.data == t.data && x.left == Root(a) && x.right == Root(b) && x.parent == parent
    && y.color == t.right.color && y.data == t.right.data && y.right == Root(d) && y.parent == parent
    && Holds(a, x) && Holds(b, x) && Holds(d, y)
  }

  method LeftInner(x: Node, ghost t: Tree, ghost parent: Node?, ghost all: set<Node>)
    requires t.Tree? && t.right.Tree? && x == t.node && Distinct(t) && Nodes(t) <= all && BeforeLeft(t, parent)
    modifies Nodes(t)
    ensures MidwayLeft(t, parent)
  {
    RotatedLeftNodes(t);
    ghost var b := t.right.left;
    assert b.Tree? ==> b.node in Nodes(b);
    hide Nodes, Distinct;
    var y := x.right;
    x.right := y.left;
    SetParent(x.right, x, b, y);
    y.parent := x.parent;
  }

  method LeftOuter(x: Node, y: Node, ghost t: Tree, ghost parent: Node?, ghost all: set<Node>)
    requires t.Tree? && t.right.Tree? && x == t.node && y == t.right.node && Distinct(t) && Nodes(t) <= all
        && MidwayLeft(t, parent)
    modifies x, y
    ensures Holds(RotatedLeft(t), parent)
  {
    RotatedLeftNodes(t);
    hide Nodes, Distinct, RotatedLeft;
    y.left := x;
    x.parent := y;
    RotatedLeftHolds(t, parent);
  }

  lemma AroundLeft(all: set<Node>, root: Node?, c: Path, t: Tree)
    requires Cursor(all, root, c, t) && t.Tree? && t.right.Tree?
    ensures BeforeLeft(t, ParentOf(c)) && Distinct(t) && DistinctPath(c) && HoldsPath(c, t.node)
        && root == RootOf(c, t.node)
    ensures PathNodes(c) !! Nodes(t) && Nodes(t) + PathNodes(c) <= all && t.node in Nodes(t) && t.right.node in Nodes(t)
    ensures Nodes(RotatedLeft(t)) == Nodes(t) && Distinct(RotatedLeft(t)) && Root(RotatedLeft(t)) == t.right.node
    ensures Nodes(t.left) <= Nodes(t) && Nodes(t.right.left) <= Nodes(t) && Nodes(t.right.right) <= Nodes(t)
  {
    assert Holds(t.right, t.node);
    RotatedLeftNodes(t);
  }

  method RotateLeft(root0: Node?, x: Node, ghost c: Path, ghost t: Tree, ghost all: set<Node>) returns (root: Node?)
    requires Cursor(all, root0, c, t) && t.Tree? && t.right.Tree? && x == t.node
    modifies all
    ensures Cursor(all, root, c, RotatedLeft(t))
  {
    AroundLeft(all, root0, c, t);
    hide Nodes, Distinct, PathNodes, DistinctPath, HoldsPath, RootOf, RotatedLeft, Holds;
    var y := x.right;
    LeftInner(x, t, ParentOf(c), all);
    root := Relink(root0, x, y, c);
    LeftOuter(x, y, t, ParentOf(c), all);
  }

  // Before a right rotation at t, below parent
  ghost predicate BeforeRight(t: Tree, parent: Node?)
    requires t.Tree? && t.left.Tree?
    reads t.node, t.left.node, Nodes(t.right), Nodes(t.left.right), Nodes(t.left.left)
  {
    var x, y, a, b, d := t.node, t.left.node, t.right, t.left.right, t.left.left;
    && x.color == t.color && x.data == t.data && x.right == Root(a) && x.left == y && x.parent == parent
    && y.color == t.left.color && y.data == t.left.data && y.right == Root(b) && y.left == Root(d)
    && Holds(a, x) && Holds(b, y) && Holds(d, y)
  }

  // Half way: y is below parent, and x has y's inner subtree
  ghost predicate MidwayRight(t: Tree, parent: Node?)
    requires t.Tree? && t.left.Tree?
    reads t.node, t.left.node, Nodes(t.right), Nodes(t.left.right), Nodes(t.left.left)
  {
    var x, y, a, b, d := t.node, t.left.node, t.right, t.left.right, t.left.left;
    && x.color == t.color && x.data == t.data && x.right == Root(a) && x.left == Root(b) && x.parent == parent
    && y.color == t.left.color && y.data == t.left.data && y.left == Root(d) && y.parent == parent
    && Holds(a, x) && Holds(b, x) && Holds(d, y)
  }

  method RightInner(x: Node, ghost t: Tree, ghost parent: Node?, ghost all: set<Node>)
    requires t.Tree? && t.left.Tree? && x == t.node && Distinct(t) && Nodes(t) <= all && BeforeRight(t, parent)
    modifies Nodes(t)
    ensures MidwayRight(t, parent)
  {
    RotatedRightNodes(t);
    ghost var b := t.left.right;
    assert b.Tree? ==> b.node in Nodes(b);
    hide Nodes, Distinct;
    var y := x.left;
    x.left := y.right;
    SetParent(x.left, x, b, y);
    y.parent := x.parent;
  }

  method RightOuter(x: Node, y: Node, ghost t: Tree, ghost parent: Node?, ghost all: set<Node>)
    requires t.Tree? && t.left.Tree? && x == t.node && y == t.left.node && Distinct(t) && Nodes(t) <= all
        && MidwayRight(t, parent)
    modifies x, y
    ensures Holds(RotatedRight(t), parent)
  {
    RotatedRightNodes(t);
    hide Nodes, Distinct, RotatedRight;
    y.right := x;
    x.parent := y;
    RotatedRightHolds(t, parent);
  }

  lemma AroundRight(all: set<Node>, root: Node?, c: Path, t: Tree)
    requires Cursor(all, root, c, t) && t.Tree? && t.left.Tree?
    ensures BeforeRight(t, ParentOf(c)) && Distinct(t) && DistinctPath(c) && HoldsPath(c, t.node)
        && root == RootOf(c, t.node)
    ensures PathNodes(c) !! Nodes(t) && Nodes(t) + PathNodes(c) <= all && t.node in Nodes(t) && t.left.node in Nodes(t)
    ensures Nodes(RotatedRight(t)) == Nodes(t) && Distinct(RotatedRight(t)) && Root(RotatedRight(t)) == t.left.node
    ensures Nodes(t.right) <= Nodes(t) && Nodes(t.left.right) <= Nodes(t) && Nodes(t.left.left) <= Nodes(t)
  {
    assert Holds(t.left, t.node);
    RotatedRightNodes(t);
  }

  method RotateRight(root0: Node?, x: Node, ghost c: Path, ghost t: Tree, ghost all: set<Node>) returns (root: Node?)
    requires Cursor(all, root0, c, t) && t.Tree? && t.left.Tree? && x == t.node
    modifies all
    ensures Cursor(all, root, c, RotatedRight(t))
  {
    AroundRight(all, root0, c, t);
    hide Nodes, Distinct, PathNodes, DistinctPath, HoldsPath, RootOf, RotatedRight, Holds;
    var y := x.left;
    RightInner(x, t, ParentOf(c), all);
    root := Relink(root0, x, y, c);
    RightOuter(x, y, t, ParentOf(c), all);
  }

  lemma Up(all: set<Node>, root: Node?, c: Path, t: Tree)
    requires Cursor(all, root, c, t) && !c.Top?
    ensures Cursor(all, root, c.up, Frame(c, t))
  {
  }

  lemma DownLeft(all: set<Node>, root: Node?, c: Path, t: Tree)
    requires Cursor(all, root, c, t) && t.Tree?
    ensures Cursor(all, root, LeftOf(t.node, t.color, t.data, t.right, c), t.left)
  {
  }

  lemma DownRight(all: set<Node>, root: Node?, c: Path, t: Tree)
    requires Cursor(all, root, c, t) && t.Tree?
    ensures Cursor(all, root, RightOf(t.node, t.color, t.data, t.left, c), t.right)
  {
  }

  method Paint(n: Node, color: Color, ghost all: set<Node>, ghost root: Node?, ghost c: Path, ghost t: Tree)
    requires Cursor(all, root, c, t) && t.Tree? && n == t.node
    modifies all`color
    ensures Cursor(all, root, c, t.(color := color))
  {
    n.color := color;
  }

  // What the heap says at the cursor
  lemma Look(all: set<Node>, root: Node?, c: Path, t: Tree)
    requires Cursor(all, root, c, t)
    ensures t.Tree? ==>
      && t.node in all && t.node.parent == ParentOf(c) && t.node.color == t.color && t.node.data == t.data
      && t.node.left == Root(t.left) && t.node.right == Root(t.right)
      && (root == t.node <==> c.Top?)
    ensures !c.Top? ==> c.node in all && c.node.parent == ParentOf(c.up) && c.node.color == c.color
    ensures !c.Top? && t.Tree? ==> (c.LeftOf? <==> c.node.left == t.node) && (c.RightOf? <==> c.node.right == t.node)
  {
    RootAbove(c, Root(t));
  }

  lemma {:induction false} RootAbove(c: Path, top: Node?)
    ensures if c.Top? then RootOf(c, top) == top else RootOf(c, top) != null && RootOf(c, top) in PathNodes(c)
  {
    match c
    case Top =>
    case LeftOf(n, _, _, _, up) => RootAbove(up, n);
    case RightOf(n, _, _, _, up) => RootAbove(up, n);
  }

  // The turn of the loop for a grandparent whose left subtree holds the violation
  method FixLeft(root0: Node?, pt0: Node, ghost all: set<Node>, ghost c: Path, ghost t: Tree)
      returns (root: Node?, pt: Node)
    requires Cursor(all, root0, c, t) && Violates(c, t) && pt0 == t.node && c.up.LeftOf?
    modifies all
    ensures Cursor(all, root, c.up.up, Repaired(c, t)) && pt == Repaired(c, t).node
  {
    hide Cursor;
    root, pt := root0, pt0;
    ghost var up, p := c.up, Frame(c, t);
    Look(all, root, c, t);
    Up(all, root, c, t);
    Look(all, root, up, p);
    var parent_pt := pt.parent;
    var grand_parent_pt := parent_pt.parent;
    ghost var g := Frame(up, p);
    Up(all, root, up, p);
    Look(all, root, up.up, g);
    var uncle_pt := grand_parent_pt.right;
    DownRight(all, root, up.up, g);
    Look(all, root, RightOf(g.node, g.color, g.data, g.left, up.up), g.right);
    if uncle_pt != null && uncle_pt.color == RED {
      Paint(grand_parent_pt, RED, all, root, up.up, g);
      ghost var g1 := g.(color := RED);
      DownLeft(all, root, up.up, g1);
      ghost var c1 := LeftOf(g1.node, g1.color, g1.data, g1.right, up.up);
      Paint(parent_pt, BLACK, all, root, c1, p);
      Up(all, root, c1, p.(color := BLACK));
      ghost var g2 := Frame(c1, p.(color := BLACK));
      DownRight(all, root, up.up, g2);
      ghost var c2 := RightOf(g2.node, g2.color, g2.data, g2.left, up.up);
      Paint(uncle_pt, BLACK, all, root, c2, g2.right);
      Up(all, root, c2, g2.right.(color := BLACK));
      pt := grand_parent_pt;
    } else {
      ghost var p1 := p;
      if pt == parent_pt.right {
        root := RotateLeft(root, parent_pt, up, p, all);
        p1 := RotatedLeft(p);
        DownLeft(all, root, up, p1);
        Look(all, root, LeftOf(p1.node, p1.color, p1.data, p1.right, up), p1.left);
        pt := parent_pt;
        parent_pt := pt.parent;
      }
      Up(all, root, up, p1);
      ghost var g1 := Frame(up, p1);
      root := RotateRight(root, grand_parent_pt, up.up, g1, all);
      ghost var g2 := RotatedRight(g1);
      Look(all, root, up.up, g2);
      DownRight(all, root, up.up, g2);
      Look(all, root, RightOf(g2.node, g2.color, g2.data, g2.left, up.up), g2.right);
      var temp := parent_pt.color;
      Paint(parent_pt, grand_parent_pt.color, all, root, up.up, g2);
      ghost var g3 := g2.(color := g2.right.color);
      DownRight(all, root, up.up, g3);
      ghost var c3 := RightOf(g3.node, g3.color, g3.data, g3.left, up.up);
      Paint(grand_parent_pt, temp, all, root, c3, g3.right);
      Up(all, root, c3, g3.right.(color := temp));
      pt := parent_pt;
    }
  }

  // The same, mirrored
  method FixRight(root0: Node?, pt0: Node, ghost all: set<Node>, ghost c: Path, ghost t: Tree)
      returns (root: Node?, pt: Node)
    requires Cursor(all, root0, c, t) && Violates(c, t) && pt0 == t.node && c.up.RightOf?
    modifies all
    ensures Cursor(all, root, c.up.up, Repaired(c, t)) && pt == Repaired(c, t).node
  {
    hide Cursor;
    root, pt := root0, pt0;
    ghost var up, p := c.up, Frame(c, t);
    Look(all, root, c, t);
    Up(all, root, c, t);
    Look(all, root, up, p);
    var parent_pt := pt.parent;
    var grand_parent_pt := parent_pt.parent;
    ghost var g := Frame(up, p);
    Up(all, root, up, p);
    Look(all, root, up.up, g);
    var uncle_pt := grand_parent_pt.left;
    DownLeft(all, root, up.up, g);
    Look(all, root, LeftOf(g.node, g.color, g.data, g.right, up.up), g.left);
    if uncle_pt != null && uncle_pt.color == RED {
      Paint(grand_parent_pt, RED, all, root, up.up, g);
      ghost var g1 := g.(color := RED);
      DownRight(all, root, up.up, g1);
      ghost var c1 := RightOf(g1.node, g1.color, g1.data, g1.left, up.up);
      Paint(parent_pt, BLACK, all, root, c1, p);
      Up(all, root, c1, p.(color := BLACK));
      ghost var g2 := Frame(c1, p.(color := BLACK));
      DownLeft(all, root, up.up, g2);
      ghost var c2 := LeftOf(g2.node, g2.color, g2.data, g2.right, up.up);
      Paint(uncle_pt, BLACK, all, root, c2, g2.left);
      Up(all, root, c2, g2.left.(color := BLACK));
      pt := grand_parent_pt;
    } else {
      ghost var p1 := p;
      if pt == parent_pt.left {
        root := RotateRight(root, parent_pt, up, p, all);
        p1 := RotatedRight(p);
        DownRight(all, root, up, p1);
        Look(all, root, RightOf(p1.node, p1.color, p1.data, p1.left, up), p1.right);
        pt := parent_pt;
        parent_pt := pt.parent;
      }
      Up(all, root, up, p1);
      ghost var g1 := Frame(up, p1);
      root := RotateLeft(root, grand_parent_pt, up.up, g1, all);
      ghost var g2 := RotatedLeft(g1);
      Look(all, root, up.up, g2);
      DownLeft(all, root, up.up, g2);
      Look(all, root, LeftOf(g2.node, g2.color, g2.data, g2.right, up.up), g2.left);
      var temp := parent_pt.color;
      Paint(parent_pt, grand_parent_pt.color, all, root, up.up, g2);
      ghost var g3 := g2.(color := g2.left.color);
      DownLeft(all, root, up.up, g3);
      ghost var c3 := LeftOf(g3.node, g3.color, g3.data, g3.right, up.up);
      Paint(grand_parent_pt, temp, all, root, c3, g3.left);
      Up(all, root, c3, g3.left.(color := temp));
      pt := parent_pt;
    }
  }

  lemma {:induction false} ToTop(all: set<Node>, root: Node?, c: Path, t: Tree)
    requires Cursor(all, root, c, t)
    ensures Cursor(all, root, Top, Plug(c, t))
    decreases c
  {
    if !c.Top? {
      Up(all, root, c, t);
      ToTop(all, root, c.up, Frame(c, t));
    }
  }

  lemma {:induction false} ToHole(all: set<Node>, root: Node?, c: Path, t: Tree)
    requires Cursor(all, root, Top, Plug(c, t))
    ensures Cursor(all, root, c, t)
    decreases c
  {
    if !c.Top? {
      ToHole(all, root, c.up, Frame(c, t));
      Looked(all, root, c, t);
    }
  }

  lemma Looked(all: set<Node>, root: Node?, c: Path, t: Tree)
    requires !c.Top? && Cursor(all, root, c.up, Frame(c, t))
    ensures Cursor(all, root, c, t)
  {
    if c.LeftOf? {
      DownLeft(all, root, c.up, Frame(c, t));
    } else {
      DownRight(all, root, c.up, Frame(c, t));
    }
  }

  method FixViolation(root0: Node?, pt0: Node, ghost all: set<Node>, ghost c0: Path, ghost t0: Tree)
      returns (root: Node?)
    requires Cursor(all, root0, c0, t0) && t0.Tree? && pt0 == t0.node
    requires NoRedRed(t0) && NoRedRedPath(c0)
    modifies all
    ensures Cursor(all, root, Top, FixUp(c0, t0))
  {
    hide Cursor, NoRedRed;
    root := root0;
    var pt := pt0;
    ghost var c, t := c0, t0;
    Look(all, root, c, t);
    while pt != root && pt.color != BLACK && pt.parent.color == RED
      invariant Cursor(all, root, c, t) && t.Tree? && pt == t.node
      invariant NoRedRed(t) && NoRedRedPath(c)
      invariant FixUp(c, t) == FixUp(c0, t0)
      invariant pt.parent == ParentOf(c) && (root == pt <==> c.Top?) && pt.color == t.color
      invariant !c.Top? ==> c.node.color == c.color
      decreases c
    {
      Up(all, root, c, t);
      Look(all, root, c.up, Frame(c, t));
      RepairedColors(c, t);
      if pt.parent == pt.parent.parent.left {
        root, pt := FixLeft(root, pt, all, c, t);
      } else {
        root, pt := FixRight(root, pt, all, c, t);
      }
      c, t := c.up.up, Repaired(c, t);
      Look(all, root, c, t);
    }
    ToTop(all, root, c, t);
    Look(all, root, Top, Plug(c, t));
    Plugged(c, t);
    Paint(root, BLACK, all, root, Top, Plug(c, t));
  }

  lemma {:induction false} Plugged(c: Path, t: Tree)
    requires t.Tree?
    ensures Plug(c, t).Tree?
    decreases c
  {
    if !c.Top? {
      Plugged(c.up, Frame(c, t));
    }
  }

  lemma Parts(t: Tree)
    requires Distinct(t) && t.Tree?
    ensures t.node !in Nodes(t.left) && t.node !in Nodes(t.right) && Nodes(t.left) !! Nodes(t.right)
    ensures Nodes(t) == Nodes(t.left) + {t.node} + Nodes(t.right) && Distinct(t.left) && Distinct(t.right)
  {
  }

  lemma {:induction false} InsertedNodes(t: Tree, leaf: Tree)
    requires Distinct(t) && leaf.Tree? && leaf.left.Leaf? && leaf.right.Leaf?
    requires leaf.node !in Nodes(t) && leaf.data !in InOrder(t)
    ensures Distinct(Inserted(t, leaf)) && Nodes(Inserted(t, leaf)) == Nodes(t) + {leaf.node}
  {
    if t.Tree? {
      SubtreeKeys(t, leaf.data);
      if leaf.data < t.data {
        InsertedNodes(t.left, leaf);
      } else {
        InsertedNodes(t.right, leaf);
      }
    }
  }

  // root->left = the grown subtree; root->left->parent = root
  method AttachLeft(root: Node, child: Node, ghost t: Tree, ghost parent: Node?, ghost grown: Tree, ghost p0: Node?,
                    ghost all: set<Node>)
    requires Distinct(t) && t.Tree? && root == t.node && Nodes(t) + Nodes(grown) <= all
    requires root.parent == parent && root.color == t.color && root.data == t.data && root.right == Root(t.right)
        && Holds(t.right, root)
    requires Distinct(grown) && Holds(grown, p0) && child == Root(grown) && root !in Nodes(grown)
        && Nodes(grown) !! Nodes(t.right)
    modifies root`left, child`parent
    ensures Holds(t.(left := grown), parent)
  {
    Parts(t);
    assert child in Nodes(grown);
    hide Nodes, Distinct;
    root.left := child;
    SetParent(root.left, root, grown, p0);
    assert Holds(t.right, root);
  }

  // root->right = the grown subtree; root->right->parent = root
  method AttachRight(root: Node, child: Node, ghost t: Tree, ghost parent: Node?, ghost grown: Tree, ghost p0: Node?,
                     ghost all: set<Node>)
    requires Distinct(t) && t.Tree? && root == t.node && Nodes(t) + Nodes(grown) <= all
    requires root.parent == parent && root.color == t.color && root.data == t.data && root.left == Root(t.left)
        && Holds(t.left, root)
    requires Distinct(grown) && Holds(grown, p0) && child == Root(grown) && root !in Nodes(grown)
        && Nodes(grown) !! Nodes(t.left)
    modifies root`right, child`parent
    ensures Holds(t.(right := grown), parent)
  {
    Parts(t);
    assert child in Nodes(grown);
    hide Nodes, Distinct;
    root.right := child;
    SetParent(root.right, root, grown, p0);
    assert Holds(t.left, root);
  }

  lemma InsertedAlone(t: Tree, leaf: Tree)
    requires Root(t) == null && leaf.Tree?
    ensures Inserted(t, leaf) == leaf
  {
  }

  lemma InsertedParts(t: Tree, leaf: Tree)
    requires t.Tree? && Distinct(t) && leaf.Tree? && leaf.left.Leaf? && leaf.right.Leaf?
    requires leaf.node !in Nodes(t) && leaf.data !in InOrder(t)
    ensures Nodes(Inserted(t.left, leaf)) == Nodes(t.left) + {leaf.node} && Distinct(Inserted(t.left, leaf))
    ensures Nodes(Inserted(t.right, leaf)) == Nodes(t.right) + {leaf.node} && Distinct(Inserted(t.right, leaf))
    ensures Root(Inserted(t.left, leaf)) in Nodes(t.left) + {leaf.node}
    ensures Root(Inserted(t.right, leaf)) in Nodes(t.right) + {leaf.node}
    ensures Inserted(t, leaf) ==
      if leaf.data < t.data then t.(left := Inserted(t.left, leaf)) else t.(right := Inserted(t.right, leaf))
  {
    SubtreeKeys(t, leaf.data);
    Parts(t);
    InsertedNodes(t.left, leaf);
    InsertedNodes(t.right, leaf);
  }

  lemma HoldsParts(t: Tree, parent: Node?)
    requires t.Tree? && Holds(t, parent)
    ensures Holds(t.left, t.node) && Holds(t.right, t.node)
    ensures t.node.parent == parent && t.node.color == t.color && t.node.data == t.data
    ensures t.node.left == Root(t.left) && t.node.right == Root(t.right)
  {
  }

  // A leaf alone has no parent yet
  method InsertBST(root: Node?, pt: Node, ghost t: Tree, ghost parent: Node?, ghost all: set<Node>) returns (r: Node)
    requires Distinct(t) && Holds(t, parent) && root == Root(t) && Nodes(t) <= all
    requires pt in all && pt !in Nodes(t) && Holds(LeafNode(pt, pt.data), null)
    requires pt.data !in InOrder(t)
    modifies Nodes(t), pt
    ensures Holds(Inserted(t, LeafNode(pt, pt.data)), if t.Leaf? then null else parent)
    ensures r == Root(Inserted(t, LeafNode(pt, pt.data))) && pt.data == old(pt.data)
    decreases t
  {
    hide Nodes, Distinct, InOrder, Holds, Inserted;
    ghost var leaf := LeafNode(pt, pt.data);
    if root == null {
      InsertedAlone(t, leaf);
      return pt;
    }
    SubtreeKeys(t, pt.data);
    Parts(t);
    InsertedParts(t, leaf);
    HoldsParts(t, parent);
    if pt.data < root.data {
      var left := InsertBST(root.left, pt, t.left, root, all);
      AttachLeft(root, left, t, parent, Inserted(t.left, leaf), if t.left.Leaf? then null else root, all);
    } else if pt.data > root.data {
      var right := InsertBST(root.right, pt, t.right, root, all);
      AttachRight(root, right, t, parent, Inserted(t.right, leaf), if t.right.Leaf? then null else root, all);
    }
    r := root;
  }

  // *root is a red-black search tree
  ghost predicate IsMap(root: Node?, t: Tree)
    reads Nodes(t)
  {
    Distinct(t) && Holds(t, null) && root == Root(t) && RedBlack(t) && Search(t)
  }

  lemma Inserting(all: set<Node>, t: Tree, pt: Node, root: Node?)
    requires Distinct(t) && pt !in Nodes(t) && pt.data !in InOrder(t) && Nodes(t) + {pt} <= all
    requires Holds(Inserted(t, LeafNode(pt, pt.data)), null) && root == Root(Inserted(t, LeafNode(pt, pt.data)))
    ensures Cursor(all, root, Descent(t, pt.data, Top), LeafNode(pt, pt.data))
  {
    var leaf := LeafNode(pt, pt.data);
    InsertedNodes(t, leaf);
    InsertedIsPlugged(t, leaf, Top);
    assert Cursor(all, root, Top, Inserted(t, leaf));
    ToHole(all, root, Descent(t, pt.data, Top), leaf);
  }

  lemma CursorAtTop(all: set<Node>, root: Node?, t: Tree)
    requires Cursor(all, root, Top, t) && RedBlack(t) && Search(t)
    ensures IsMap(root, t) && Nodes(t) <= all
  {
  }

  method InsertNode(root0: Node?, data: int, ghost t: Tree, ghost nodes: set<Node>)
      returns (root: Node?, ghost t1: Tree, ghost pt: Node)
    requires IsMap(root0, t) && nodes == Nodes(t) && data !in InOrder(t)
    modifies nodes
    ensures fresh(pt) && t1 == WithKey(t, pt, data) && Nodes(t1) <= Nodes(t) + {pt}
    ensures IsMap(root, t1)
    ensures multiset(InOrder(t1)) == multiset(InOrder(t)) + multiset{data}
  {
    hide Nodes, Cursor, Distinct, Balanced, NoRedRed, Search, Descent, FixUp, Inserted, InOrder;
    var n := new Node(data);
    pt := n;
    ghost var all := nodes + {pt};
    LeafHolds(pt);
    root := InsertBST(root0, n, t, null, all);
    Inserting(all, t, pt, root);
    WithKeyKeeps(t, pt, data);
    t1 := WithKey(t, pt, data);
    DescentIsSafe(t, data, pt);
    root := FixViolation(root, n, all, Descent(t, data, Top), LeafNode(pt, data));
    CursorAtTop(all, root, t1);
  }

  lemma DescentIsSafe(t: Tree, data: int, pt: Node)
    requires RedBlack(t)
    ensures NoRedRed(LeafNode(pt, data)) && NoRedRedPath(Descent(t, data, Top))
  {
    DescentKeeps(t, data, Top);
  }

  lemma LeafHolds(pt: Node)
    requires pt.color == RED && pt.left == null && pt.right == null && pt.parent == null
    ensures Holds(LeafNode(pt, pt.data), null)
  {
  }

  // The heap holds t, colours included, through its child pointers alone: all that findNode and deleteNode rely on
  ghost predicate Links(t: Tree)
    reads Nodes(t)
  {
    t.Tree? ==>
      && t.node.data == t.data && t.node.color == t.color
      && t.node.left == Root(t.left) && t.node.right == Root(t.right)
      && Links(t.left) && Links(t.right)
  }

  lemma {:induction false} HoldsLinks(t: Tree, parent: Node?)
    requires Holds(t, parent)
    ensures Links(t)
  {
    if t.Tree? {
      HoldsLinks(t.left, t.node);
      HoldsLinks(t.right, t.node);
    }
  }

  method FindNode(root: Node?, data: int, ghost t: Tree) returns (n: Node?)
    requires Links(t) && root == Root(t) && Search(t)
    ensures n != null <==> data in InOrder(t)
    ensures n != null ==> n in Nodes(t) && n.data == data
    decreases t
  {
    if root == null || root.data == data {
      return root;
    }
    IncreasingParts(InOrder(t.left), t.data, InOrder(t.right));
    if root.data < data {
      n := FindNode(root.right, data, t.right);
    } else {
      n := FindNode(root.left, data, t.left);
    }
  }

  method MinValueNode(node: Node, ghost t: Tree) returns (current: Node)
    requires Links(t) && node == Root(t)
    ensures current.data == Least(t)
  {
    current := node;
    ghost var s := t;
    while current.left != null
      invariant Links(s) && current == Root(s) && Least(s) == Least(t)
      decreases s
    {
      current := current.left;
      s := s.left;
    }
  }

  lemma {:induction false} DeletedNodes(t: Tree, key: int)
    requires Distinct(t)
    ensures Distinct(Deleted(t, key)) && Nodes(Deleted(t, key)) <= Nodes(t)
    decreases t
  {
    if t.Tree? {
      if key < t.data {
        DeletedNodes(t.left, key);
      } else if key > t.data {
        DeletedNodes(t.right, key);
      } else if t.left.Tree? && t.right.Tree? {
        DeletedNodes(t.right, Least(t.right));
      }
    }
  }

  // freed is the node given back to the allocator
  method DeleteNodeBST(root: Node?, data: int, ghost t: Tree, ghost all: set<Node>)
      returns (r: Node?, ghost freed: Node?)
    requires Distinct(t) && Links(t) && root == Root(t) && Nodes(t) <= all && Search(t)
    modifies Nodes(t)
    ensures Links(Deleted(t, data)) && r == Root(Deleted(t, data))
    ensures if data in InOrder(t) then freed in Nodes(t) && freed !in Nodes(Deleted(t, data)) else freed == null
    decreases t, 2
  {
    hide Distinct, Least, Increasing, Nodes, Links, InOrder, Deleted;
    r, freed := root, null;
    if root == null {
      NothingDeleted(t, data);
      return;
    }
    LinksParts(t);
    DeletedParts(t, data);
    Parts(t);
    if data < root.data {
      root.left, freed := DeleteNodeBST(root.left, data, t.left, all);
      LinksNode(t.(left := Deleted(t.left, data)));
    } else if data > root.data {
      root.right, freed := DeleteNodeBST(root.right, data, t.right, all);
      LinksNode(t.(right := Deleted(t.right, data)));
    } else {
      r, freed := DeleteFound(root, t, all);
    }
  }

  lemma NothingDeleted(t: Tree, key: int)
    requires Root(t) == null
    ensures Deleted(t, key) == t && key !in InOrder(t) && Links(t)
  {
  }

  lemma LinksParts(t: Tree)
    requires t.Tree? && Links(t)
    ensures t.node.data == t.data && t.node.left == Root(t.left) && t.node.right == Root(t.right)
    ensures t.node.color == t.color && Links(t.left) && Links(t.right)
  {
  }

  lemma LinksNode(t: Tree)
    requires t.Tree? && t.node.data == t.data && t.node.color == t.color
    requires t.node.left == Root(t.left) && t.node.right == Root(t.right) && Links(t.left) && Links(t.right)
    ensures Links(t)
  {
  }

  // What deletion does one level down
  lemma DeletedParts(t: Tree, key: int)
    requires t.Tree? && Distinct(t) && Search(t)
    ensures Search(t.left) && Search(t.right)
    ensures key < t.data ==>
      && Deleted(t, key) == t.(left := Deleted(t.left, key)) && (key in InOrder(t) <==> key in InOrder(t.left))
      && Nodes(Deleted(t, key)) == Nodes(Deleted(t.left, key)) + {t.node} + Nodes(t.right)
    ensures key > t.data ==>
      && Deleted(t, key) == t.(right := Deleted(t.right, key)) && (key in InOrder(t) <==> key in InOrder(t.right))
      && Nodes(Deleted(t, key)) == Nodes(t.left) + {t.node} + Nodes(Deleted(t.right, key))
    ensures Nodes(Deleted(t.left, key)) <= Nodes(t.left) && Nodes(Deleted(t.right, key)) <= Nodes(t.right)
    ensures key == t.data ==> key in InOrder(t)
  {
    DeletedNodes(t.left, key);
    DeletedNodes(t.right, key);
    IncreasingParts(InOrder(t.left), t.data, InOrder(t.right));
    assert InOrder(t)[|InOrder(t.left)|] == t.data;
  }

  // *root = *temp
  method TakeOver(root: Node, temp: Node, ghost t: Tree, ghost child: Tree, ghost all: set<Node>)
    requires Distinct(t) && t.Tree? && root == t.node && child in {t.left, t.right} && Nodes(t) <= all
    requires Links(child) && temp == Root(child)
    modifies root
    ensures Links(child.(node := root)) && temp !in Nodes(child.(node := root))
  {
    hide Distinct, Nodes, Links;
    Parts(t);
    LinksParts(child);
    Parts(child);
    NodesNode(child.(node := root));
    root.data, root.color, root.left, root.right, root.parent :=
      temp.data, temp.color, temp.left, temp.right, temp.parent;
    LinksNode(child.(node := root));
  }

  // The node of the least key above takes the place of one with two children
  method DeleteBetween(root: Node, ghost t: Tree, ghost all: set<Node>) returns (ghost freed: Node?)
    requires Distinct(t) && Links(t) && root == Root(t) && Nodes(t) <= all && Search(t)
    requires t.left.Tree? && t.right.Tree?
    modifies Nodes(t)
    ensures Links(Deleted(t, t.data)) && root == Root(Deleted(t, t.data))
    ensures freed in Nodes(t) && freed !in Nodes(Deleted(t, t.data))
    decreases t, 0
  {
    hide Distinct, Least, Increasing, InOrder, Nodes, Links, Deleted;
    Parts(t);
    LinksParts(t);
    var temp := MinValueNode(root.right, t.right);
    DeletedTwice(t);
    root.data := temp.data;
    root.right, freed := DeleteNodeBST(root.right, temp.data, t.right, all);
    LinksNode(t.(data := Least(t.right), right := Deleted(t.right, Least(t.right))));
  }

  // What deletion of a node with at most one child does
  lemma DeletedOnlyChild(t: Tree, child: Tree)
    requires t.Tree? && Distinct(t) && (t.left.Leaf? || t.right.Leaf?)
    requires child == if t.left.Tree? then t.left else t.right
    ensures child.Leaf? ==> Deleted(t, t.data) == Leaf && Nodes(Leaf) == {} && Links(Leaf)
    ensures child.Tree? ==>
      Deleted(t, t.data) == child.(node := t.node) && child.node in Nodes(t)
          && child.node !in Nodes(child.(node := t.node))
  {
    Parts(t);
    if child.Tree? {
      Parts(child);
      NodesNode(child.(node := t.node));
    }
  }

  method DeleteFound(root: Node, ghost t: Tree, ghost all: set<Node>) returns (r: Node?, ghost freed: Node?)
    requires Distinct(t) && Links(t) && root == Root(t) && Nodes(t) <= all && Search(t)
    modifies Nodes(t)
    ensures Links(Deleted(t, t.data)) && r == Root(Deleted(t, t.data))
    ensures freed in Nodes(t) && freed !in Nodes(Deleted(t, t.data))
    decreases t, 1
  {
    hide Distinct, Increasing, InOrder, Nodes, Links, Deleted;
    Parts(t);
    LinksParts(t);
    if root.left == null || root.right == null {
      var temp := if root.left != null then root.left else root.right;
      ghost var child := if t.left.Tree? then t.left else t.right;
      DeletedOnlyChild(t, child);
      if temp == null {
        r, freed := null, root;
      } else {
        TakeOver(root, temp, t, child, all);
        r, freed := root, temp;
      }
    } else {
      freed := DeleteBetween(root, t, all);
      r := root;
    }
  }

  lemma NodesNode(t: Tree)
    requires t.Tree?
    ensures Nodes(t) == Nodes(t.left) + {t.node} + Nodes(t.right)
  {
  }

  // What deletion of a node with two children does
  lemma DeletedTwice(t: Tree)
    requires t.Tree? && t.left.Tree? && t.right.Tree? && Distinct(t) && Search(t)
    ensures Search(t.right) && Least(t.right) in InOrder(t.right)
    ensures Deleted(t, t.data) == t.(data := Least(t.right), right := Deleted(t.right, Least(t.right)))
    ensures Nodes(Deleted(t, t.data)) == Nodes(t.left) + {t.node} + Nodes(Deleted(t.right, Least(t.right)))
    ensures Nodes(Deleted(t.right, Least(t.right))) <= Nodes(t.right)
  {
    DeletedNodes(t.right, Least(t.right));
    LeastIsIn(t.right);
    IncreasingParts(InOrder(t.left), t.data, InOrder(t.right));
  }

  method DeleteNode(root0: Node?, data: int, ghost t: Tree, ghost nodes: set<Node>)
      returns (root: Node?, ghost freed: Node?)
    requires Distinct(t) && Links(t) && root0 == Root(t) && Search(t) && nodes == Nodes(t)
    modifies nodes
    ensures var t1 := Deleted(t, data);
      Distinct(t1) && Links(t1) && root == Root(t1) && Search(t1) && Nodes(t1) <= nodes
    ensures multiset(InOrder(Deleted(t, data))) == multiset(InOrder(t)) - multiset{data}
    ensures data !in InOrder(t) ==> Deleted(t, data) == t
    ensures if data in InOrder(t) then freed in nodes && freed !in Nodes(Deleted(t, data)) else freed == null
    ensures RedBlack(t) ==>
      (Balanced(Deleted(t, data)) <==> data !in InOrder(t) || IsRed(Victim(t, data)) || UnlinksRoot(t, data))
  {
    hide *;
    root, freed := DeleteNodeBST(root0, data, t, nodes);
    DeletedNodes(t, data);
    DeletedInOrder(t, data);
    if RedBlack(t) {
      DeletionKeepsBalance(t, data);
    }
  }

  // Runs: any number of insertions of distinct keys from NULL, then any deletions

  method InsertAll(keys: seq<int>) returns (root: Node?, ghost t: Tree, ghost made: seq<Node>)
    requires forall i, j | 0 <= i < j < |keys| :: keys[i] != keys[j]
    ensures |made| == |keys| && t == History(made, keys) && fresh(Nodes(t))
    ensures IsMap(root, t) && multiset(InOrder(t)) == multiset(keys)
  {
    hide IsMap, WithKey, InOrder, Nodes, History;
    root, t, made := null, Leaf, [];
    EmptyMap(keys);
    var i := 0;
    while i < |keys|
      invariant 0 <= i <= |keys| && |made| == i && fresh(Nodes(t))
      invariant t == History(made, keys[..i])
      invariant IsMap(root, t) && multiset(InOrder(t)) == multiset(keys[..i])
    {
      NewKey(keys, i, InOrder(t));
      ghost var pt;
      ghost var t0 := t;
      root, t, pt := InsertNode(root, keys[i], t, Nodes(t));
      HistoryStep(made, keys[..i], pt, keys[i]);
      made := made + [pt];
      i := i + 1;
    }
    assert keys[..i] == keys;
  }

  lemma EmptyMap(keys: seq<int>)
    ensures IsMap(null, Leaf) && Nodes(Leaf) == {} && InOrder(Leaf) == []
    ensures keys[..0] == [] && History([], keys[..0]) == Leaf
  {
    EmptyTree();
  }

  lemma HistoryStep(made: seq<Node>, keys: seq<int>, pt: Node, key: int)
    requires |made| == |keys|
    ensures History(made + [pt], keys + [key]) == WithKey(History(made, keys), pt, key)
  {
    HistoryGrows(made + [pt], keys + [key]);
    assert (made + [pt])[..|keys|] == made && (keys + [key])[..|keys|] == keys;
  }

  lemma NewKey(keys: seq<int>, i: nat, s: seq<int>)
    requires forall j, k | 0 <= j < k < |keys| :: keys[j] != keys[k]
    requires i < |keys| && multiset(s) == multiset(keys[..i])
    ensures keys[i] !in s && keys[..i + 1] == keys[..i] + [keys[i]]
  {
    assert keys[i] !in keys[..i];
    assert keys[i] in s <==> keys[i] in multiset(s);
  }

  // *root is a search tree through its child pointers
  ghost predicate IsSet(root: Node?, t: Tree)
    reads Nodes(t)
  {
    Distinct(t) && Links(t) && root == Root(t) && Search(t)
  }

  // The keys of t are those of t0 that are not among keys
  ghost predicate Left(t: Tree, t0: Tree, keys: seq<int>) {
    forall k :: k in InOrder(t) <==> k in InOrder(t0) && k !in keys
  }

  method DeleteAll(root0: Node?, keys: seq<int>, ghost t0: Tree) returns (root: Node?, ghost t: Tree)
    requires IsMap(root0, t0)
    modifies Nodes(t0)
    ensures IsSet(root, t) && Left(t, t0, keys)
  {
    HoldsLinks(t0, null);
    root, t := root0, t0;
    ghost var all := Nodes(t0);
    var i := 0;
    assert IsSet(root, t) && Left(t, t0, keys[..i]) && Nodes(t) <= all;
    hide Links, Distinct, Search, InOrder, Nodes, Deleted, Left, IsSet;
    while i < |keys|
      invariant 0 <= i <= |keys| && Nodes(t) <= all
      invariant IsSet(root, t) && Left(t, t0, keys[..i])
    {
      root, t := DeleteOne(root, keys[i], t, t0, keys[..i]);
      assert keys[..i + 1] == keys[..i] + [keys[i]];
      i := i + 1;
    }
    assert keys[..i] == keys;
  }

  method DeleteOne(root0: Node?, key: int, ghost t: Tree, ghost t0: Tree, ghost done: seq<int>)
      returns (root: Node?, ghost t1: Tree)
    requires IsSet(root0, t) && Left(t, t0, done)
    modifies Nodes(t)
    ensures IsSet(root, t1) && Left(t1, t0, done + [key]) && Nodes(t1) <= Nodes(t)
  {
    hide Links, Distinct, Search, InOrder, Nodes, Deleted, Left;
    t1 := Deleted(t, key);
    LeftWithout(t, t0, done, key);
    ghost var freed;
    root, freed := DeleteNode(root0, key, t, Nodes(t));
  }

  lemma LeftWithout(t: Tree, t0: Tree, done: seq<int>, key: int)
    requires Search(t) && Left(t, t0, done)
    ensures Left(Deleted(t, key), t0, done + [key])
  {
    Without(t, key);
    hide Search, InOrder, Deleted;
  }

  lemma Without(t: Tree, key: int)
    requires Search(t)
    ensures forall k :: k in InOrder(Deleted(t, key)) <==> k in InOrder(t) && k != key
  {
    DeletedInOrder(t, key);
    hide InOrder, Deleted;
    LessElements(InOrder(Deleted(t, key)), InOrder(t), key);
    forall k | k in InOrder(t) && k != key
      ensures k in InOrder(Deleted(t, key))
    {
      assert k in multiset(InOrder(t)) && k in multiset(InOrder(Deleted(t, key)));
    }
  }
}
