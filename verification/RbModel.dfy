// Red-black trees as values: the shape of the heap, positions in it, and the colour conditions.
module RbModel {
  import opened Symbols

  datatype Tree = Leaf | Node(left: Tree, n: Symbol, red: bool, right: Tree)

  /** A tree with a hole, from the hole up to the root. */
  datatype Path =
    | Top
    | InLeft(up: Path, n: Symbol, red: bool, right: Tree)
    | InRight(left: Tree, n: Symbol, red: bool, up: Path)

  ghost function Nodes(t: Tree): set<Symbol> {
    if t.Leaf? then {} else Nodes(t.left) + {t.n} + Nodes(t.right)
  }

  ghost function PathNodes(c: Path): set<Symbol> {
    match c
    case Top => {}
    case InLeft(up, n, _, right) => PathNodes(up) + {n} + Nodes(right)
    case InRight(left, n, _, up) => PathNodes(up) + {n} + Nodes(left)
  }

  ghost predicate Distinct(t: Tree) {
    t.Node? ==>
      && Distinct(t.left) && Distinct(t.right)
      && t.n !in Nodes(t.left) && t.n !in Nodes(t.right) && Nodes(t.left) !! Nodes(t.right)
  }

  ghost predicate DistinctPath(c: Path) {
    match c
    case Top => true
    case InLeft(up, n, _, right) =>
      DistinctPath(up) && Distinct(right) && n !in PathNodes(up) && n !in Nodes(right) && PathNodes(up) !! Nodes(right)
    case InRight(left, n, _, up) =>
      DistinctPath(up) && Distinct(left) && n !in PathNodes(up) && n !in Nodes(left) && PathNodes(up) !! Nodes(left)
  }

  /** The frame around the hole, with t in it. */
  ghost function Fill(c: Path, t: Tree): Tree
    requires !c.Top?
  {
    if c.InLeft? then Node(t, c.n, c.red, c.right) else Node(c.left, c.n, c.red, t)
  }

  ghost function Sibling(c: Path): Tree
    requires !c.Top?
  {
    if c.InLeft? then c.right else c.left
  }

  /** The path to the sibling, when t fills the hole of c. */
  ghost function SiblingPath(c: Path, t: Tree): (d: Path)
    requires !c.Top?
    ensures !d.Top? && d.up == c.up && Sibling(d) == t && Fill(d, Sibling(c)) == Fill(c, t)
  {
    if c.InLeft? then InRight(t, c.n, c.red, c.up) else InLeft(c.up, c.n, c.red, t)
  }

  /** The whole tree when t fills the hole. */
  ghost function Plug(c: Path, t: Tree): Tree {
    if c.Top? then t else Plug(c.up, Fill(c, t))
  }

  ghost function Compose(inner: Path, outer: Path): Path {
    match inner
    case Top => outer
    case InLeft(up, n, red, right) => InLeft(Compose(up, outer), n, red, right)
    case InRight(left, n, red, up) => InRight(left, n, red, Compose(up, outer))
  }

  ghost function Depth(c: Path): nat {
    if c.Top? then 0 else 1 + Depth(c.up)
  }

  ghost function Root(t: Tree): Symbol? {
    if t.Leaf? then null else t.n
  }

  ghost function Painted(t: Tree, red: bool): Tree {
    if t.Leaf? then Leaf else t.(red := red)
  }

  ghost function Inorder(t: Tree): seq<Symbol> {
    if t.Leaf? then [] else Inorder(t.left) + [t.n] + Inorder(t.right)
  }

  ghost function Before(c: Path): seq<Symbol> {
    match c
    case Top => []
    case InLeft(up, _, _, _) => Before(up)
    case InRight(left, n, _, up) => Before(up) + Inorder(left) + [n]
  }

  ghost function After(c: Path): seq<Symbol> {
    match c
    case Top => []
    case InLeft(up, n, _, right) => [n] + Inorder(right) + After(up)
    case InRight(_, _, _, up) => After(up)
  }

  lemma Regroup<A>(a: seq<A>, x: A, b: seq<A>, y: A, c: seq<A>)
    ensures (a + [x] + b) + [y] + c == a + [x] + (b + [y] + c)
  {
  }

  lemma RegroupAround<A>(a: seq<A>, b: seq<A>, x: A, c: seq<A>, d: seq<A>)
    ensures a + (b + [x] + c) + d == (a + b) + [x] + (c + d)
  {
  }

  lemma RegroupLeft<A>(a: seq<A>, b: seq<A>, x: A, c: seq<A>, d: seq<A>)
    ensures a + (b + [x] + c) + d == a + b + ([x] + c + d)
  {
  }

  lemma RegroupRight<A>(a: seq<A>, b: seq<A>, x: A, c: seq<A>, d: seq<A>)
    ensures a + (b + [x] + c) + d == (a + b + [x]) + c + d
  {
  }

  /** The symbols in order are those before the hole, those in it, those behind it. */
  lemma {:induction false} PlugInorder(c: Path, t: Tree)
    ensures Inorder(Plug(c, t)) == Before(c) + Inorder(t) + After(c)
    decreases c
  {
    match c
    case Top =>
    case InLeft(up, n, red, right) =>
      PlugInorder(up, Fill(c, t));
      RegroupLeft(Before(up), Inorder(t), n, Inorder(right), After(up));
    case InRight(left, n, red, up) =>
      PlugInorder(up, Fill(c, t));
      RegroupRight(Before(up), Inorder(left), n, Inorder(t), After(up));
  }

  /** Unfolds a tree whose right subtree is a node. */
  lemma RightSplit(t: Tree)
    requires t.Node? && t.right.Node? && Distinct(t)
    ensures Nodes(t) == Nodes(t.left) + {t.n} + Nodes(t.right.left) + {t.right.n} + Nodes(t.right.right)
    ensures Distinct(t.left) && Distinct(t.right) && Distinct(t.right.left) && Distinct(t.right.right)
    ensures Nodes(t.left) !! Nodes(t.right.left) && Nodes(t.left) !! Nodes(t.right.right)
    ensures Nodes(t.right.left) !! Nodes(t.right.right)
    ensures t.n != t.right.n
    ensures t.n !in Nodes(t.left) && t.n !in Nodes(t.right.left) && t.n !in Nodes(t.right.right)
    ensures t.right.n !in Nodes(t.left) && t.right.n !in Nodes(t.right.left) && t.right.n !in Nodes(t.right.right)
  {
    assert Distinct(t.right);
    assert Nodes(t.right) == Nodes(t.right.left) + {t.right.n} + Nodes(t.right.right);
  }

  lemma LeftSplit(t: Tree)
    requires t.Node? && t.left.Node? && Distinct(t)
    ensures Nodes(t) == Nodes(t.left.left) + {t.left.n} + Nodes(t.left.right) + {t.n} + Nodes(t.right)
    ensures Distinct(t.left) && Distinct(t.right) && Distinct(t.left.left) && Distinct(t.left.right)
    ensures Nodes(t.right) !! Nodes(t.left.left) && Nodes(t.right) !! Nodes(t.left.right)
    ensures Nodes(t.left.left) !! Nodes(t.left.right)
    ensures t.n != t.left.n
    ensures t.n !in Nodes(t.right) && t.n !in Nodes(t.left.left) && t.n !in Nodes(t.left.right)
    ensures t.left.n !in Nodes(t.right) && t.left.n !in Nodes(t.left.left) && t.left.n !in Nodes(t.left.right)
  {
    assert Distinct(t.left);
    assert Nodes(t.left) == Nodes(t.left.left) + {t.left.n} + Nodes(t.left.right);
  }

  ghost function RotatedLeft(t: Tree): Tree
    requires t.Node? && t.right.Node?
  {
    Node(Node(t.left, t.n, t.red, t.right.left), t.right.n, t.right.red, t.right.right)
  }

  ghost function RotatedRight(t: Tree): Tree
    requires t.Node? && t.left.Node?
  {
    Node(t.left.left, t.left.n, t.left.red, Node(t.left.right, t.n, t.red, t.right))
  }

  lemma RotatedLeftInorder(t: Tree)
    requires t.Node? && t.right.Node?
    ensures Inorder(RotatedLeft(t)) == Inorder(t)
  {
    var r := RotatedLeft(t);
    assert r.left == Node(t.left, t.n, t.red, t.right.left);
    Regroup(Inorder(t.left), t.n, Inorder(t.right.left), t.right.n, Inorder(t.right.right));
    assert Inorder(t.right) == Inorder(t.right.left) + [t.right.n] + Inorder(t.right.right);
    assert Inorder(r.left) == Inorder(t.left) + [t.n] + Inorder(t.right.left);
  }

  lemma RotatedRightInorder(t: Tree)
    requires t.Node? && t.left.Node?
    ensures Inorder(RotatedRight(t)) == Inorder(t)
  {
    var r := RotatedRight(t);
    assert r.right == Node(t.left.right, t.n, t.red, t.right);
    Regroup(Inorder(t.left.left), t.left.n, Inorder(t.left.right), t.n, Inorder(t.right));
    assert Inorder(t.left) == Inorder(t.left.left) + [t.left.n] + Inorder(t.left.right);
    assert Inorder(r.right) == Inorder(t.left.right) + [t.n] + Inorder(t.right);
  }

  lemma RotatedLeftNodes(t: Tree)
    requires t.Node? && t.right.Node? && Distinct(t)
    ensures Nodes(RotatedLeft(t)) == Nodes(t) && Distinct(RotatedLeft(t))
  {
    RightSplit(t);
    var inner := Node(t.left, t.n, t.red, t.right.left);
    assert Distinct(inner) && Nodes(inner) == Nodes(t.left) + {t.n} + Nodes(t.right.left);
    assert RotatedLeft(t).left == inner;
  }

  lemma RotatedRightNodes(t: Tree)
    requires t.Node? && t.left.Node? && Distinct(t)
    ensures Nodes(RotatedRight(t)) == Nodes(t) && Distinct(RotatedRight(t))
  {
    LeftSplit(t);
    var inner := Node(t.left.right, t.n, t.red, t.right);
    assert Distinct(inner) && Nodes(inner) == Nodes(t.left.right) + {t.n} + Nodes(t.right);
    assert RotatedRight(t).right == inner;
  }

  lemma PlugOrder(c: Path, t: Tree, u: Tree)
    requires Inorder(t) == Inorder(u)
    ensures Inorder(Plug(c, t)) == Inorder(Plug(c, u))
  {
    PlugInorder(c, t);
    PlugInorder(c, u);
  }

  lemma PaintedInorder(t: Tree, red: bool)
    ensures Inorder(Painted(t, red)) == Inorder(t)
  {
  }

  lemma {:induction false} ComposeFacts(inner: Path, outer: Path, t: Tree)
    ensures PathNodes(Compose(inner, outer)) == PathNodes(inner) + PathNodes(outer)
    ensures Nodes(Plug(inner, t)) == PathNodes(inner) + Nodes(t)
    ensures Plug(Compose(inner, outer), t) == Plug(outer, Plug(inner, t))
    decreases inner
  {
    if !inner.Top? {
      ComposeFacts(inner.up, outer, Fill(inner, t));
      assert Nodes(Fill(inner, t)) == Nodes(t) + {inner.n} + Nodes(Sibling(inner));
      assert Fill(Compose(inner, outer), t) == Fill(inner, t) && Compose(inner, outer).up == Compose(inner.up, outer);
    }
  }
}
