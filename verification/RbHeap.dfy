// How a heap of linked symbols holds a tree, and what each way of relinking it does to that tree.
module RbHeap {
  import opened Symbols
  import opened RbModel

  /** The tree entry of one symbol. */
  datatype Cell = Cell(left: Symbol?, right: Symbol?, parent: Symbol?, red: bool)

  type Heap = map<Symbol, Cell>

  ghost function Links(nodes: set<Symbol>): Heap
    reads nodes`left, nodes`right, nodes`parent, nodes`red
  {
    map n | n in nodes :: Cell(n.left, n.right, n.parent, n.red)
  }

  /** The heap holds t below parent. */
  ghost predicate Rep(h: Heap, parent: Symbol?, t: Tree)
    decreases t
  {
    t.Node? ==>
      && t.n in h && h[t.n] == Cell(Root(t.left), Root(t.right), parent, t.red)
      && Rep(h, t.n, t.left) && Rep(h, t.n, t.right)
  }

  /** The parent of what fills the hole. */
  ghost function Holder(c: Path): Symbol? {
    if c.Top? then null else c.n
  }

  /** The root of the whole tree when x is the root of what fills the hole. */
  ghost function PathRoot(c: Path, x: Symbol?): Symbol? {
    if c.Top? then x else PathRoot(c.up, c.n)
  }

  /** The cell of the symbol at the hole's parent. */
  ghost function HolderCell(c: Path, x: Symbol?): Cell
    requires !c.Top?
  {
    if c.InLeft? then Cell(x, Root(c.right), Holder(c.up), c.red) else Cell(Root(c.left), x, Holder(c.up), c.red)
  }

  /** The heap holds the path c, with x in its hole. */
  ghost predicate RepPath(h: Heap, c: Path, x: Symbol?) {
    !c.Top? ==>
      && c.n in h && h[c.n] == HolderCell(c, x)
      && Rep(h, c.n, Sibling(c)) && RepPath(h, c.up, c.n)
  }

  ghost predicate Apart(c: Path, t: Tree) {
    DistinctPath(c) && Distinct(t) && PathNodes(c) !! Nodes(t)
  }

  /** The heap below root is c with t in its hole. */
  ghost predicate At(h: Heap, root: Symbol?, c: Path, t: Tree) {
    RepPath(h, c, Root(t)) && Rep(h, Holder(c), t) && root == PathRoot(c, Root(t)) && Apart(c, t)
  }

  /** Moving the focus up one node changes nothing. */
  lemma Zip(h: Heap, root: Symbol?, c: Path, t: Tree)
    requires !c.Top?
    ensures At(h, root, c, t) <==> At(h, root, c.up, Fill(c, t))
  {
    assert Apart(c, t) <==> Apart(c.up, Fill(c, t));
  }

  /** Moving the focus to the root changes nothing. */
  lemma {:induction false} ZipAll(h: Heap, root: Symbol?, inner: Path, outer: Path, t: Tree)
    ensures At(h, root, Compose(inner, outer), t) <==> At(h, root, outer, Plug(inner, t))
    decreases inner
  {
    if !inner.Top? {
      Zip(h, root, Compose(inner, outer), t);
      assert Fill(Compose(inner, outer), t) == Fill(inner, t) && Compose(inner, outer).up == Compose(inner.up, outer);
      ZipAll(h, root, inner.up, outer, Fill(inner, t));
    }
  }

  /** What the heap says around the focus. */
  lemma Local(h: Heap, root: Symbol?, c: Path, t: Tree)
    requires At(h, root, c, t)
    ensures t.Node? ==> t.n in h && h[t.n] == Cell(Root(t.left), Root(t.right), Holder(c), t.red)
    ensures if c.Top? then root == Root(t) else c.n in h && h[c.n] == HolderCell(c, Root(t))
    ensures !c.Top? && t.Node? ==> c.n != t.n && (c.InLeft? <==> h[c.n].left == t.n) && (c.InRight? <==> h[c.n].right == t.n)
  {
  }

  /** The heaps agree on these symbols. */
  ghost predicate Same(h: Heap, k: Heap, nodes: set<Symbol>) {
    forall n <- nodes :: n in h ==> n in k && k[n] == h[n]
  }

  lemma {:induction false} RepSame(h: Heap, k: Heap, parent: Symbol?, t: Tree)
    requires Rep(h, parent, t) && Same(h, k, Nodes(t))
    ensures Rep(k, parent, t)
    decreases t
  {
    if t.Node? {
      assert t.n in Nodes(t);
      RepSame(h, k, t.n, t.left);
      RepSame(h, k, t.n, t.right);
    }
  }

  /** t below another parent. */
  lemma RepAdopted(h: Heap, k: Heap, p: Symbol?, q: Symbol?, t: Tree)
    requires Rep(h, p, t) && Distinct(t)
    requires t.Node? ==> t.n in k && k[t.n] == h[t.n].(parent := q) && Same(h, k, Nodes(t.left)) && Same(h, k, Nodes(t.right))
    ensures Rep(k, q, t)
  {
    if t.Node? {
      RepSame(h, k, t.n, t.left);
      RepSame(h, k, t.n, t.right);
    }
  }

  lemma {:induction false} PathSame(h: Heap, k: Heap, c: Path, x: Symbol?)
    requires RepPath(h, c, x) && Same(h, k, PathNodes(c))
    ensures RepPath(k, c, x)
    decreases c
  {
    if !c.Top? {
      assert c.n in PathNodes(c);
      RepSame(h, k, c.n, Sibling(c));
      PathSame(h, k, c.up, c.n);
    }
  }

  /** Another symbol in the hole of c. */
  lemma PathRelinked(h: Heap, k: Heap, c: Path, x: Symbol?, y: Symbol?)
    requires RepPath(h, c, x) && DistinctPath(c)
    requires !c.Top? ==> c.n in k && k[c.n] == HolderCell(c, y) && Same(h, k, PathNodes(c) - {c.n})
    ensures RepPath(k, c, y)
  {
    if !c.Top? {
      RepSame(h, k, c.n, Sibling(c));
      PathSame(h, k, c.up, c.n);
    }
  }

  /** The heaps differ at most on these symbols. */
  ghost predicate Except(h: Heap, k: Heap, touched: set<Symbol?>) {
    forall n <- h :: n !in touched ==> n in k && k[n] == h[n]
  }

  /** The hole of c now holds y, and nothing else about c has changed. */
  ghost predicate Relinked(k: Heap, root: Symbol?, newRoot: Symbol?, c: Path, y: Symbol?) {
    && newRoot == (if c.Top? then y else root)
    && (!c.Top? ==> c.n in k && k[c.n] == HolderCell(c, y))
  }

  /** t, now below q, is otherwise as before. */
  ghost predicate Adopted(h: Heap, k: Heap, q: Symbol?, t: Tree) {
    t.Node? ==> t.n in h && t.n in k && k[t.n] == h[t.n].(parent := q)
  }

  lemma Relinking(h: Heap, k: Heap, root: Symbol?, newRoot: Symbol?, c: Path, t: Tree, y: Symbol?,
          touched: set<Symbol?>)
    requires At(h, root, c, t)
    requires Except(h, k, touched) && touched * PathNodes(c) <= {Holder(c)}
    requires Relinked(k, root, newRoot, c, y)
    ensures RepPath(k, c, y) && newRoot == PathRoot(c, y)
  {
    PathRelinked(h, k, c, Root(t), y);
  }

  lemma RotatedLeftHeap(h: Heap, k: Heap, root: Symbol?, newRoot: Symbol?, c: Path, t: Tree)
    requires At(h, root, c, t) && t.Node? && t.right.Node?
    requires Except(h, k, {t.n, t.right.n, Root(t.right.left), Holder(c)})
    requires t.n in k && k[t.n] == Cell(Root(t.left), Root(t.right.left), t.right.n, t.red)
    requires t.right.n in k && k[t.right.n] == Cell(t.n, Root(t.right.right), Holder(c), t.right.red)
    requires Adopted(h, k, t.n, t.right.left) && Relinked(k, root, newRoot, c, t.right.n)
    ensures At(k, newRoot, c, RotatedLeft(t))
  {
    RotatedLeftNodes(t);
    RightSplit(t);
    assert Rep(h, t.n, t.right);
    RootIn(t.right.left);
    Relinking(h, k, root, newRoot, c, t, t.right.n, {t.n, t.right.n, Root(t.right.left), Holder(c)});
    RepSame(h, k, t.n, t.left);
    RepSame(h, k, t.right.n, t.right.right);
    RepAdopted(h, k, t.right.n, t.n, t.right.left);
  }

  lemma RotatedRightHeap(h: Heap, k: Heap, root: Symbol?, newRoot: Symbol?, c: Path, t: Tree)
    requires At(h, root, c, t) && t.Node? && t.left.Node?
    requires Except(h, k, {t.n, t.left.n, Root(t.left.right), Holder(c)})
    requires t.n in k && k[t.n] == Cell(Root(t.left.right), Root(t.right), t.left.n, t.red)
    requires t.left.n in k && k[t.left.n] == Cell(Root(t.left.left), t.n, Holder(c), t.left.red)
    requires Adopted(h, k, t.n, t.left.right) && Relinked(k, root, newRoot, c, t.left.n)
    ensures At(k, newRoot, c, RotatedRight(t))
  {
    RotatedRightNodes(t);
    LeftSplit(t);
    assert Rep(h, t.n, t.left);
    RootIn(t.left.right);
    Relinking(h, k, root, newRoot, c, t, t.left.n, {t.n, t.left.n, Root(t.left.right), Holder(c)});
    RepSame(h, k, t.n, t.right);
    RepSame(h, k, t.left.n, t.left.left);
    RepAdopted(h, k, t.left.n, t.n, t.left.right);
  }

  lemma RootIn(t: Tree)
    ensures t.Node? ==> t.n in Nodes(t)
  {
  }

  /** A new red leaf fills an empty hole. */
  lemma Attached(h: Heap, k: Heap, root: Symbol?, newRoot: Symbol?, c: Path, elm: Symbol)
    requires At(h, root, c, Leaf) && elm !in PathNodes(c)
    requires Except(h, k, {elm, Holder(c)})
    requires elm in k && k[elm] == Cell(null, null, Holder(c), true)
    requires Relinked(k, root, newRoot, c, elm)
    ensures At(k, newRoot, c, Node(Leaf, elm, true, Leaf))
  {
    Relinking(h, k, root, newRoot, c, Leaf, elm, {elm, Holder(c)});
  }

  /** The only child u of the node in focus takes its place. */
  lemma Spliced(h: Heap, k: Heap, root: Symbol?, newRoot: Symbol?, c: Path, t: Tree, u: Tree)
    requires At(h, root, c, t) && t.Node? && ((t.left.Leaf? && u == t.right) || (t.right.Leaf? && u == t.left))
    requires Except(h, k, {Root(u), Holder(c)})
    requires Adopted(h, k, Holder(c), u) && Relinked(k, root, newRoot, c, Root(u))
    ensures At(k, newRoot, c, u)
  {
    RootIn(u);
    Relinking(h, k, root, newRoot, c, t, Root(u), {Root(u), Holder(c)});
    RepAdopted(h, k, t.n, Holder(c), u);
  }

  /** A symbol from outside takes over the place and the colour of the node in focus. */
  lemma Renamed(h: Heap, k: Heap, root: Symbol?, newRoot: Symbol?, c: Path, t: Tree, elm: Symbol)
    requires At(h, root, c, t) && t.Node? && elm !in Nodes(t) && elm !in PathNodes(c)
    requires Except(h, k, {elm, Root(t.left), Root(t.right), Holder(c)})
    requires t.n in h && elm in k && k[elm] == h[t.n]
    requires Adopted(h, k, elm, t.left) && Adopted(h, k, elm, t.right) && Relinked(k, root, newRoot, c, elm)
    ensures At(k, newRoot, c, t.(n := elm))
  {
    RootIn(t.left);
    RootIn(t.right);
    Relinking(h, k, root, newRoot, c, t, elm, {elm, Root(t.left), Root(t.right), Holder(c)});
    RepAdopted(h, k, t.n, elm, t.left);
    RepAdopted(h, k, t.n, elm, t.right);
    assert Nodes(t.(n := elm)) == Nodes(t.left) + {elm} + Nodes(t.right);
  }

  /** Another colour for the node in focus. */
  lemma PaintedHeap(h: Heap, k: Heap, root: Symbol?, c: Path, t: Tree, red: bool)
    requires At(h, root, c, t) && t.Node?
    requires Except(h, k, {t.n}) && t.n in h && t.n in k && k[t.n] == h[t.n].(red := red)
    ensures At(k, root, c, Painted(t, red))
  {
    PathSame(h, k, c, t.n);
    RepSame(h, k, t.n, t.left);
    RepSame(h, k, t.n, t.right);
    assert Nodes(Painted(t, red)) == Nodes(t);
  }

  lemma {:induction false} RepNodes(h: Heap, parent: Symbol?, t: Tree)
    requires Rep(h, parent, t)
    ensures Nodes(t) <= h.Keys
    decreases t
  {
    if t.Node? {
      RepNodes(h, t.n, t.left);
      RepNodes(h, t.n, t.right);
    }
  }

  lemma {:induction false} RepPathNodes(h: Heap, c: Path, x: Symbol?)
    requires RepPath(h, c, x)
    ensures PathNodes(c) <= h.Keys
    decreases c
  {
    if !c.Top? {
      RepNodes(h, c.n, Sibling(c));
      RepPathNodes(h, c.up, c.n);
    }
  }
}
