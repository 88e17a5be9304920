// The colour conditions of red-black trees, and how insertion and removal repair them.
module RbColours {
  import opened Arithmetic
  import opened Symbols
  import opened RbModel

  ghost predicate Black(t: Tree) { t.Node? ==> !t.red }

  ghost predicate NoRedRed(t: Tree) {
    t.Node? ==> (t.red ==> Black(t.left) && Black(t.right)) && NoRedRed(t.left) && NoRedRed(t.right)
  }

  /** Every way down from the root of t passes h black nodes. */
  ghost predicate Has(t: Tree, h: int) {
    if t.Leaf? then h == 0
    else Has(t.left, if t.red then h else h - 1) && Has(t.right, if t.red then h else h - 1)
  }

  ghost predicate Fair(t: Tree, h: int) { Has(t, h) && NoRedRed(t) }

  ghost predicate RedBlack(t: Tree) {
    Black(t) && exists h :: Fair(t, h)
  }

  /** A red node may not fill the hole of c: its parent is red, or it would be the root. */
  ghost predicate Blocks(c: Path) { c.Top? || c.red }

  /** c is a red-black tree around a hole for a tree of black height h. */
  ghost predicate Fits(c: Path, h: int)
    decreases c
  {
    !c.Top? ==>
      && Fair(Sibling(c), h) && (c.red ==> Black(Sibling(c)) && !Blocks(c.up))
      && Fits(c.up, if c.red then h else h + 1)
  }

  /** t in the hole of c makes a red-black tree; t has black height h. */
  ghost predicate Sound(c: Path, t: Tree, h: int) {
    Fair(t, h) && Fits(c, h) && (Black(t) || !Blocks(c))
  }

  lemma SoundLeft(c: Path, t: Tree, h: int)
    requires t.Node? && Sound(c, t, h)
    ensures Sound(InLeft(c, t.n, t.red, t.right), t.left, if t.red then h else h - 1)
  {
  }

  lemma SoundRight(c: Path, t: Tree, h: int)
    requires t.Node? && Sound(c, t, h)
    ensures Sound(InRight(t.left, t.n, t.red, c), t.right, if t.red then h else h - 1)
  {
  }

  lemma {:induction false} HasNat(t: Tree, h: int)
    requires Has(t, h)
    ensures h >= 0 && (t.Node? && !t.red ==> h > 0)
    decreases t
  {
    if t.Node? { HasNat(t.left, if t.red then h else h - 1); }
  }

  /** A fair tree in a fitting hole makes a red-black tree, unless it is red where it may not be. */
  lemma {:induction false} PlugFits(c: Path, t: Tree, h: int)
    requires Sound(c, t, h)
    ensures RedBlack(Plug(c, t))
    decreases c
  {
    if !c.Top? { PlugFits(c.up, Fill(c, t), if c.red then h else h + 1); }
  }

  // Insertion: t is red, fair and fits, but its parent may be red

  lemma RedLeafFits(c: Path, elm: Symbol, h: int)
    requires Sound(c, Leaf, h)
    ensures Fair(Node(Leaf, elm, true, Leaf), h) && Fits(c, h)
  {
  }

  /** The parent and the uncle turn black, the grandparent red. */
  ghost function Flipped(c: Path, t: Tree): Tree
    requires !c.Top? && !c.up.Top?
  {
    var parent := Painted(Fill(c, t), false);
    if c.up.InLeft? then Node(parent, c.up.n, true, Painted(c.up.right, false))
    else Node(Painted(c.up.left, false), c.up.n, true, parent)
  }

  lemma FlippedFits(c: Path, t: Tree, h: int)
    requires Fair(t, h) && Fits(c, h) && !c.Top? && c.red && !c.up.Top? && !Black(Sibling(c.up))
    ensures Fair(Flipped(c, t), h + 1) && Fits(c.up.up, h + 1)
  {
    var uncle := Sibling(c.up);
    assert Fair(Painted(uncle, false), h + 1);
    assert Fair(Painted(Fill(c, t), false), h + 1);
  }

  /** An inner grandchild becomes the parent of its parent. */
  lemma InnerLeftFits(c: Path, t: Tree, h: int)
    requires t.Node? && t.red && Fair(t, h) && Fits(c, h) && c.InRight? && c.red
    ensures var u := Node(c.left, c.n, true, t.left); Fair(u, h) && Fits(InLeft(c.up, t.n, true, t.right), h)
  {
    assert Fair(t.left, h) && Fair(t.right, h);
  }

  lemma InnerRightFits(c: Path, t: Tree, h: int)
    requires t.Node? && t.red && Fair(t, h) && Fits(c, h) && c.InLeft? && c.red
    ensures var u := Node(t.right, c.n, true, c.right); Fair(u, h) && Fits(InRight(t.left, t.n, true, c.up), h)
  {
    assert Fair(t.left, h) && Fair(t.right, h);
  }

  /** The parent, now black, becomes the parent of the grandparent, now red. */
  lemma OuterLeftFits(c: Path, t: Tree, h: int)
    requires Fair(t, h) && Fits(c, h) && c.InLeft? && c.red && c.up.InLeft? && Black(c.up.right)
    ensures Fits(InLeft(c.up.up, c.n, false, Node(c.right, c.up.n, true, c.up.right)), h)
  {
    assert Fair(Node(c.right, c.up.n, true, c.up.right), h);
  }

  lemma OuterRightFits(c: Path, t: Tree, h: int)
    requires Fair(t, h) && Fits(c, h) && c.InRight? && c.red && c.up.InRight? && Black(c.up.left)
    ensures Fits(InRight(Node(c.up.left, c.up.n, true, c.left), c.n, false, c.up.up), h)
  {
    assert Fair(Node(c.up.left, c.up.n, true, c.left), h);
  }

  /** At the end of the repair only the root may still have to turn black. */
  lemma BlackRoot(c: Path, t: Tree, h: int)
    requires t.Node? && Fair(t, h) && Fits(c, h) && (c.Top? || !c.red)
    ensures RedBlack(Painted(Plug(c, t), false))
  {
    if c.Top? {
      assert Fair(Painted(t, false), if t.red then h + 1 else h);
    } else {
      PlugFits(c, t, h);
      PlugNode(c, t);
      assert Painted(Plug(c, t), false) == Plug(c, t);
    }
  }

  lemma {:induction false} PlugNode(c: Path, t: Tree)
    requires t.Node?
    ensures Plug(c, t).Node?
    decreases c
  {
    if !c.Top? { PlugNode(c.up, Fill(c, t)); }
  }

  // Removal: t is one black node short

  /** t may be red at its root, with a red child there, but is fair otherwise. */
  ghost predicate Weak(t: Tree, h: int) {
    Has(t, h) && (t.Node? ==> NoRedRed(t.left) && NoRedRed(t.right))
  }

  lemma FairIsWeak(t: Tree, h: int)
    requires Fair(t, h)
    ensures Weak(t, h)
  {
  }

  /** Blackened, a weak tree is fair; a red one gains a black node. */
  lemma Blackened(t: Tree, h: int)
    requires Weak(t, h)
    ensures Fair(Painted(t, false), if Black(t) then h else h + 1)
  {
  }

  /** The sibling of a tree that is one black node short is not empty. */
  lemma SiblingExists(c: Path, h: int)
    requires Fits(c, h + 1) && !c.Top? && h >= 0
    ensures Sibling(c).Node?
    ensures Sibling(c).red ==> !c.red && Sibling(c).left.Node? && Sibling(c).right.Node?
  {
    var s := Sibling(c);
    assert Has(s, h + 1);
    if s.Node? && s.red {
      assert Has(s.left, h + 1) && Has(s.right, h + 1);
    }
  }

  /** A red sibling, blackened, rises above the parent, which turns red. */
  lemma LiftedLeftFits(c: Path, h: int)
    requires Fits(c, h + 1) && c.InLeft? && c.right.Node? && c.right.red
    ensures Fits(InLeft(InLeft(c.up, c.right.n, false, c.right.right), c.n, true, c.right.left), h + 1)
  {
    assert Fair(c.right.left, h + 1) && Fair(c.right.right, h + 1);
  }

  lemma LiftedRightFits(c: Path, h: int)
    requires Fits(c, h + 1) && c.InRight? && c.left.Node? && c.left.red
    ensures Fits(InRight(c.left.right, c.n, true, InRight(c.left.left, c.left.n, false, c.up)), h + 1)
  {
    assert Fair(c.left.left, h + 1) && Fair(c.left.right, h + 1);
  }

  /** A black sibling with black children turns red: now the tree of the parent is one black node short. */
  lemma ReddenedFits(c: Path, t: Tree, h: int)
    requires Weak(t, h) && Black(t) && Fits(c, h + 1) && !c.Top?
    requires Sibling(c).Node? && !Sibling(c).red && Black(Sibling(c).left) && Black(Sibling(c).right)
    ensures var k := if c.red then h else h + 1;
      Weak(Fill(SiblingPath(c, t), Painted(Sibling(c), true)), k) && Fits(c.up, k + 1)
  {
    assert Fair(t, h);
    assert Fair(Painted(Sibling(c), true), h);
  }

  /** The near red nephew, blackened, rises above the sibling, which turns red. */
  lemma NephewLeftFits(c: Path, h: int)
    requires Fits(c, h + 1) && c.InLeft? && c.right.Node? && !c.right.red && c.right.left.Node?
    requires c.right.left.red && Black(c.right.right)
    ensures var s := c.right; var u := Node(s.left.left, s.left.n, false, Node(s.left.right, s.n, true, s.right));
      Fits(InLeft(c.up, c.n, c.red, u), h + 1)
  {
    var s := c.right;
    assert Fair(s.left, h) && Fair(s.right, h) && Fair(s.left.left, h) && Fair(s.left.right, h);
    assert Fair(Node(s.left.right, s.n, true, s.right), h);
  }

  lemma NephewRightFits(c: Path, h: int)
    requires Fits(c, h + 1) && c.InRight? && c.left.Node? && !c.left.red && c.left.right.Node?
    requires c.left.right.red && Black(c.left.left)
    ensures var s := c.left; var u := Node(Node(s.left, s.n, true, s.right.left), s.right.n, false, s.right.right);
      Fits(InRight(u, c.n, c.red, c.up), h + 1)
  {
    var s := c.left;
    assert Fair(s.left, h) && Fair(s.right, h) && Fair(s.right.left, h) && Fair(s.right.right, h);
    assert Fair(Node(s.left, s.n, true, s.right.left), h);
  }

  /** The sibling rises above the parent with its colour; the parent and the far nephew turn black. */
  lemma FinishedLeftFits(c: Path, t: Tree, h: int)
    requires Fair(t, h) && Fits(c, h + 1) && c.InLeft? && c.right.Node? && !c.right.red && !Black(c.right.right)
    ensures var s := c.right;
      Sound(c.up, Node(Node(t, c.n, false, s.left), s.n, c.red, Painted(s.right, false)), if c.red then h + 1 else h + 2)
  {
    var s := c.right;
    assert Fair(s.right, h);
    assert Fair(s.left, h) && Fair(Painted(s.right, false), h + 1) && Fair(Node(t, c.n, false, s.left), h + 1);
  }

  lemma FinishedRightFits(c: Path, t: Tree, h: int)
    requires Fair(t, h) && Fits(c, h + 1) && c.InRight? && c.left.Node? && !c.left.red && !Black(c.left.left)
    ensures var s := c.left;
      Sound(c.up, Node(Painted(s.left, false), s.n, c.red, Node(s.right, c.n, false, t)), if c.red then h + 1 else h + 2)
  {
    var s := c.left;
    assert Fair(s.left, h);
    assert Fair(s.right, h) && Fair(Painted(s.left, false), h + 1) && Fair(Node(s.right, c.n, false, t), h + 1);
  }

  /** At the end of the repair the tree in focus turns black, and everything is in order. */
  lemma RemovalRepaired(c: Path, t: Tree, h: int)
    requires Weak(t, h) && Fits(c, h + 1) && (c.Top? || !Black(t))
    ensures RedBlack(Plug(c, Painted(t, false)))
  {
    Blackened(t, h);
    PlugFits(c, Painted(t, false), if Black(t) then h else h + 1);
  }

  /** Taking out a node with at most one child: nothing to repair if it is red. */
  lemma SplicedFits(c: Path, t: Tree, u: Tree, h: int)
    requires Sound(c, t, h) && t.Node? && ((t.left.Leaf? && u == t.right) || (t.right.Leaf? && u == t.left))
    ensures if t.red then RedBlack(Plug(c, u)) else Weak(u, h - 1) && Fits(c, h)
  {
    if t.red {
      PlugFits(c, u, h);
    } else {
      assert Fair(u, h - 1);
      FairIsWeak(u, h - 1);
    }
  }

  /** The colour conditions do not depend on which symbol sits where. */
  lemma {:induction false} RenamedFits(inner: Path, outer: Path, x: Symbol, h: int)
    requires !outer.Top? && Fits(Compose(inner, outer), h)
    ensures Fits(Compose(inner, outer.(n := x)), h)
    decreases inner
  {
    if !inner.Top? {
      RenamedFits(inner.up, outer, x, if inner.red then h else h + 1);
    }
  }

  // Height

  ghost function Height(t: Tree): nat {
    if t.Leaf? then 0
    else if Height(t.left) > Height(t.right) then Height(t.left) + 1
    else Height(t.right) + 1
  }

  /** Red nodes at most double the height, and only black ones are needed for the size. */
  lemma {:induction false} FairSize(t: Tree, h: int)
    requires Fair(t, h)
    ensures h >= 0 && Pow2(h) <= |Inorder(t)| + 1
    ensures Height(t) <= if Black(t) then 2 * h else 2 * h + 1
    decreases t
  {
    if t.Node? {
      FairSize(t.left, if t.red then h else h - 1);
      FairSize(t.right, if t.red then h else h - 1);
    }
  }

  lemma TreeHeight(t: Tree)
    requires RedBlack(t)
    ensures Pow2(Height(t)) <= (|Inorder(t)| + 1) * (|Inorder(t)| + 1)
  {
    var h :| Fair(t, h);
    FairSize(t, h);
    Pow2Grows(Height(t), h + h);
    Pow2Sum(h, h);
    SquareGrows(Pow2(h), |Inorder(t)| + 1);
  }
}
