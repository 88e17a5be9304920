// The tree head: the operations of tree.h in place over linked nodes with parent pointers, for the symbols of the assembler.
module RbTree {
  import opened Arithmetic
  import opened Symbols
  import opened RbModel
  import opened RbHeap
  import opened RbColours
  import opened RbOrder

  class Head {
    var root: Symbol?
    ghost var tree: Tree
    ghost var nodes: set<Symbol>

    constructor ()
      ensures Valid() && Order() == []
    {
      root := null;
      tree := Leaf;
      nodes := {};
      new;
      assert Fair(Leaf, 0);
    }

    /** The symbols s form a tree with t at the end of the path c, holding them in this order. */
    ghost predicate Focus(s: set<Symbol>, order: seq<Symbol>, c: Path, t: Tree)
      reads `root, s`left, s`right, s`parent, s`red
    {
      At(Links(s), root, c, t) && Inorder(Plug(c, t)) == order
    }

    /** Moving the focus up one node changes nothing. */
    lemma Up(s: set<Symbol>, order: seq<Symbol>, c: Path, t: Tree)
      requires !c.Top?
      ensures Focus(s, order, c, t) <==> Focus(s, order, c.up, Fill(c, t))
    {
      Zip(Links(s), root, c, t);
    }

    lemma Around(s: set<Symbol>, order: seq<Symbol>, c: Path, t: Tree)
      requires Focus(s, order, c, t)
      ensures Inorder(Plug(c, t)) == order
      ensures t.Node? ==> t.n in s && t.n.left == Root(t.left) && t.n.right == Root(t.right) && t.n.parent == Holder(c) && t.n.red == t.red
      ensures if c.Top? then root == Root(t) else c.n in s && Cell(c.n.left, c.n.right, c.n.parent, c.n.red) == HolderCell(c, Root(t))
      ensures !c.Top? && t.Node? ==> c.n != t.n && (c.InLeft? <==> c.n.left == t.n) && (c.InRight? <==> c.n.right == t.n)
    {
      Local(Links(s), root, c, t);
    }

    /** Puts y in the place of x below p, or at the root. */
    method Relink(p: Symbol?, x: Symbol, y: Symbol?)
      modifies `root, (if p == null then {} else {p})`left, (if p == null then {} else {p})`right
      ensures if p == null then root == y else root == old(root)
      ensures p != null ==>
        if old(p.left) == x then p.left == y && p.right == old(p.right) else p.left == old(p.left) && p.right == y
    {
      if p != null {
        if x == p.left {
          p.left := y;
        } else {
          p.right := y;
        }
      } else {
        root := y;
      }
    }

    /** The links of a left rotation about elm. */
    method LinkLeft(elm: Symbol)
      requires elm.right != null && elm !in {elm.right, elm.right.left, elm.parent}
      requires elm.right !in {elm.right.left, elm.parent} && (elm.parent != null ==> elm.parent != elm.right.left)
      modifies `root, elm`right, elm`parent, elm.right`left, elm.right`parent
      modifies (if elm.right.left == null then {} else {elm.right.left})`parent
      modifies (if elm.parent == null then {} else {elm.parent})`left, (if elm.parent == null then {} else {elm.parent})`right
      ensures elm.right == old(elm.right.left) && elm.parent == old(elm.right)
      ensures var tmp := old(elm.right); tmp.left == elm && tmp.parent == old(elm.parent)
      ensures elm.right != null ==> elm.right.parent == elm
      ensures var p, tmp := old(elm.parent), old(elm.right);
        if p == null then root == tmp
        else
          && root == old(root)
          && if old(elm.parent.left) == elm then p.left == tmp && p.right == old(elm.parent.right)
             else p.left == old(elm.parent.left) && p.right == tmp
    {
      var tmp := elm.right;
      elm.right := tmp.left;
      if tmp.left != null {
        tmp.left.parent := elm;
      }
      tmp.parent := elm.parent;
      Relink(elm.parent, elm, tmp);
      tmp.left := elm;
      elm.parent := tmp;
    }

    method RotateLeft(elm: Symbol, ghost s: set<Symbol>, ghost order: seq<Symbol>, ghost c: Path, ghost t: Tree)
      requires Focus(s, order, c, t) && t.Node? && t.n == elm && t.right.Node?
      modifies `root, s`left, s`right, s`parent
      ensures Focus(s, order, c, RotatedLeft(t))
    {
      hide At, Apart, Nodes, PathNodes, Inorder, Plug, RotatedLeft;
      ghost var h := Links(s);
      ghost var oldRoot := root;
      RotationFacts(s, order, c, t, t.right, t.right.left);
      LinkLeft(elm);
      RotatedLeftHeap(h, Links(s), oldRoot, root, c, t);
      RotatedLeftInorder(t);
      PlugOrder(c, t, RotatedLeft(t));
    }

    /** The links of a right rotation about elm. */
    method LinkRight(elm: Symbol)
      requires elm.left != null && elm !in {elm.left, elm.left.right, elm.parent}
      requires elm.left !in {elm.left.right, elm.parent} && (elm.parent != null ==> elm.parent != elm.left.right)
      modifies `root, elm`left, elm`parent, elm.left`right, elm.left`parent
      modifies (if elm.left.right == null then {} else {elm.left.right})`parent
      modifies (if elm.parent == null then {} else {elm.parent})`left, (if elm.parent == null then {} else {elm.parent})`right
      ensures elm.left == old(elm.left.right) && elm.parent == old(elm.left)
      ensures var tmp := old(elm.left); tmp.right == elm && tmp.parent == old(elm.parent)
      ensures elm.left != null ==> elm.left.parent == elm
      ensures var p, tmp := old(elm.parent), old(elm.left);
        if p == null then root == tmp
        else
          && root == old(root)
          && if old(elm.parent.left) == elm then p.left == tmp && p.right == old(elm.parent.right)
             else p.left == old(elm.parent.left) && p.right == tmp
    {
      var tmp := elm.left;
      elm.left := tmp.right;
      if tmp.right != null {
        tmp.right.parent := elm;
      }
      tmp.parent := elm.parent;
      Relink(elm.parent, elm, tmp);
      tmp.right := elm;
      elm.parent := tmp;
    }

    method RotateRight(elm: Symbol, ghost s: set<Symbol>, ghost order: seq<Symbol>, ghost c: Path, ghost t: Tree)
      requires Focus(s, order, c, t) && t.Node? && t.n == elm && t.left.Node?
      modifies `root, s`left, s`right, s`parent
      ensures Focus(s, order, c, RotatedRight(t))
    {
      hide At, Apart, Nodes, PathNodes, Inorder, Plug, RotatedRight;
      ghost var h := Links(s);
      ghost var oldRoot := root;
      RotationFacts(s, order, c, t, t.left, t.left.right);
      LinkRight(elm);
      RotatedRightHeap(h, Links(s), oldRoot, root, c, t);
      RotatedRightInorder(t);
      PlugOrder(c, t, RotatedRight(t));
    }

    /** The symbols a rotation touches, and that they differ. */
    lemma RotationFacts(s: set<Symbol>, order: seq<Symbol>, c: Path, t: Tree, child: Tree, inner: Tree)
      requires Focus(s, order, c, t) && t.Node? && child.Node? && (child == t.left || child == t.right)
      requires (inner == child.left || inner == child.right)
      ensures t.n in s && t.n.left == Root(t.left) && t.n.right == Root(t.right) && t.n.parent == Holder(c)
      ensures t.n.red == t.red
      ensures child.n in s && child.n.left == Root(child.left) && child.n.right == Root(child.right)
      ensures child.n.red == child.red
      ensures inner.Node? ==> inner.n in s
      ensures if c.Top? then root == t.n else c.n in s && Cell(c.n.left, c.n.right, c.n.parent, c.n.red) == HolderCell(c, t.n)
      ensures !c.Top? ==> c.n != t.n && c.n != child.n && c.n != Root(inner) && (c.InLeft? <==> c.n.left == t.n) && (c.InRight? <==> c.n.right == t.n)
      ensures t.n != child.n && t.n != Root(inner) && child.n != Root(inner)
    {
      Local(Links(s), root, c, t);
      RootIn(child);
      RootIn(inner);
      assert Rep(Links(s), t.n, child);
      assert Rep(Links(s), child.n, inner);
    }

    method Paint(n: Symbol, red: bool, ghost s: set<Symbol>, ghost order: seq<Symbol>, ghost c: Path, ghost t: Tree)
      requires Focus(s, order, c, t) && t.Node? && t.n == n
      modifies s`red
      ensures Focus(s, order, c, Painted(t, red))
    {
      hide At, Inorder, Plug;
      ghost var h := Links(s);
      Around(s, order, c, t);
      n.red := red;
      PaintedHeap(h, Links(s), root, c, t, red);
      assert Inorder(Painted(t, red)) == Inorder(t) by { PaintedInorder(t, red); }
      PlugOrder(c, t, Painted(t, red));
    }

    /** Focus on the other child of the parent. */
    lemma Across(s: set<Symbol>, order: seq<Symbol>, c: Path, t: Tree)
      requires !c.Top?
      ensures Focus(s, order, c, t) <==> Focus(s, order, SiblingPath(c, t), Sibling(c))
    {
      Up(s, order, c, t);
      Up(s, order, SiblingPath(c, t), Sibling(c));
    }

    /** The red uncle and the parent turn black, the grandparent red. */
    method FlipColours(uncle: Symbol, parent: Symbol, gparent: Symbol,
                       ghost s: set<Symbol>, ghost order: seq<Symbol>, ghost c: Path, ghost t: Tree)
      requires Focus(s, order, c, t) && !c.Top? && !c.up.Top? && c.n == parent && c.up.n == gparent
      requires Root(Sibling(c.up)) == uncle
      modifies s`red
      ensures Focus(s, order, c.up.up, Flipped(c, t))
    {
      hide Focus;
      ghost var p, u := Fill(c, t), Sibling(c.up);
      ghost var q, v := Painted(p, false), Painted(u, false);
      Up(s, order, c, t);
      Across(s, order, c.up, p);
      Paint(uncle, false, s, order, SiblingPath(c.up, p), u);
      ghost var d := SiblingPath(SiblingPath(c.up, p), v);
      Across(s, order, SiblingPath(c.up, p), v);
      Paint(parent, false, s, order, d, p);
      Up(s, order, d, q);
      Paint(gparent, true, s, order, d.up, Fill(d, q));
    }

    /** Rotates the red elm, a right child, above its red parent, which becomes the new focus. */
    method TurnInnerLeft(parent: Symbol, ghost s: set<Symbol>, ghost order: seq<Symbol>, ghost c: Path, ghost t: Tree)
      requires Focus(s, order, c, t) && t.Node? && c.InRight? && c.n == parent
      modifies `root, s`left, s`right, s`parent
      ensures Focus(s, order, InLeft(c.up, t.n, t.red, t.right), Node(c.left, c.n, c.red, t.left))
    {
      hide Focus;
      Up(s, order, c, t);
      RotateLeft(parent, s, order, c.up, Fill(c, t));
      Up(s, order, InLeft(c.up, t.n, t.red, t.right), Node(c.left, c.n, c.red, t.left));
    }

    /** The parent turns black and rises above the grandparent, which turns red. */
    method TurnOuterLeft(parent: Symbol, gparent: Symbol, ghost s: set<Symbol>, ghost order: seq<Symbol>,
            ghost c: Path, ghost t: Tree)
      requires Focus(s, order, c, t) && c.InLeft? && c.n == parent && c.up.InLeft? && c.up.n == gparent
      modifies `root, s`left, s`right, s`parent, s`red
      ensures Focus(s, order, InLeft(c.up.up, parent, false, Node(c.right, gparent, true, c.up.right)), t)
    {
      hide Focus;
      ghost var p := Painted(Fill(c, t), false);
      ghost var g := Painted(Fill(c.up, p), true);
      Up(s, order, c, t);
      Paint(parent, false, s, order, c.up, Fill(c, t));
      Up(s, order, c.up, p);
      Paint(gparent, true, s, order, c.up.up, Fill(c.up, p));
      RotateRight(gparent, s, order, c.up.up, g);
      Up(s, order, InLeft(c.up.up, parent, false, Node(c.right, gparent, true, c.up.right)), t);
    }

    /** Rotates the red elm, a left child, above its red parent, which becomes the new focus. */
    method TurnInnerRight(parent: Symbol, ghost s: set<Symbol>, ghost order: seq<Symbol>, ghost c: Path, ghost t: Tree)
      requires Focus(s, order, c, t) && t.Node? && c.InLeft? && c.n == parent
      modifies `root, s`left, s`right, s`parent
      ensures Focus(s, order, InRight(t.left, t.n, t.red, c.up), Node(t.right, c.n, c.red, c.right))
    {
      hide Focus;
      Up(s, order, c, t);
      RotateRight(parent, s, order, c.up, Fill(c, t));
      Up(s, order, InRight(t.left, t.n, t.red, c.up), Node(t.right, c.n, c.red, c.right));
    }

    method TurnOuterRight(parent: Symbol, gparent: Symbol, ghost s: set<Symbol>, ghost order: seq<Symbol>,
            ghost c: Path, ghost t: Tree)
      requires Focus(s, order, c, t) && c.InRight? && c.n == parent && c.up.InRight? && c.up.n == gparent
      modifies `root, s`left, s`right, s`parent, s`red
      ensures Focus(s, order, InRight(Node(c.up.left, gparent, true, c.left), parent, false, c.up.up), t)
    {
      hide Focus;
      ghost var p := Painted(Fill(c, t), false);
      ghost var g := Painted(Fill(c.up, p), true);
      Up(s, order, c, t);
      Paint(parent, false, s, order, c.up, Fill(c, t));
      Up(s, order, c.up, p);
      Paint(gparent, true, s, order, c.up.up, Fill(c.up, p));
      RotateLeft(gparent, s, order, c.up.up, g);
      Up(s, order, InRight(Node(c.up.left, gparent, true, c.left), parent, false, c.up.up), t);
    }

    /** What the repair of an insertion sees from a red node with a red parent. */
    lemma AboveRed(s: set<Symbol>, order: seq<Symbol>, c: Path, t: Tree, h: int)
      requires Focus(s, order, c, t) && t.Node? && !c.Top? && c.red && Fits(c, h)
      ensures !c.up.Top? && !c.up.red && c.n in s && c.up.n in s && c.n.parent == c.up.n
      ensures (c.up.InLeft? <==> c.up.n.left == c.n) && (c.InLeft? <==> c.n.left == t.n)
      ensures (c.InRight? <==> c.n.right == t.n)
      ensures var u := Sibling(c.up); Root(u) == (if c.up.InLeft? then c.up.n.right else c.up.n.left) && (u.Node? ==> u.n in s && u.n.red == u.red)
    {
      Around(s, order, c, t);
      Up(s, order, c, t);
      Around(s, order, c.up, Fill(c, t));
      Across(s, order, c.up, Fill(c, t));
      Around(s, order, SiblingPath(c.up, Fill(c, t)), Sibling(c.up));
    }

    /** One round of the repair, with the parent a left child. */
    method InsertColourLeft(elm: Symbol, parent: Symbol, gparent: Symbol, ghost s: set<Symbol>,
            ghost order: seq<Symbol>,
                            ghost c: Path, ghost t: Tree, ghost h: int)
      returns (next: Symbol, ghost d: Path, ghost u: Tree, ghost k: int)
      requires Focus(s, order, c, t) && t.Node? && t.n == elm && t.red && Fair(t, h) && Fits(c, h)
      requires !c.Top? && c.red && c.n == parent && c.up.InLeft? && c.up.n == gparent
      modifies `root, s`left, s`right, s`parent, s`red
      ensures Focus(s, order, d, u) && u.Node? && u.n == next && u.red && Fair(u, k) && Fits(d, k)
      ensures Depth(d) < Depth(c)
    {
      hide Focus, Has, NoRedRed, Fits;
      AboveRed(s, order, c, t, h);
      var uncle := gparent.right;
      if uncle != null && uncle.red {
        FlippedFits(c, t, h);
        FlipColours(uncle, parent, gparent, s, order, c, t);
        return gparent, c.up.up, Flipped(c, t), h + 1;
      }
      var p;
      next, p, d, u := elm, parent, c, t;
      if parent.right == elm {
        InnerLeftFits(c, t, h);
        TurnInnerLeft(parent, s, order, c, t);
        next, p := parent, elm;
        d, u := InLeft(c.up, t.n, t.red, t.right), Node(c.left, c.n, c.red, t.left);
      }
      OuterLeftFits(d, u, h);
      TurnOuterLeft(p, gparent, s, order, d, u);
      d := InLeft(d.up.up, p, false, Node(d.right, gparent, true, d.up.right));
      k := h;
    }

    method InsertColourRight(elm: Symbol, parent: Symbol, gparent: Symbol, ghost s: set<Symbol>,
            ghost order: seq<Symbol>,
                             ghost c: Path, ghost t: Tree, ghost h: int)
      returns (next: Symbol, ghost d: Path, ghost u: Tree, ghost k: int)
      requires Focus(s, order, c, t) && t.Node? && t.n == elm && t.red && Fair(t, h) && Fits(c, h)
      requires !c.Top? && c.red && c.n == parent && c.up.InRight? && c.up.n == gparent
      modifies `root, s`left, s`right, s`parent, s`red
      ensures Focus(s, order, d, u) && u.Node? && u.n == next && u.red && Fair(u, k) && Fits(d, k)
      ensures Depth(d) < Depth(c)
    {
      hide Focus, Has, NoRedRed, Fits;
      AboveRed(s, order, c, t, h);
      var uncle := gparent.left;
      if uncle != null && uncle.red {
        FlippedFits(c, t, h);
        FlipColours(uncle, parent, gparent, s, order, c, t);
        return gparent, c.up.up, Flipped(c, t), h + 1;
      }
      var p;
      next, p, d, u := elm, parent, c, t;
      if parent.left == elm {
        InnerRightFits(c, t, h);
        TurnInnerRight(parent, s, order, c, t);
        next, p := parent, elm;
        d, u := InRight(t.left, t.n, t.red, c.up), Node(t.right, c.n, c.red, c.right);
      }
      OuterRightFits(d, u, h);
      TurnOuterRight(p, gparent, s, order, d, u);
      d := InRight(Node(d.up.left, gparent, true, d.left), p, false, d.up.up);
      k := h;
    }

    /** RB_INSERT_COLOR: the only fault in the tree may be that elm and its parent are both red. */
    method InsertColour(first: Symbol, ghost s: set<Symbol>, ghost order: seq<Symbol>, ghost c0: Path,
            ghost t0: Tree, ghost h0: int)
      returns (ghost repaired: Tree)
      requires Focus(s, order, c0, t0) && t0.Node? && t0.n == first && t0.red && Fair(t0, h0) && Fits(c0, h0)
      modifies `root, s`left, s`right, s`parent, s`red
      ensures Focus(s, order, Top, repaired) && RedBlack(repaired)
    {
      hide Focus, Has, NoRedRed, Fits;
      var elm := first;
      ghost var c, t, h := c0, t0, h0;
      Around(s, order, c, t);
      while elm.parent != null && elm.parent.red
        invariant Focus(s, order, c, t) && t.Node? && t.n == elm && t.red && Fair(t, h) && Fits(c, h)
        invariant elm in s && elm.parent == Holder(c) && (!c.Top? ==> c.n in s && c.n.red == c.red)
        decreases Depth(c)
      {
        var parent := elm.parent;
        AboveRed(s, order, c, t, h);
        var gparent := parent.parent;
        if parent == gparent.left {
          elm, c, t, h := InsertColourLeft(elm, parent, gparent, s, order, c, t, h);
        } else {
          elm, c, t, h := InsertColourRight(elm, parent, gparent, s, order, c, t, h);
        }
        Around(s, order, c, t);
      }
      repaired := BlackenRoot(s, order, c, t, h);
    }

    /** Colours the root black after an insertion's repair. */
    method BlackenRoot(ghost s: set<Symbol>, ghost order: seq<Symbol>, ghost c: Path, ghost t: Tree, ghost h: int)
      returns (ghost repaired: Tree)
      requires Focus(s, order, c, t) && t.Node? && Fair(t, h) && Fits(c, h) && !(!c.Top? && c.red)
      modifies s`red
      ensures Focus(s, order, Top, repaired) && RedBlack(repaired)
    {
      ghost var whole := Plug(c, t);
      FocusRoot(s, order, c, t);
      Around(s, order, Top, whole);
      Paint(root, false, s, order, Top, whole);
      repaired := Painted(whole, false);
      BlackRoot(c, t, h);
    }

    lemma {:induction false} FocusRoot(s: set<Symbol>, order: seq<Symbol>, c: Path, t: Tree)
      ensures Focus(s, order, c, t) <==> Focus(s, order, Top, Plug(c, t))
      ensures t.Node? ==> Plug(c, t).Node?
      decreases c
    {
      if !c.Top? {
        Up(s, order, c, t);
        FocusRoot(s, order, c.up, Fill(c, t));
      }
    }

    /** The symbols of the table, in order. */
    ghost function Order(): seq<Symbol>
      reads this
    {
      Inorder(tree)
    }

    ghost predicate Valid()
      reads this, nodes`left, nodes`right, nodes`parent, nodes`red
    {
      nodes == Nodes(tree) && Focus(nodes, Order(), Top, tree) && RedBlack(tree) && Ordered(Order())
    }

    /** RB_INSERT: a symbol of the same name, if the table has one, or null after putting elm in its place, number k. */
    method Insert(elm: Symbol) returns (found: Symbol?, ghost k: nat)
      requires Valid()
      modifies this, elm`left, elm`right, elm`parent, elm`red
      modifies nodes`left, nodes`right, nodes`parent, nodes`red
      ensures Valid()
      ensures found != null ==> found in Order() && found.name == elm.name
      ensures found != null ==> root == old(root) && tree == old(tree) && nodes == old(nodes) && unchanged(elm)
      ensures found == null ==> forall n <- old(Order()) :: n.name != elm.name
      ensures found == null ==> k <= |old(Order())| && Order() == old(Order())[..k] + [elm] + old(Order())[k..]
      ensures found == null ==> nodes == old(nodes) + {elm}
    {
      hide At, Plug, Sound, Ordered, Brackets, Inorder, Before, After, RedBlack;
      ghost var s, order := nodes, Order();
      var tmp := root;
      var parent: Symbol? := null;
      var comp := 0;
      ghost var c, t, h := StartSearch(elm.name);
      while tmp != null
        invariant Focus(s, order, c, t) && tmp == Root(t) && parent == Holder(c) && Brackets(c, elm.name)
        invariant Sound(c, t, h)
        invariant c.InLeft? ==> comp < 0
        invariant c.InRight? ==> comp > 0
        modifies {}
        decreases t
      {
        Around(s, order, c, t);
        parent := tmp;
        comp := Compare(elm.name, parent.name);
        if comp < 0 {
          tmp := tmp.left;
          GoLeft(s, order, c, t, elm.name, h);
          h := if t.red then h else h - 1;
          c, t := InLeft(c, t.n, t.red, t.right), t.left;
        } else if comp > 0 {
          tmp := tmp.right;
          GoRight(s, order, c, t, elm.name, h);
          h := if t.red then h else h - 1;
          c, t := InRight(t.left, t.n, t.red, c), t.right;
        } else {
          InFocus(s, order, c, t, elm.name);
          return tmp, 0;
        }
      }
      found := null;
      OrderIsNodes();
      k := Place(elm, parent, comp, c, h);
      OrderIsNodes();
      InsertedElements(order, k, elm);
    }

    lemma InsertedElements(order: seq<Symbol>, k: nat, elm: Symbol)
      requires k <= |order|
      ensures Elements(order[..k] + [elm] + order[k..]) == Elements(order) + {elm}
    {
      assert order == order[..k] + order[k..];
    }

    /** A search starts at the root. */
    lemma StartSearch(key: string) returns (c: Path, t: Tree, h: int)
      requires Valid()
      ensures Focus(nodes, Order(), c, t) && root == Root(t) && c.Top? && Brackets(c, key) && Sound(c, t, h)
    {
      c, t := Top, tree;
      h :| Fair(tree, h);
    }

    lemma GoLeft(s: set<Symbol>, order: seq<Symbol>, c: Path, t: Tree, key: string, h: int)
      requires Focus(s, order, c, t) && t.Node? && Ordered(order) && Brackets(c, key) && Less(key, t.n.name)
      requires Sound(c, t, h)
      ensures var d := InLeft(c, t.n, t.red, t.right);
        Focus(s, order, d, t.left) && Brackets(d, key) && Sound(d, t.left, if t.red then h else h - 1)
    {
      Up(s, order, InLeft(c, t.n, t.red, t.right), t.left);
      SearchLeft(c, t, key);
      SoundLeft(c, t, h);
    }

    lemma GoRight(s: set<Symbol>, order: seq<Symbol>, c: Path, t: Tree, key: string, h: int)
      requires Focus(s, order, c, t) && t.Node? && Ordered(order) && Brackets(c, key)
      requires Compare(key, t.n.name) > 0 && Sound(c, t, h)
      ensures var d := InRight(t.left, t.n, t.red, c);
        Focus(s, order, d, t.right) && Brackets(d, key) && Sound(d, t.right, if t.red then h else h - 1)
    {
      CompareFlips(t.n.name, key);
      Up(s, order, InRight(t.left, t.n, t.red, c), t.right);
      SearchRight(c, t, key);
      SoundRight(c, t, h);
    }

    /** The search has found a symbol of that name. */
    lemma InFocus(s: set<Symbol>, order: seq<Symbol>, c: Path, t: Tree, key: string)
      requires Focus(s, order, c, t) && t.Node? && Compare(key, t.n.name) == 0
      ensures t.n in order && t.n.name == key
    {
      CompareEqual(key, t.n.name);
      OrderAround(c, t);
    }

    /** Links elm into the hole that the search for its name ended in. */
    method Hang(elm: Symbol, parent: Symbol?, comp: int, ghost c: Path) returns (ghost k: nat)
      requires Valid() && Focus(nodes, Order(), c, Leaf) && parent == Holder(c) && Brackets(c, elm.name)
      requires (c.InLeft? ==> comp < 0) && (c.InRight? ==> comp > 0)
      modifies `root, elm`left, elm`right, elm`parent, elm`red, nodes`left, nodes`right
      ensures k <= |Order()| && forall n <- Order() :: n.name != elm.name
      ensures var order := Order()[..k] + [elm] + Order()[k..];
        Ordered(order) && Focus(nodes + {elm}, order, c, Node(Leaf, elm, true, Leaf))
    {
      hide At, RedBlack, Ordered, Brackets, Inorder, Plug, Before, After, Nodes, PathNodes;
      ghost var h, oldRoot := Links(nodes), root;
      k := HangOrder(elm, c);
      Around(nodes, Order(), c, Leaf);
      elm.parent := parent;
      elm.left := null;
      elm.right := null;
      elm.red := true;
      if parent != null {
        if comp < 0 {
          parent.left := elm;
        } else {
          parent.right := elm;
        }
      } else {
        root := elm;
      }
      Attached(h, Links(nodes + {elm}), oldRoot, root, c, elm);
    }

    lemma HangOrder(elm: Symbol, c: Path) returns (k: nat)
      requires Valid() && Focus(nodes, Order(), c, Leaf) && Brackets(c, elm.name)
      ensures elm !in nodes && elm !in PathNodes(c) && forall n <- Order() :: n.name != elm.name
      ensures k <= |Order()| && Ordered(Order()[..k] + [elm] + Order()[k..])
      ensures Inorder(Plug(c, Node(Leaf, elm, true, Leaf))) == Order()[..k] + [elm] + Order()[k..]
    {
      Absent(c, elm.name);
      NodesInorder(tree);
      RepPathNodes(Links(nodes), c, null);
      OrderedInsert(c, elm);
      k := SplitOrder(elm, c);
    }

    lemma SplitOrder(elm: Symbol, c: Path) returns (k: nat)
      requires Order() == Inorder(Plug(c, Leaf))
      ensures k <= |Order()| && Order()[..k] == Before(c) && Order()[k..] == After(c)
      ensures Inorder(Plug(c, Node(Leaf, elm, true, Leaf))) == Before(c) + [elm] + After(c)
    {
      PlugInorder(c, Leaf);
      PlugInorder(c, Node(Leaf, elm, true, Leaf));
      k := |Before(c)|;
    }

    /** The tree as it is now is the table. */
    lemma Settle(s: set<Symbol>, order: seq<Symbol>)
      requires nodes == Nodes(tree) && Focus(s, order, Top, tree) && RedBlack(tree) && Ordered(order)
      ensures Valid() && Order() == order
    {
      RepNodes(Links(s), null, tree);
      RepSame(Links(s), Links(nodes), null, tree);
    }

    /** Hangs elm in the hole that the search for its name ended in, and repairs the colours. */
    method Place(elm: Symbol, parent: Symbol?, comp: int, ghost c: Path, ghost h: int) returns (ghost k: nat)
      requires Valid() && Focus(nodes, Order(), c, Leaf) && parent == Holder(c)
      requires Brackets(c, elm.name) && Sound(c, Leaf, h)
      requires (c.InLeft? ==> comp < 0) && (c.InRight? ==> comp > 0)
      modifies this, elm`left, elm`right, elm`parent, elm`red
      modifies nodes`left, nodes`right, nodes`parent, nodes`red
      ensures Valid()
      ensures forall n <- old(Order()) :: n.name != elm.name
      ensures k <= |old(Order())| && Order() == old(Order())[..k] + [elm] + old(Order())[k..]
    {
      hide Focus, Fair, Fits, Sound, Ordered, Brackets, Inorder, RedBlack, Nodes;
      ghost var s := nodes + {elm};
      ghost var leaf := Node(Leaf, elm, true, Leaf);
      RedLeafFits(c, elm, h);
      k := Hang(elm, parent, comp, c);
      ghost var order := Order()[..k] + [elm] + Order()[k..];
      tree := InsertColour(elm, s, order, c, leaf, h);
      nodes := Nodes(tree);
      Settle(s, order);
    }

    /** The sibling, a right child, turns black and rises above the parent, which turns red. */
    method LiftSiblingLeft(tmp: Symbol, parent: Symbol, ghost s: set<Symbol>, ghost order: seq<Symbol>,
            ghost c: Path, ghost t: Tree)
      requires Focus(s, order, c, t) && c.InLeft? && c.n == parent && c.right.Node? && c.right.n == tmp
      modifies `root, s`left, s`right, s`parent, s`red
      ensures Focus(s, order, InLeft(InLeft(c.up, tmp, false, c.right.right), parent, true, c.right.left), t)
    {
      hide Focus;
      ghost var d := SiblingPath(c, t);
      ghost var e := SiblingPath(d, Painted(c.right, false));
      Across(s, order, c, t);
      Paint(tmp, false, s, order, d, c.right);
      Up(s, order, d, Painted(c.right, false));
      Paint(parent, true, s, order, c.up, Fill(e, t));
      RotateLeft(parent, s, order, c.up, Painted(Fill(e, t), true));
      Up(s, order, InLeft(c.up, tmp, false, c.right.right), Node(t, parent, true, c.right.left));
      Up(s, order, InLeft(InLeft(c.up, tmp, false, c.right.right), parent, true, c.right.left), t);
    }

    /** The near nephew turns black and rises above the sibling, which turns red. */
    method TurnNephewLeft(tmp: Symbol, ghost s: set<Symbol>, ghost order: seq<Symbol>, ghost c: Path, ghost t: Tree)
      requires Focus(s, order, c, t) && c.InLeft? && c.right.Node? && c.right.n == tmp && c.right.left.Node?
      modifies `root, s`left, s`right, s`parent, s`red
      ensures var b := c.right; var u := Node(b.left.left, b.left.n, false, Node(b.left.right, b.n, true, b.right));
        Focus(s, order, InLeft(c.up, c.n, c.red, u), t)
    {
      hide Focus;
      ghost var d, b := SiblingPath(c, t), c.right;
      ghost var e := InLeft(d, b.n, b.red, b.right);
      ghost var f := Painted(Fill(e, Painted(b.left, false)), true);
      Across(s, order, c, t);
      Up(s, order, e, b.left);
      Around(s, order, d, b);
      var oleft := tmp.left;
      if oleft != null {
        Paint(oleft, false, s, order, e, b.left);
      }
      Up(s, order, e, Painted(b.left, false));
      Paint(tmp, true, s, order, d, Fill(e, Painted(b.left, false)));
      RotateRight(tmp, s, order, d, f);
      Across(s, order, d, RotatedRight(f));
    }

    /** The sibling rises above the parent with its colour; the parent and the far nephew turn black. */
    method FinishLeft(tmp: Symbol, parent: Symbol, ghost s: set<Symbol>, ghost order: seq<Symbol>,
            ghost c: Path, ghost t: Tree)
      requires Focus(s, order, c, t) && c.InLeft? && c.n == parent && c.right.Node? && c.right.n == tmp
      modifies `root, s`left, s`right, s`parent, s`red
      ensures var b := c.right;
        Focus(s, order, c.up, Node(Node(t, c.n, false, b.left), b.n, c.red, Painted(b.right, false)))
    {
      hide Focus;
      ghost var d, b := SiblingPath(c, t), c.right;
      ghost var b1 := Painted(b, c.red);
      ghost var e := InRight(b1.left, b1.n, b1.red, d);
      ghost var b2 := Fill(e, Painted(b.right, false));
      ghost var p := Fill(d, b2);
      Around(s, order, c, t);
      Across(s, order, c, t);
      Paint(tmp, parent.red, s, order, d, b);
      Up(s, order, e, b.right);
      Around(s, order, d, b1);
      Around(s, order, e, b.right);
      if tmp.right != null {
        Paint(tmp.right, false, s, order, e, b.right);
      }
      Up(s, order, e, Painted(b.right, false));
      Up(s, order, d, b2);
      Paint(parent, false, s, order, c.up, p);
      RotateLeft(parent, s, order, c.up, Painted(p, false));
    }

    method LiftSiblingRight(tmp: Symbol, parent: Symbol, ghost s: set<Symbol>, ghost order: seq<Symbol>,
            ghost c: Path, ghost t: Tree)
      requires Focus(s, order, c, t) && c.InRight? && c.n == parent && c.left.Node? && c.left.n == tmp
      modifies `root, s`left, s`right, s`parent, s`red
      ensures Focus(s, order, InRight(c.left.right, parent, true, InRight(c.left.left, tmp, false, c.up)), t)
    {
      hide Focus;
      ghost var d := SiblingPath(c, t);
      ghost var e := SiblingPath(d, Painted(c.left, false));
      Across(s, order, c, t);
      Paint(tmp, false, s, order, d, c.left);
      Up(s, order, d, Painted(c.left, false));
      Paint(parent, true, s, order, c.up, Fill(e, t));
      RotateRight(parent, s, order, c.up, Painted(Fill(e, t), true));
      Up(s, order, InRight(c.left.left, tmp, false, c.up), Node(c.left.right, parent, true, t));
      Up(s, order, InRight(c.left.right, parent, true, InRight(c.left.left, tmp, false, c.up)), t);
    }

    method TurnNephewRight(tmp: Symbol, ghost s: set<Symbol>, ghost order: seq<Symbol>, ghost c: Path, ghost t: Tree)
      requires Focus(s, order, c, t) && c.InRight? && c.left.Node? && c.left.n == tmp && c.left.right.Node?
      modifies `root, s`left, s`right, s`parent, s`red
      ensures var b := c.left; var u := Node(Node(b.left, b.n, true, b.right.left), b.right.n, false, b.right.right);
        Focus(s, order, InRight(u, c.n, c.red, c.up), t)
    {
      hide Focus;
      ghost var d, b := SiblingPath(c, t), c.left;
      ghost var e := InRight(b.left, b.n, b.red, d);
      ghost var f := Painted(Fill(e, Painted(b.right, false)), true);
      Across(s, order, c, t);
      Up(s, order, e, b.right);
      Around(s, order, d, b);
      var oright := tmp.right;
      if oright != null {
        Paint(oright, false, s, order, e, b.right);
      }
      Up(s, order, e, Painted(b.right, false));
      Paint(tmp, true, s, order, d, Fill(e, Painted(b.right, false)));
      RotateLeft(tmp, s, order, d, f);
      Across(s, order, d, RotatedLeft(f));
    }

    method FinishRight(tmp: Symbol, parent: Symbol, ghost s: set<Symbol>, ghost order: seq<Symbol>,
            ghost c: Path, ghost t: Tree)
      requires Focus(s, order, c, t) && c.InRight? && c.n == parent && c.left.Node? && c.left.n == tmp
      modifies `root, s`left, s`right, s`parent, s`red
      ensures var b := c.left;
        Focus(s, order, c.up, Node(Painted(b.left, false), b.n, c.red, Node(b.right, c.n, false, t)))
    {
      hide Focus;
      ghost var d, b := SiblingPath(c, t), c.left;
      ghost var b1 := Painted(b, c.red);
      ghost var e := InLeft(d, b1.n, b1.red, b1.right);
      ghost var b2 := Fill(e, Painted(b.left, false));
      ghost var p := Fill(d, b2);
      Around(s, order, c, t);
      Across(s, order, c, t);
      Paint(tmp, parent.red, s, order, d, b);
      Up(s, order, e, b.left);
      Around(s, order, d, b1);
      Around(s, order, e, b.left);
      if tmp.left != null {
        Paint(tmp.left, false, s, order, e, b.left);
      }
      Up(s, order, e, Painted(b.left, false));
      Up(s, order, d, b2);
      Paint(parent, false, s, order, c.up, p);
      RotateRight(parent, s, order, c.up, Painted(p, false));
    }

    /** A black sibling with black children turns red. */
    method ReddenSibling(tmp: Symbol, ghost s: set<Symbol>, ghost order: seq<Symbol>, ghost c: Path, ghost t: Tree)
      requires Focus(s, order, c, t) && !c.Top? && Sibling(c).Node? && Sibling(c).n == tmp
      modifies s`red
      ensures Focus(s, order, c.up, Fill(SiblingPath(c, t), Painted(Sibling(c), true)))
    {
      hide Focus;
      ghost var d := SiblingPath(c, t);
      Across(s, order, c, t);
      Paint(tmp, true, s, order, d, Sibling(c));
      Up(s, order, d, Painted(Sibling(c), true));
    }

    /** What the repair of a removal sees beside a tree that is one black node short. */
    lemma BesideShort(s: set<Symbol>, order: seq<Symbol>, c: Path, t: Tree, h: int)
      requires Focus(s, order, c, t) && !c.Top? && Fits(c, h + 1) && Has(t, h)
      ensures Sibling(c).Node? && (Sibling(c).red ==> !c.red && Sibling(c).left.Node? && Sibling(c).right.Node?)
      ensures c.n in s && c.n.red == c.red && c.n.parent == Holder(c.up)
      ensures c.n.left == (if c.InLeft? then Root(t) else Root(Sibling(c)))
      ensures c.n.right == (if c.InLeft? then Root(Sibling(c)) else Root(t))
      ensures c.InLeft? <==> c.n.left == Root(t)
      ensures var b := Sibling(c); b.n in s && b.n.red == b.red && b.n.left == Root(b.left) && b.n.right == Root(b.right)
      ensures var b := Sibling(c); (b.left.Node? ==> b.left.n in s && b.left.n.red == b.left.red) && (b.right.Node? ==> b.right.n in s && b.right.n.red == b.right.red)
    {
      HasNat(t, h);
      SiblingExists(c, h);
      Around(s, order, c, t);
      Across(s, order, c, t);
      var d, b := SiblingPath(c, t), Sibling(c);
      Around(s, order, d, b);
      Up(s, order, InLeft(d, b.n, b.red, b.right), b.left);
      Around(s, order, InLeft(d, b.n, b.red, b.right), b.left);
      Up(s, order, InRight(b.left, b.n, b.red, d), b.right);
      Around(s, order, InRight(b.left, b.n, b.red, d), b.right);
    }

    /** One round of the repair beside a right sibling; done when the tree is in order again. */
    method RemoveColourLeft(parent: Symbol, ghost s: set<Symbol>, ghost order: seq<Symbol>, ghost c0: Path,
            ghost t: Tree, ghost h: int)
      returns (done: bool, ghost d: Path, ghost u: Tree, ghost k: int)
      requires Focus(s, order, c0, t) && Weak(t, h) && Black(t) && Fits(c0, h + 1) && c0.InLeft? && c0.n == parent
      modifies `root, s`left, s`right, s`parent, s`red
      ensures Focus(s, order, d, u)
      ensures if done then Sound(d, u, k)
        else Weak(u, k) && Fits(d, k + 1) && u.Node? && u.n == parent && (!Black(u) || Depth(d) < Depth(c0))
    {
      hide Focus, NoRedRed, Fits;
      ghost var c := c0;
      BesideShort(s, order, c, t, h);
      var tmp := parent.right;
      if tmp.red {
        LiftedLeftFits(c, h);
        LiftSiblingLeft(tmp, parent, s, order, c, t);
        c := InLeft(InLeft(c.up, tmp, false, c.right.right), parent, true, c.right.left);
        BesideShort(s, order, c, t, h);
        tmp := parent.right;
      }
      assert Black(Sibling(c));
      if (tmp.left == null || !tmp.left.red) && (tmp.right == null || !tmp.right.red) {
        ReddenedFits(c, t, h);
        ReddenSibling(tmp, s, order, c, t);
        return false, c.up, Fill(SiblingPath(c, t), Painted(Sibling(c), true)), if c.red then h else h + 1;
      }
      if tmp.right == null || !tmp.right.red {
        NephewLeftFits(c, h);
        TurnNephewLeft(tmp, s, order, c, t);
        ghost var b := c.right;
        c := InLeft(c.up, c.n, c.red, Node(b.left.left, b.left.n, false, Node(b.left.right, b.n, true, b.right)));
        BesideShort(s, order, c, t, h);
        tmp := parent.right;
      }
      FinishedLeftFits(c, t, h);
      FinishLeft(tmp, parent, s, order, c, t);
      ghost var b := c.right;
      return true, c.up, Node(Node(t, c.n, false, b.left), b.n, c.red, Painted(b.right, false)), if c.red then h + 1 else h + 2;
    }

    method RemoveColourRight(parent: Symbol, ghost s: set<Symbol>, ghost order: seq<Symbol>, ghost c0: Path,
            ghost t: Tree, ghost h: int)
      returns (done: bool, ghost d: Path, ghost u: Tree, ghost k: int)
      requires Focus(s, order, c0, t) && Weak(t, h) && Black(t) && Fits(c0, h + 1) && c0.InRight? && c0.n == parent
      modifies `root, s`left, s`right, s`parent, s`red
      ensures Focus(s, order, d, u)
      ensures if done then Sound(d, u, k)
        else Weak(u, k) && Fits(d, k + 1) && u.Node? && u.n == parent && (!Black(u) || Depth(d) < Depth(c0))
    {
      hide Focus, NoRedRed, Fits;
      ghost var c := c0;
      BesideShort(s, order, c, t, h);
      var tmp := parent.left;
      if tmp.red {
        LiftedRightFits(c, h);
        LiftSiblingRight(tmp, parent, s, order, c, t);
        c := InRight(c.left.right, parent, true, InRight(c.left.left, tmp, false, c.up));
        BesideShort(s, order, c, t, h);
        tmp := parent.left;
      }
      assert Black(Sibling(c));
      if (tmp.left == null || !tmp.left.red) && (tmp.right == null || !tmp.right.red) {
        ReddenedFits(c, t, h);
        ReddenSibling(tmp, s, order, c, t);
        return false, c.up, Fill(SiblingPath(c, t), Painted(Sibling(c), true)), if c.red then h else h + 1;
      }
      if tmp.left == null || !tmp.left.red {
        NephewRightFits(c, h);
        TurnNephewRight(tmp, s, order, c, t);
        ghost var b := c.left;
        c := InRight(Node(Node(b.left, b.n, true, b.right.left), b.right.n, false, b.right.right), c.n, c.red, c.up);
        BesideShort(s, order, c, t, h);
        tmp := parent.left;
      }
      FinishedRightFits(c, t, h);
      FinishRight(tmp, parent, s, order, c, t);
      ghost var b := c.left;
      return true, c.up, Node(Painted(b.left, false), b.n, c.red, Node(b.right, c.n, false, t)), if c.red then h + 1 else h + 2;
    }

    /** RB_REMOVE_COLOR: the subtree first below above is one black node short. */
    method RemoveColour(above: Symbol?, first: Symbol?, ghost s: set<Symbol>, ghost order: seq<Symbol>,
                        ghost c0: Path, ghost t0: Tree, ghost h0: int)
      returns (ghost repaired: Tree)
      requires Focus(s, order, c0, t0) && above == Holder(c0) && first == Root(t0) && Weak(t0, h0) && Fits(c0, h0 + 1)
      modifies `root, s`left, s`right, s`parent, s`red
      ensures Focus(s, order, Top, repaired) && RedBlack(repaired)
    {
      hide Focus, Has, NoRedRed, Fits, Weak, Sound;
      var parent, elm := above, first;
      ghost var c, t, h := c0, t0, h0;
      NotRoot(s, order, c, t);
      while (elm == null || !elm.red) && elm != root
        invariant Focus(s, order, c, t) && parent == Holder(c) && elm == Root(t) && Weak(t, h) && Fits(c, h + 1)
        invariant (elm == root <==> c.Top?) && (elm != null ==> elm in s && elm.red == t.red)
        decreases if Black(t) then 1 + Depth(c) else 0
      {
        Around(s, order, c, t);
        var done;
        LeftOrRight(s, order, c, t, h);
        if parent.left == elm {
          done, c, t, h := RemoveColourLeft(parent, s, order, c, t, h);
        } else {
          done, c, t, h := RemoveColourRight(parent, s, order, c, t, h);
        }
        if done {
          FocusRoot(s, order, c, t);
          PlugFits(c, t, h);
          c, t := Top, Plug(c, t);
          h :| Fair(t, h);
          FairIsWeak(t, h);
          elm := root;
          NotRoot(s, order, c, t);
          assert Fits(Top, h + 1) by { TopFits(h + 1); }
          break;
        }
        elm := parent;
        NotRoot(s, order, c, t);
        parent := elm.parent;
      }
      if elm != null {
        Paint(elm, false, s, order, c, t);
      }
      repaired := Plug(c, Painted(t, false));
      FocusRoot(s, order, c, Painted(t, false));
      RemovalRepaired(c, t, h);
    }

    lemma TopFits(h: int)
      ensures Fits(Top, h)
    {
    }

    /** Only the root of the whole tree is the root. */
    lemma NotRoot(s: set<Symbol>, order: seq<Symbol>, c: Path, t: Tree)
      requires Focus(s, order, c, t)
      ensures root == Root(t) <==> c.Top?
      ensures t.Node? ==> t.n in s && t.n.red == t.red && t.n.parent == Holder(c)
      ensures !c.Top? ==> c.n in s
    {
      Around(s, order, c, t);
      if !c.Top? { PathRootIn(c, Root(t)); }
    }

    lemma {:induction false} PathRootIn(c: Path, x: Symbol?)
      requires !c.Top?
      ensures PathRoot(c, x) != null && PathRoot(c, x) in PathNodes(c)
      decreases c
    {
      if !c.up.Top? { PathRootIn(c.up, c.n); }
    }

    lemma LeftOrRight(s: set<Symbol>, order: seq<Symbol>, c: Path, t: Tree, h: int)
      requires Focus(s, order, c, t) && !c.Top? && Weak(t, h) && Fits(c, h + 1)
      ensures c.InLeft? <==> c.n.left == Root(t)
    {
      BesideShort(s, order, c, t, h);
    }

    /** Takes elm out of the tree; child, its only child or null, takes its place. */
    method Splice(elm: Symbol, child: Symbol?, ghost s: set<Symbol>, ghost order: seq<Symbol>, ghost c: Path,
            ghost t: Tree, ghost u: Tree)
      requires Focus(s, order, c, t) && t.Node? && t.n == elm && child == Root(u)
      requires (t.left.Leaf? && u == t.right) || (t.right.Leaf? && u == t.left)
      modifies `root, s`left, s`right, s`parent
      ensures Focus(s, Inorder(Plug(c, u)), c, u)
      ensures Cell(elm.left, elm.right, elm.parent, elm.red) == old(Cell(elm.left, elm.right, elm.parent, elm.red))
    {
      hide At, Inorder, Plug, Nodes, PathNodes;
      ghost var h, oldRoot := Links(s), root;
      SpliceFacts(s, order, c, t, u);
      var parent := elm.parent;
      if child != null {
        child.parent := parent;
      }
      Relink(parent, elm, child);
      Spliced(h, Links(s), oldRoot, root, c, t, u);
    }

    lemma SpliceFacts(s: set<Symbol>, order: seq<Symbol>, c: Path, t: Tree, u: Tree)
      requires Focus(s, order, c, t) && t.Node? && ((t.left.Leaf? && u == t.right) || (t.right.Leaf? && u == t.left))
      ensures t.n in s && t.n.left == Root(t.left) && t.n.right == Root(t.right) && t.n.parent == Holder(c)
      ensures t.n.red == t.red
      ensures u.Node? ==> u.n in s && u.n != t.n && u.n != Holder(c)
      ensures if c.Top? then root == t.n else c.n in s && Cell(c.n.left, c.n.right, c.n.parent, c.n.red) == HolderCell(c, t.n)
      ensures !c.Top? ==> c.n != t.n && (c.InLeft? <==> c.n.left == t.n) && (c.InRight? <==> c.n.right == t.n)
    {
      Local(Links(s), root, c, t);
      RootIn(u);
      assert Rep(Links(s), t.n, u);
    }

    /** The links of elm taking over the entry of gone. */
    method LinkOver(elm: Symbol, gone: Symbol)
      requires gone.left != null && elm !in {gone, gone.left, gone.right, gone.parent}
      requires gone !in {gone.left, gone.right, gone.parent}
      requires gone.left !in {gone.right, gone.parent} && (gone.right != null ==> gone.right != gone.parent)
      modifies `root, elm`left, elm`right, elm`parent, elm`red, gone.left`parent
      modifies (if gone.right == null then {} else {gone.right})`parent
      modifies (if gone.parent == null then {} else {gone.parent})`left, (if gone.parent == null then {} else {gone.parent})`right
      ensures Cell(elm.left, elm.right, elm.parent, elm.red) == Cell(gone.left, gone.right, gone.parent, gone.red)
      ensures gone.left.parent == elm && (gone.right != null ==> gone.right.parent == elm)
      ensures var p := gone.parent;
        if p == null then root == elm
        else
          && root == old(root)
          && if old(gone.parent.left) == gone then p.left == elm && p.right == old(gone.parent.right)
             else p.left == old(gone.parent.left) && p.right == elm
    {
      elm.left := gone.left;
      elm.right := gone.right;
      elm.parent := gone.parent;
      elm.red := gone.red;
      Relink(gone.parent, gone, elm);
      gone.left.parent := elm;
      if gone.right != null {
        gone.right.parent := elm;
      }
    }

    /** elm, already out of the tree, takes over the place of gone. */
    method TakeOver(elm: Symbol, gone: Symbol, ghost s: set<Symbol>, ghost order: seq<Symbol>, ghost c: Path,
            ghost t: Tree)
      requires Focus(s, order, c, t) && t.Node? && t.n == gone && t.left.Node? && elm in s && elm !in Nodes(t)
      requires elm !in PathNodes(c)
      modifies `root, s`left, s`right, s`parent, elm`red
      ensures Focus(s, Inorder(Plug(c, t.(n := elm))), c, t.(n := elm))
    {
      ghost var h, oldRoot := Links(s), root;
      TakeOverFacts(s, order, c, t, elm);
      hide At, Inorder, Plug, Nodes, PathNodes;
      LinkOver(elm, gone);
      Renamed(h, Links(s), oldRoot, root, c, t, elm);
    }

    lemma TakeOverFacts(s: set<Symbol>, order: seq<Symbol>, c: Path, t: Tree, elm: Symbol)
      requires Focus(s, order, c, t) && t.Node? && elm !in Nodes(t) && elm !in PathNodes(c)
      ensures t.n in s && t.n.left == Root(t.left) && t.n.right == Root(t.right) && t.n.parent == Holder(c)
      ensures t.n.red == t.red
      ensures t.left.Node? ==> t.left.n in s && t.left.n !in {t.n, elm, Holder(c), Root(t.right)}
      ensures t.right.Node? ==> t.right.n in s && t.right.n !in {t.n, elm, Holder(c)}
      ensures if c.Top? then root == t.n else c.n in s && Cell(c.n.left, c.n.right, c.n.parent, c.n.red) == HolderCell(c, t.n)
      ensures !c.Top? ==> c.n != t.n && c.n != elm && (c.InLeft? <==> c.n.left == t.n) && (c.InRight? <==> c.n.right == t.n)
      ensures t.n != elm
    {
      Local(Links(s), root, c, t);
      RootIn(t.left);
      RootIn(t.right);
      assert Rep(Links(s), t.n, t.left) && Rep(Links(s), t.n, t.right);
    }

    /** The symbols at and around position k of the order. */
    lemma FindFocus(k: nat) returns (c: Path, t: Tree, h: int)
      requires Valid() && k < |Order()|
      ensures Focus(nodes, Order(), c, t) && t.Node? && t.n == Order()[k] && Sound(c, t, h)
      ensures |Before(c)| + |Inorder(t.left)| == k
    {
      c, t := Top, tree;
      h :| Fair(tree, h);
      while |Before(c)| + |Inorder(t.left)| != k
        invariant t.Node? && Focus(nodes, Order(), c, t) && Sound(c, t, h)
        invariant |Before(c)| <= k < |Before(c)| + |Inorder(t)|
        decreases t
      {
        if k < |Before(c)| + |Inorder(t.left)| {
          Up(nodes, Order(), InLeft(c, t.n, t.red, t.right), t.left);
          SoundLeft(c, t, h);
          h := if t.red then h else h - 1;
          c, t := InLeft(c, t.n, t.red, t.right), t.left;
        } else {
          Up(nodes, Order(), InRight(t.left, t.n, t.red, c), t.right);
          SoundRight(c, t, h);
          h := if t.red then h else h - 1;
          c, t := InRight(t.left, t.n, t.red, c), t.right;
        }
      }
      OrderAround(c, t);
    }

    /** Repairs the colours after a node of colour red or black was taken out above u. */
    method Mend(red: bool, parent: Symbol?, child: Symbol?, ghost s: set<Symbol>, ghost order: seq<Symbol>,
                ghost c: Path, ghost u: Tree, ghost h: int)
      returns (ghost repaired: Tree)
      requires Focus(s, order, c, u) && parent == Holder(c) && child == Root(u)
      requires if red then RedBlack(Plug(c, u)) else Weak(u, h - 1) && Fits(c, h)
      modifies `root, s`left, s`right, s`parent, s`red
      ensures Focus(s, order, Top, repaired) && RedBlack(repaired)
    {
      FocusRoot(s, order, c, u);
      repaired := Plug(c, u);
      if !red {
        repaired := RemoveColour(parent, child, s, order, c, u, h - 1);
      }
    }

    /** Takes out a symbol with at most one child. */
    method RemoveSingle(elm: Symbol, child: Symbol?, ghost k: nat, ghost c: Path, ghost t: Tree, ghost u: Tree,
            ghost h: int)
      returns (ghost repaired: Tree)
      requires Valid() && Focus(nodes, Order(), c, t) && t.Node? && t.n == elm && child == Root(u) && Sound(c, t, h)
      requires (t.left.Leaf? && u == t.right) || (t.right.Leaf? && u == t.left)
      requires k == |Before(c)| + |Inorder(t.left)|
      modifies `root, nodes`left, nodes`right, nodes`parent, nodes`red
      ensures k < |Order()| && Focus(nodes, Order()[..k] + Order()[k + 1..], Top, repaired) && RedBlack(repaired)
    {
      hide Focus, RedBlack, Weak, Fits, Sound, Inorder, Plug, Before, Nodes;
      ghost var s, order := nodes, Order();
      Around(s, order, c, t);
      SplicedFits(c, t, u, h);
      SplicedOrder(c, t, u, k);
      var parent, red := elm.parent, elm.red;
      Splice(elm, child, s, order, c, t, u);
      repaired := Mend(red, parent, child, s, Inorder(Plug(c, u)), c, u, h);
    }

    /** Descends from elm to the leftmost node below it; returns the way there and what is found there. */
    method Leftmost(first: Symbol, ghost s: set<Symbol>, ghost order: seq<Symbol>, ghost c: Path,
            ghost t: Tree, ghost h0: int)
      returns (elm: Symbol, ghost inner: Path, ghost v: Tree, ghost h: int)
      requires Focus(s, order, c, t) && t.Node? && t.n == first && Sound(c, t, h0)
      ensures Focus(s, order, Compose(inner, c), v) && v.Node? && v.n == elm && v.left.Leaf?
      ensures Sound(Compose(inner, c), v, h)
      ensures Plug(inner, v) == t && Before(inner) == []
    {
      hide Focus, Sound;
      elm, inner, v, h := first, Top, t, h0;
      Around(s, order, c, t);
      while elm.left != null
        invariant Focus(s, order, Compose(inner, c), v) && v.Node? && v.n == elm && Sound(Compose(inner, c), v, h)
        invariant elm.left == Root(v.left) && Plug(inner, v) == t && Before(inner) == []
        decreases v
      {
        Up(s, order, InLeft(Compose(inner, c), v.n, v.red, v.right), v.left);
        SoundLeft(Compose(inner, c), v, h);
        elm, h := elm.left, if v.red then h else h - 1;
        inner, v := InLeft(inner, v.n, v.red, v.right), v.left;
        Around(s, order, Compose(inner, c), v);
      }
    }

    /** From the hole the successor left, to the node it is to take over. */
    lemma AtGone(s: set<Symbol>, order: seq<Symbol>, c: Path, t: Tree, inner: Path, v: Tree)
      requires t.Node? && v.Node? && v.left.Leaf?
      requires Focus(s, order, Compose(inner, InRight(t.left, t.n, t.red, c)), v.right)
      ensures Focus(s, order, c, Node(t.left, t.n, t.red, Plug(inner, v.right)))
    {
      var d := InRight(t.left, t.n, t.red, c);
      ZipAll(Links(s), root, inner, d, v.right);
      ComposeFacts(inner, d, v.right);
      Up(s, order, d, Plug(inner, v.right));
    }

    /** And back, with the successor in place. */
    lemma BackAgain(s: set<Symbol>, order: seq<Symbol>, c: Path, l: Tree, n: Symbol, red: bool, inner: Path, u: Tree)
      requires Focus(s, order, c, Node(l, n, red, Plug(inner, u)))
      ensures Focus(s, order, Compose(inner, InRight(l, n, red, c)), u)
    {
      var d := InRight(l, n, red, c);
      Up(s, order, d, Plug(inner, u));
      ZipAll(Links(s), root, inner, d, u);
      ComposeFacts(inner, d, u);
    }

    lemma SuccessorApart(s: set<Symbol>, order: seq<Symbol>, c: Path, t: Tree, inner: Path, v: Tree)
      requires t.Node? && v.Node? && v.left.Leaf? && Focus(s, order, Compose(inner, InRight(t.left, t.n, t.red, c)), v)
      ensures v.n in s && v.n !in PathNodes(c) && v.n !in Nodes(Node(t.left, t.n, t.red, Plug(inner, v.right)))
      ensures v.n.right == Root(v.right) && v.n.parent == Holder(Compose(inner, InRight(t.left, t.n, t.red, c)))
      ensures v.n.red == v.red
      ensures v.n.parent == t.n <==> inner.Top?
      ensures !inner.Top? ==> v.n.parent == inner.n
    {
      hide Focus, DistinctPath, PathNodes, Nodes, Plug, Compose, Inorder;
      var d := InRight(t.left, t.n, t.red, c);
      HolderCompose(inner, d);
      Around(s, order, Compose(inner, d), v);
      FocusApart(s, order, Compose(inner, d), v);
      SuccessorOutside(c, t, inner, v);
      InnerApart(inner, d);
    }

    lemma HolderCompose(inner: Path, outer: Path)
      ensures Holder(Compose(inner, outer)) == if inner.Top? then Holder(outer) else inner.n
    {
    }

    lemma FocusApart(s: set<Symbol>, order: seq<Symbol>, c: Path, t: Tree)
      requires Focus(s, order, c, t)
      ensures Apart(c, t)
    {
    }

    lemma SuccessorOutside(c: Path, t: Tree, inner: Path, v: Tree)
      requires t.Node? && v.Node? && Apart(Compose(inner, InRight(t.left, t.n, t.red, c)), v)
      ensures v.n !in PathNodes(c) && v.n !in Nodes(Node(t.left, t.n, t.red, Plug(inner, v.right)))
    {
      var d := InRight(t.left, t.n, t.red, c);
      ComposeFacts(inner, d, v.right);
      assert v.n !in Nodes(v.right) && v.n in Nodes(v);
      assert PathNodes(d) == PathNodes(c) + {t.n} + Nodes(t.left);
      hide Distinct, DistinctPath, PathNodes, Compose, Plug;
      assert v.n !in PathNodes(inner) && v.n !in PathNodes(d);
    }

    lemma {:induction false} InnerApart(inner: Path, outer: Path)
      requires DistinctPath(Compose(inner, outer))
      ensures PathNodes(inner) !! PathNodes(outer)
      ensures !inner.Top? && !outer.Top? ==> inner.n != outer.n
      decreases inner
    {
      if !inner.Top? {
        InnerApart(inner.up, outer);
        ComposeFacts(inner.up, outer, Leaf);
        assert Compose(inner, outer).up == Compose(inner.up, outer);
        assert !outer.Top? ==> outer.n in PathNodes(outer);
      }
    }

    /** Takes out a symbol with two children: its successor leaves its own place and takes over. */
    method RemoveDouble(gone: Symbol, ghost k: nat, ghost c: Path, ghost t: Tree, ghost h: int)
      returns (ghost repaired: Tree)
      requires Valid() && Focus(nodes, Order(), c, t) && t.Node? && t.n == gone && t.left.Node? && t.right.Node?
      requires Sound(c, t, h)
      requires k == |Before(c)| + |Inorder(t.left)|
      modifies `root, nodes`left, nodes`right, nodes`parent, nodes`red
      ensures k < |Order()| && Focus(nodes, Order()[..k] + Order()[k + 1..], Top, repaired) && RedBlack(repaired)
    {
      hide Focus, RedBlack, Weak, Fits, Sound, Inorder, Plug, Nodes, PathNodes, Compose;
      ghost var s, order := nodes, Order();
      ghost var d := InRight(t.left, t.n, t.red, c);
      Around(s, order, c, t);
      Up(s, order, d, t.right);
      SoundRight(c, t, h);
      ghost var inner, v, j;
      var elm;
      elm, inner, v, j := Leftmost(gone.right, s, order, d, t.right, if t.red then h else h - 1);
      SuccessorApart(s, order, c, t, inner, v);
      var child, parent, red := elm.right, elm.parent, elm.red;
      Splice(elm, child, s, order, Compose(inner, d), v, v.right);
      if elm.parent == gone {
        parent := elm;
      }
      ghost var order1 := Inorder(Plug(Compose(inner, d), v.right));
      ghost var u := Node(t.left, t.n, t.red, Plug(inner, v.right));
      AtGone(s, order1, c, t, inner, v);
      TakeOver(elm, gone, s, order1, c, u);
      TakenOverOrder(c, t, inner, v, k);
      BackAgain(s, order[..k] + order[k + 1..], c, t.left, elm, t.red, inner, v.right);
      ghost var e := InRight(t.left, elm, t.red, c);
      SuccessorSpliced(inner, d, elm, v, j);
      repaired := Mend(red, parent, child, s, order[..k] + order[k + 1..], Compose(inner, e), v.right, j);
    }

    lemma SuccessorSpliced(inner: Path, d: Path, elm: Symbol, v: Tree, j: int)
      requires !d.Top? && Sound(Compose(inner, d), v, j) && v.Node? && v.left.Leaf?
      ensures var e := Compose(inner, d.(n := elm)); if v.red then RedBlack(Plug(e, v.right)) else Weak(v.right, j - 1) && Fits(e, j)
      ensures Holder(Compose(inner, d.(n := elm))) == if inner.Top? then elm else inner.n
    {
      RenamedFits(inner, d, elm, j);
      assert Blocks(Compose(inner, d)) == Blocks(Compose(inner, d.(n := elm)));
      SplicedFits(Compose(inner, d.(n := elm)), v, v.right, j);
    }

    /** RB_REMOVE: takes symbol number k out of the table. */
    method Remove(elm: Symbol, ghost k: nat) returns (gone: Symbol)
      requires Valid() && k < |Order()| && Order()[k] == elm
      modifies this, nodes`left, nodes`right, nodes`parent, nodes`red
      ensures Valid() && gone == elm
      ensures Order() == old(Order())[..k] + old(Order())[k + 1..]
    {
      gone := elm;
      hide Focus, Has, NoRedRed, Fits, Ordered, Inorder, RedBlack, Sound, Nodes, PathNodes;
      ghost var s, order := nodes, Order();
      assert order[..k] + [elm] + order[k + 1..] == order;
      OrderedRemove(order[..k], elm, order[k + 1..]);
      ghost var c, t, h := FindFocus(k);
      Around(s, order, c, t);
      ghost var repaired;
      if elm.left == null {
        repaired := RemoveSingle(elm, elm.right, k, c, t, t.right, h);
      } else if elm.right == null {
        repaired := RemoveSingle(elm, elm.left, k, c, t, t.left, h);
      } else {
        repaired := RemoveDouble(elm, k, c, t, h);
      }
      tree := repaired;
      nodes := Nodes(tree);
      Settle(s, order[..k] + order[k + 1..]);
    }

    /** RB_FIND: the symbol of that name, or null when there is none. */
    method Find(key: string) returns (found: Symbol?)
      requires Valid()
      ensures found != null ==> found in Order() && found.name == key
      ensures found == null ==> forall n <- Order() :: n.name != key
    {
      hide Focus, Sound, Ordered, Brackets, Inorder, Before, After, RedBlack;
      ghost var s, order := nodes, Order();
      var tmp := root;
      ghost var c, t, h := StartSearch(key);
      while tmp != null
        invariant Focus(s, order, c, t) && tmp == Root(t) && Brackets(c, key) && Sound(c, t, h)
        decreases t
      {
        Around(s, order, c, t);
        var comp := Compare(key, tmp.name);
        if comp < 0 {
          tmp := tmp.left;
          GoLeft(s, order, c, t, key, h);
          h := if t.red then h else h - 1;
          c, t := InLeft(c, t.n, t.red, t.right), t.left;
        } else if comp > 0 {
          tmp := tmp.right;
          GoRight(s, order, c, t, key, h);
          h := if t.red then h else h - 1;
          c, t := InRight(t.left, t.n, t.red, c), t.right;
        } else {
          InFocus(s, order, c, t, key);
          return tmp;
        }
      }
      Around(s, order, c, t);
      Absent(c, key);
      found := null;
    }

    /** RB_MINMAX: the first symbol in order if val is negative, else the last; null when there is none. */
    method MinMax(val: int) returns (parent: Symbol?)
      requires Valid()
      ensures if Order() == [] then parent == null else parent == if val < 0 then Order()[0] else Order()[|Order()| - 1]
      ensures parent != null ==>
        forall n <- Order() :: n != parent ==> if val < 0 then Precedes(parent.name, n.name) else Precedes(n.name, parent.name)
    {
      Ascending();
      hide At, RedBlack, Ordered, Precedes;
      ghost var s, order := nodes, Order();
      var tmp := root;
      parent := null;
      ghost var c, t := Top, tree;
      Around(s, order, c, t);
      while tmp != null
        invariant Focus(s, order, c, t) && tmp == Root(t) && parent == Holder(c)
        invariant if val < 0 then Before(c) == [] && !c.InRight? else After(c) == [] && !c.InLeft?
        decreases t
      {
        Around(s, order, c, t);
        parent := tmp;
        if val < 0 {
          tmp := tmp.left;
          Up(s, order, InLeft(c, t.n, t.red, t.right), t.left);
          c, t := InLeft(c, t.n, t.red, t.right), t.left;
        } else {
          tmp := tmp.right;
          Up(s, order, InRight(t.left, t.n, t.red, c), t.right);
          c, t := InRight(t.left, t.n, t.red, c), t.right;
        }
      }
      PlugInorder(c, t);
    }

    /** RB_NEXT: the symbol after number k, or null. */
    method Next(elm: Symbol, ghost k: nat) returns (next: Symbol?)
      requires Valid() && k < |Order()| && Order()[k] == elm
      ensures next == if k + 1 < |Order()| then Order()[k + 1] else null
    {
      hide At, RedBlack, Ordered, Sound, Nodes;
      ghost var c, t, h := FindFocus(k);
      Around(nodes, Order(), c, t);
      if elm.right != null {
        Up(nodes, Order(), InRight(t.left, t.n, t.red, c), t.right);
        next := FirstBelow(elm.right, k + 1, InRight(t.left, t.n, t.red, c), t.right);
      } else if elm.parent != null && elm == elm.parent.left {
        next := elm.parent;
        PlugInorder(c, t);
      } else {
        next := ClimbRight(elm, k, c, t);
      }
    }

    /** RB_PREV: the symbol before number k, or null. */
    method Prev(elm: Symbol, ghost k: nat) returns (prev: Symbol?)
      requires Valid() && k < |Order()| && Order()[k] == elm
      ensures prev == if k > 0 then Order()[k - 1] else null
    {
      hide At, RedBlack, Ordered, Sound, Nodes;
      ghost var c, t, h := FindFocus(k);
      Around(nodes, Order(), c, t);
      if elm.left != null {
        Up(nodes, Order(), InLeft(c, t.n, t.red, t.right), t.left);
        prev := LastBelow(elm.left, k, InLeft(c, t.n, t.red, t.right), t.left);
      } else if elm.parent != null && elm == elm.parent.right {
        prev := elm.parent;
        PlugInorder(c, t);
      } else {
        prev := ClimbLeft(elm, k, c, t);
      }
    }

    /** The leftmost symbol below elm is number k when k symbols come before the subtree of elm. */
    method FirstBelow(first: Symbol, ghost k: nat, ghost c0: Path, ghost t0: Tree) returns (elm: Symbol)
      requires Valid() && Focus(nodes, Order(), c0, t0) && Root(t0) == first && |Before(c0)| == k
      ensures k < |Order()| && elm == Order()[k]
    {
      hide At, RedBlack, Ordered;
      ghost var s, order := nodes, Order();
      ghost var c, t := c0, t0;
      elm := first;
      Around(s, order, c, t);
      while elm.left != null
        invariant Focus(s, order, c, t) && t.Node? && t.n == elm && elm.left == Root(t.left) && |Before(c)| == k
        decreases t
      {
        elm := elm.left;
        Up(s, order, InLeft(c, t.n, t.red, t.right), t.left);

        c, t := InLeft(c, t.n, t.red, t.right), t.left;
        Around(s, order, c, t);
      }
      OrderAround(c, t);
    }

    /** The rightmost symbol below first comes just before number k when k symbols come before or in the subtree of first. */
    method LastBelow(first: Symbol, ghost k: nat, ghost c0: Path, ghost t0: Tree) returns (elm: Symbol)
      requires Valid() && Focus(nodes, Order(), c0, t0) && Root(t0) == first && |Before(c0)| + |Inorder(t0)| == k
      ensures 0 < k <= |Order()| && elm == Order()[k - 1]
    {
      hide At, RedBlack, Ordered;
      ghost var s, order := nodes, Order();
      ghost var c, t := c0, t0;
      elm := first;
      Around(s, order, c, t);
      while elm.right != null
        invariant Focus(s, order, c, t) && t.Node? && t.n == elm && elm.right == Root(t.right)
        invariant |Before(c)| + |Inorder(t)| == k
        decreases t
      {
        elm := elm.right;
        Up(s, order, InRight(t.left, t.n, t.red, c), t.right);
        c, t := InRight(t.left, t.n, t.red, c), t.right;
        Around(s, order, c, t);
      }
      OrderAround(c, t);
    }

    /** Climbs from the last symbol of a subtree, number k, to the one after it. */
    method ClimbRight(first: Symbol, ghost k: nat, ghost c0: Path, ghost t0: Tree) returns (next: Symbol?)
      requires Valid() && Focus(nodes, Order(), c0, t0) && Root(t0) == first && |Before(c0)| + |Inorder(t0)| == k + 1
      ensures next == if k + 1 < |Order()| then Order()[k + 1] else null
    {
      hide At, RedBlack, Ordered;
      ghost var s, order := nodes, Order();
      ghost var c, t := c0, t0;
      var elm := first;
      Around(s, order, c, t);
      while elm.parent != null && elm == elm.parent.right
        invariant Focus(s, order, c, t) && t.Node? && t.n == elm && |Before(c)| + |Inorder(t)| == k + 1
        invariant elm.parent == Holder(c) && (!c.Top? ==> (c.InRight? <==> c.n.right == elm))
        decreases c
      {
        elm := elm.parent;
        Up(s, order, c, t);
        c, t := c.up, Fill(c, t);
        Around(s, order, c, t);
      }
      next := elm.parent;
      PlugInorder(c, t);
    }

    /** Climbs from the first symbol of a subtree, number k, to the one before it. */
    method ClimbLeft(first: Symbol, ghost k: nat, ghost c0: Path, ghost t0: Tree) returns (prev: Symbol?)
      requires Valid() && Focus(nodes, Order(), c0, t0) && Root(t0) == first && |Before(c0)| == k
      ensures prev == if 0 < k <= |Order()| then Order()[k - 1] else null
    {
      hide At, RedBlack, Ordered;
      ghost var s, order := nodes, Order();
      ghost var c, t := c0, t0;
      var elm := first;
      Around(s, order, c, t);
      while elm.parent != null && elm == elm.parent.left
        invariant Focus(s, order, c, t) && t.Node? && t.n == elm && |Before(c)| == k
        invariant elm.parent == Holder(c) && (!c.Top? ==> (c.InLeft? <==> c.n.left == elm))
        decreases c
      {
        elm := elm.parent;
        Up(s, order, c, t);
        c, t := c.up, Fill(c, t);
        Around(s, order, c, t);
      }
      prev := elm.parent;
      PlugInorder(c, t);
    }

    /** RB_FOREACH: from the least symbol on by RB_NEXT, every symbol once and in order. */
    method ForEach() returns (seen: seq<Symbol>)
      requires Valid()
      ensures seen == Order()
      ensures forall i, j :: 0 <= i < j < |seen| ==> Precedes(seen[i].name, seen[j].name)
    {
      Ascending();
      hide Precedes;
      seen := [];
      var x := MinMax(-1);
      while x != null
        invariant |seen| <= |Order()| && seen == Order()[..|seen|]
        invariant x == if |seen| < |Order()| then Order()[|seen|] else null
        decreases |Order()| - |seen|
      {
        seen := seen + [x];
        x := Next(x, |seen| - 1);
      }
    }

    /** The order is ascending, in dictionary order of the names. */
    lemma Ascending()
      requires Valid()
      ensures forall i, j :: 0 <= i < j < |Order()| ==> Precedes(Order()[i].name, Order()[j].name)
    {
      forall i, j | 0 <= i < j < |Order()| ensures Precedes(Order()[i].name, Order()[j].name) {
        LessIsDictionary(Order()[i].name, Order()[j].name);
      }
    }

    /** The tree is at most 2 log2(n + 1) high. */
    lemma HeightBound()
      requires Valid()
      ensures Pow2(Height(tree)) <= (|Order()| + 1) * (|Order()| + 1)
    {
      TreeHeight(tree);
    }

    /** The symbols of the tree are those of the order, and no two of them have the same name. */
    lemma OrderIsNodes()
      requires Valid()
      ensures nodes == Elements(Order())
      ensures forall m, n :: m in Order() && n in Order() && m.name == n.name ==> m == n
    {
      NodesInorder(tree);
      forall m, n | m in Order() && n in Order() && m.name == n.name ensures m == n {
        CompareEqual(m.name, n.name);
        var i :| 0 <= i < |Order()| && Order()[i] == m;
        var j :| 0 <= j < |Order()| && Order()[j] == n;
        CompareFlips(m.name, n.name);
      }
    }
  }
}
