// Search order: the symbols of a table in increasing order of their names.
module RbOrder {
  import opened Symbols
  import opened RbModel

  ghost predicate Ordered(s: seq<Symbol>) {
    forall i, j :: 0 <= i < j < |s| ==> Less(s[i].name, s[j].name)
  }

  /** Everything before the hole of c is less than key, everything behind it greater. */
  ghost predicate Brackets(c: Path, key: string) {
    (forall n <- Before(c) :: Less(n.name, key)) && forall n <- After(c) :: Less(key, n.name)
  }

  ghost function Elements(s: seq<Symbol>): set<Symbol> {
    set n | n in s
  }

  lemma {:induction false} NodesInorder(t: Tree)
    ensures Nodes(t) == Elements(Inorder(t))
    decreases t
  {
    if t.Node? {
      NodesInorder(t.left);
      NodesInorder(t.right);
      assert Elements(Inorder(t)) == Elements(Inorder(t.left)) + {t.n} + Elements(Inorder(t.right));
    }
  }

  lemma OrderedAround(a: seq<Symbol>, n: Symbol, b: seq<Symbol>)
    requires Ordered(a + [n] + b)
    ensures (forall x <- a :: Less(x.name, n.name)) && forall x <- b :: Less(n.name, x.name)
  {
    var s := a + [n] + b;
    forall x <- a ensures Less(x.name, n.name) {
      var i :| 0 <= i < |a| && a[i] == x;
      assert s[i] == x && s[|a|] == n;
    }
    forall x <- b ensures Less(n.name, x.name) {
      var i :| 0 <= i < |b| && b[i] == x;
      assert s[|a|] == n && s[|a| + 1 + i] == x;
    }
  }

  lemma OrderAround(c: Path, t: Tree)
    requires t.Node?
    ensures Inorder(Plug(c, t)) == (Before(c) + Inorder(t.left)) + [t.n] + (Inorder(t.right) + After(c))
  {
    PlugInorder(c, t);
    RegroupAround(Before(c), Inorder(t.left), t.n, Inorder(t.right), After(c));
  }

  /** A key less than the node in focus is bracketed by the path to its left subtree. */
  lemma SearchLeft(c: Path, t: Tree, key: string)
    requires t.Node? && Ordered(Inorder(Plug(c, t))) && Brackets(c, key) && Less(key, t.n.name)
    ensures Brackets(InLeft(c, t.n, t.red, t.right), key)
  {
    OrderAround(c, t);
    OrderedAround(Before(c) + Inorder(t.left), t.n, Inorder(t.right) + After(c));
    forall x <- After(InLeft(c, t.n, t.red, t.right)) ensures Less(key, x.name) {
      if x in Inorder(t.right) {
        assert x in Inorder(t.right) + After(c);
        LessTransitive(key, t.n.name, x.name);
      }
    }
  }

  lemma SearchRight(c: Path, t: Tree, key: string)
    requires t.Node? && Ordered(Inorder(Plug(c, t))) && Brackets(c, key) && Less(t.n.name, key)
    ensures Brackets(InRight(t.left, t.n, t.red, c), key)
  {
    OrderAround(c, t);
    OrderedAround(Before(c) + Inorder(t.left), t.n, Inorder(t.right) + After(c));
    forall x <- Before(InRight(t.left, t.n, t.red, c)) ensures Less(x.name, key) {
      if x in Inorder(t.left) {
        assert x in Before(c) + Inorder(t.left);
        LessTransitive(x.name, t.n.name, key);
      }
    }
  }

  /** When the search ends in an empty hole, no symbol has the key as its name. */
  lemma Absent(c: Path, key: string)
    requires Brackets(c, key)
    ensures Inorder(Plug(c, Leaf)) == Before(c) + After(c)
    ensures forall n <- Inorder(Plug(c, Leaf)) :: n.name != key
  {
    PlugInorder(c, Leaf);
    CompareEqual(key, key);
  }

  /** A new symbol goes where the search for its name ended. */
  lemma OrderedInsert(c: Path, elm: Symbol)
    requires Ordered(Inorder(Plug(c, Leaf))) && Brackets(c, elm.name)
    ensures Ordered(Before(c) + [elm] + After(c))
  {
    PlugInorder(c, Leaf);
    var a, b := Before(c), After(c);
    var s, r := a + [elm] + b, a + b;
    assert r == Inorder(Plug(c, Leaf));
    forall i, j | 0 <= i < j < |s| ensures Less(s[i].name, s[j].name) {
      if i < |a| && j == |a| {
        assert a[i] in a;
      } else if i == |a| {
        assert b[j - |a| - 1] in b;
      } else {
        assert s[i] == r[if i < |a| then i else i - 1] && s[j] == r[if j < |a| then j else j - 1];
      }
    }
  }

  /** Dropping one symbol keeps the order. */
  lemma OrderedRemove(a: seq<Symbol>, n: Symbol, b: seq<Symbol>)
    requires Ordered(a + [n] + b)
    ensures Ordered(a + b)
  {
    var s, r := a + [n] + b, a + b;
    forall i, j | 0 <= i < j < |r| ensures Less(r[i].name, r[j].name) {
      assert r[i] == s[if i < |a| then i else i + 1] && r[j] == s[if j < |a| then j else j + 1];
    }
  }

  /** The order without the node in focus, when its only child takes its place. */
  lemma SplicedOrder(c: Path, t: Tree, u: Tree, k: nat)
    requires t.Node? && ((t.left.Leaf? && u == t.right) || (t.right.Leaf? && u == t.left))
    requires k == |Before(c)| + |Inorder(t.left)|
    ensures k < |Inorder(Plug(c, t))|
    ensures Inorder(Plug(c, u)) == Inorder(Plug(c, t))[..k] + Inorder(Plug(c, t))[k + 1..]
  {
    OrderAround(c, t);
    PlugInorder(c, u);
    DropMiddle(Before(c), Inorder(t.left), t.n, Inorder(t.right), After(c), k);
    assert Inorder(u) == Inorder(t.left) + Inorder(t.right);
  }

  lemma DropMiddle<A>(a: seq<A>, b: seq<A>, x: A, c: seq<A>, d: seq<A>, k: nat)
    requires k == |a| + |b|
    ensures var s := (a + b) + [x] + (c + d); s[..k] + s[k + 1..] == a + (b + c) + d
  {
    var s := (a + b) + [x] + (c + d);
    assert s[..k] == a + b && s[k + 1..] == c + d;
  }

  /** The order without the node t.n in focus, when its successor, the first symbol of its right subtree, takes over its place. */
  lemma TakenOverOrder(c: Path, t: Tree, inner: Path, v: Tree, k: nat)
    requires t.Node? && t.right == Plug(inner, v) && v.Node? && v.left.Leaf? && Before(inner) == []
    requires k == |Before(c)| + |Inorder(t.left)|
    ensures k < |Inorder(Plug(c, t))|
    ensures Inorder(Plug(c, Node(t.left, v.n, t.red, Plug(inner, v.right)))) == Inorder(Plug(c, t))[..k] + Inorder(Plug(c, t))[k + 1..]
  {
    var u := Node(t.left, v.n, t.red, Plug(inner, v.right));
    OrderAround(c, t);
    OrderAround(c, u);
    FirstOut(inner, v);
    TakeFirst(Inorder(Plug(c, t)), Inorder(Plug(c, u)), Before(c) + Inorder(t.left), t.n, v.n, Inorder(u.right), After(c), k);
  }

  lemma FirstOut(inner: Path, v: Tree)
    requires v.Node? && v.left.Leaf? && Before(inner) == []
    ensures Inorder(Plug(inner, v)) == [v.n] + Inorder(Plug(inner, v.right))
  {
    OrderAround(inner, v);
    PlugInorder(inner, v.right);
  }

  lemma TakeFirst<A>(s: seq<A>, r: seq<A>, a: seq<A>, x: A, y: A, b: seq<A>, d: seq<A>, k: nat)
    requires s == a + [x] + (([y] + b) + d) && r == a + [y] + (b + d) && k == |a|
    ensures k < |s| && r == s[..k] + s[k + 1..]
  {
    assert s[..k] == a && s[k + 1..] == [y] + b + d;
  }
}
