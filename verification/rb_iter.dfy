/** rb_first, rb_last, rb_next, rb_prev and rb_replace_node against the in-order sequence. */
module RbIter {
  import opened Common
  import opened RbSpec
  import opened RbTree
  import opened RbInsert
  import opened RbErase

  lemma NoDupAround(a: seq<Node>, n: Node, b: seq<Node>)
    requires NoDup(a) && NoDup(b) && n !in a && n !in b
    requires forall i, j :: 0 <= i < |a| && 0 <= j < |b| ==> a[i] != b[j]
    ensures NoDup(a + [n] + b)
  {
    var s := a + [n] + b;
    forall i, j | 0 <= i < j < |s|
      ensures s[i] != s[j]
    {
      if i < |a| {
        assert s[i] == a[i];
        assert j > |a| ==> s[j] == b[j - |a| - 1];
      } else {
        assert s[j] == b[j - |a| - 1];
        assert i > |a| ==> s[i] == b[i - |a| - 1];
      }
    }
  }

  lemma {:induction false} InOrderNoDup(t: Tree)
    requires Distinct(t)
    ensures NoDup(InOrder(t))
  {
    if t.Leaf? {
    } else {
      InOrderNoDup(t.l);
      InOrderNoDup(t.r);
      InOrderNodes(t.l);
      InOrderNodes(t.r);
      NoDupAround(InOrder(t.l), t.n, InOrder(t.r));
    }
  }

  /** Where the root of a focus stands in the whole order. */
  lemma Position(x: Ctx, t: Tree)
    requires t.T?
    ensures var s, i := InOrder(Plug(x, t)), |Before(x)| + |InOrder(t.l)|;
      && i < |s| && s[i] == t.n
      && s[..i] == Before(x) + InOrder(t.l) && s[i + 1..] == InOrder(t.r) + After(x)
  {
    PlugInOrder(x, t);
    Middle(Before(x), InOrder(t.l), t.n, InOrder(t.r), After(x));
    MiddleAt(Before(x) + InOrder(t.l), t.n, InOrder(t.r) + After(x));
  }

  lemma MiddleAt(a: seq<Node>, n: Node, b: seq<Node>)
    ensures var s := a + [n] + b; s[|a|] == n && s[..|a|] == a && s[|a| + 1..] == b
  {
  }

  /** The index of a node is determined by its place in the tree. */
  lemma PositionIs(x: Ctx, t: Tree, i: nat)
    requires t.T? && Distinct(Plug(x, t)) && i < |InOrder(Plug(x, t))| && InOrder(Plug(x, t))[i] == t.n
    ensures i == |Before(x)| + |InOrder(t.l)|
  {
    InOrderNoDup(Plug(x, t));
    Position(x, t);
  }

  // ---- first and last ----

  method First(root: Root) returns (n: Node?)
    requires root.Holds()
    ensures n == var s := InOrder(root.tree); if s == [] then null else s[0]
  {
    n := root.rb_node;
    if n == null {
      return;
    }
    n := Leftmost(n, root, Top, root.tree);
    DelMinInOrder(root.tree);
  }

  function MaxOf(t: Tree): Node
    requires t.T?
  {
    if t.r.Leaf? then t.n else MaxOf(t.r)
  }

  lemma {:induction false} MaxLast(t: Tree)
    requires t.T?
    ensures InOrder(t) != [] && InOrder(t)[|InOrder(t)| - 1] == MaxOf(t)
  {
    if t.r.Leaf? {
    } else {
      MaxLast(t.r);
    }
  }

  method Rightmost(top: Node, root: Root, ghost b: Ctx, ghost t: Tree) returns (node: Node)
    requires root.Holds() && root.tree == Plug(b, t) && t.T? && t.n == top
    ensures node == MaxOf(t)
  {
    node := top;
    ghost var x, u := b, t;
    Around(Snap(root.nodes), x, u);
    while node.right != null
      invariant u.T? && u.n == node && node in root.nodes && Plug(x, u) == root.tree && MaxOf(u) == MaxOf(t)
      invariant node.right == RootOf(u.r)
      decreases u
    {
      node := node.right;
      x, u := In(R, u.n, u.c, u.l, x), u.r;
      Around(Snap(root.nodes), x, u);
    }
  }

  method Last(root: Root) returns (n: Node?)
    requires root.Holds()
    ensures n == var s := InOrder(root.tree); if s == [] then null else s[|s| - 1]
  {
    n := root.rb_node;
    if n == null {
      return;
    }
    n := Rightmost(n, root, Top, root.tree);
    MaxLast(root.tree);
  }

  // ---- next and previous ----

  /** Climbs while the cursor is a right child; the parent reached comes next in order. */
  method ClimbNext(node0: Node, root: Root, ghost x0: Ctx, ghost t0: Tree) returns (parent: Node?)
    requires root.Holds() && root.tree == Plug(x0, t0) && t0.T? && t0.n == node0
    ensures parent == if After(x0) == [] then null else After(x0)[0]
  {
    var node := node0;
    ghost var x, t := x0, t0;
    Around(Snap(root.nodes), x, t);
    parent := node.parent;
    while parent != null && node == parent.right
      invariant t.T? && t.n == node && Plug(x, t) == root.tree && After(x) == After(x0)
      invariant parent == HoleParent(x)
      invariant x.In? ==> x.n in root.nodes && (x.n.right == node <==> x.d == R)
      decreases x
    {
      node := parent;
      x, t := x.up, Above(x, t);
      Around(Snap(root.nodes), x, t);
      parent := node.parent;
    }
  }

  method ClimbPrev(node0: Node, root: Root, ghost x0: Ctx, ghost t0: Tree) returns (parent: Node?)
    requires root.Holds() && root.tree == Plug(x0, t0) && t0.T? && t0.n == node0
    ensures parent == if Before(x0) == [] then null else Before(x0)[|Before(x0)| - 1]
  {
    var node := node0;
    ghost var x, t := x0, t0;
    Around(Snap(root.nodes), x, t);
    parent := node.parent;
    while parent != null && node == parent.left
      invariant t.T? && t.n == node && Plug(x, t) == root.tree && Before(x) == Before(x0)
      invariant parent == HoleParent(x)
      invariant x.In? ==> x.n in root.nodes && (x.n.left == node <==> x.d == L)
      decreases x
    {
      node := parent;
      x, t := x.up, Above(x, t);
      Around(Snap(root.nodes), x, t);
      parent := node.parent;
    }
  }

  /** A node in a tree is never its own parent, so RB_EMPTY_NODE tells unlinked nodes apart. */
  lemma LinkedNotEmpty(root: Root, n: Node)
    requires root.Holds() && n in root.nodes
    ensures n.parent != n
  {
    var x, t := Locate(root.tree, Top, n);
    Split(Snap(root.nodes), x, t);
    Around(Snap(root.nodes), x, t);
  }

  /** The successor is the leftmost node on the right, or else the first node after the subtree. */
  lemma NextIs(x: Ctx, t: Tree, i: nat)
    requires t.T? && Distinct(Plug(x, t)) && i < |InOrder(Plug(x, t))| && InOrder(Plug(x, t))[i] == t.n
    ensures var s, q := InOrder(Plug(x, t)), After(x);
      (if i + 1 < |s| then s[i + 1] else null) == if t.r.T? then MinOf(t.r).n else if q == [] then null else q[0]
  {
    PositionIs(x, t, i);
    Position(x, t);
    var s, rest := InOrder(Plug(x, t)), InOrder(t.r) + After(x);
    assert |s[i + 1..]| == |rest|;
    assert rest != [] ==> s[i + 1] == s[i + 1..][0] == rest[0];
    if t.r.T? {
      DelMinInOrder(t.r);
    }
  }

  lemma PrevIs(x: Ctx, t: Tree, i: nat)
    requires t.T? && Distinct(Plug(x, t)) && i < |InOrder(Plug(x, t))| && InOrder(Plug(x, t))[i] == t.n
    ensures var s, q := InOrder(Plug(x, t)), Before(x);
      (if i > 0 then s[i - 1] else null) == if t.l.T? then MaxOf(t.l) else if q == [] then null else q[|q| - 1]
  {
    PositionIs(x, t, i);
    Position(x, t);
    var s, rest := InOrder(Plug(x, t)), Before(x) + InOrder(t.l);
    assert |s[..i]| == |rest|;
    assert i > 0 ==> s[i - 1] == s[..i][i - 1] == rest[i - 1];
    if t.l.T? {
      MaxLast(t.l);
    }
  }

  method Next(node: Node, root: Root, ghost i: nat) returns (n: Node?)
    requires node.parent != node ==> root.Holds() && i < |InOrder(root.tree)| && InOrder(root.tree)[i] == node
    ensures node.parent == node ==> n == null
    ensures node.parent != node ==> n == if i + 1 < |InOrder(root.tree)| then InOrder(root.tree)[i + 1] else null
  {
    hide Spells, InOrder, Distinct;
    if node.parent == node {
      return null;
    }
    ghost var x, t := LocateIn(root, node, i);
    NextIs(x, t, i);
    VictimFields(root, x, t);
    if node.right != null {
      n := Leftmost(node.right, root, In(R, t.n, t.c, t.l, x), t.r);
    } else {
      n := ClimbNext(node, root, x, t);
    }
  }

  method Prev(node: Node, root: Root, ghost i: nat) returns (n: Node?)
    requires node.parent != node ==> root.Holds() && i < |InOrder(root.tree)| && InOrder(root.tree)[i] == node
    ensures node.parent == node ==> n == null
    ensures node.parent != node ==> n == if i > 0 then InOrder(root.tree)[i - 1] else null
  {
    hide Spells, InOrder, Distinct;
    if node.parent == node {
      return null;
    }
    ghost var x, t := LocateIn(root, node, i);
    PrevIs(x, t, i);
    VictimFields(root, x, t);
    if node.left != null {
      n := Rightmost(node.left, root, In(L, t.n, t.c, t.r, x), t.l);
    } else {
      n := ClimbPrev(node, root, x, t);
    }
  }

  /** From rb_first along rb_next: every node once, in order, and then null. */
  method Walk(root: Root) returns (visited: seq<Node>)
    requires root.Holds()
    ensures visited == InOrder(root.tree) && NoDup(visited)
    ensures forall n :: n in visited <==> n in root.nodes
  {
    hide InOrder, Fits, Distinct;
    ghost var s := InOrder(root.tree);
    visited := [];
    var n := First(root);
    while n != null
      invariant |visited| <= |s| && visited == s[..|visited|]
      invariant n == if |visited| < |s| then s[|visited|] else null
      decreases |s| - |visited|
    {
      LinkedAt(root, n, |visited|);
      var m := Next(n, root, |visited|);
      visited := visited + [n];
      n := m;
    }
    assert s[..|s|] == s;
    InOrderNoDup(root.tree);
    InOrderNodes(root.tree);
  }

  lemma LinkedAt(root: Root, n: Node, i: nat)
    requires root.Holds() && i < |InOrder(root.tree)| && InOrder(root.tree)[i] == n
    ensures n.parent != n
  {
    InOrderNodes(root.tree);
    LinkedNotEmpty(root, n);
  }

  /** rb_prev undoes rb_next, and rb_next undoes rb_prev. */
  method ThereAndBack(node: Node, root: Root, ghost i: nat)
    returns (next: Node?, prev: Node?, fromNext: Node?, fromPrev: Node?)
    requires root.Holds() && i < |InOrder(root.tree)| && InOrder(root.tree)[i] == node
    ensures next == null <==> i == |InOrder(root.tree)| - 1
    ensures prev == null <==> i == 0
    ensures fromNext == (if next == null then null else node) && fromPrev == (if prev == null then null else node)
  {
    hide InOrder, Fits, Distinct;
    fromNext, fromPrev := null, null;
    LinkedAt(root, node, i);
    next := Next(node, root, i);
    prev := Prev(node, root, i);
    if next != null {
      LinkedAt(root, next, i + 1);
      fromNext := Prev(next, root, i + 1);
    }
    if prev != null {
      LinkedAt(root, prev, i - 1);
      fromPrev := Next(prev, root, i - 1);
    }
  }

  // ---- rb_replace_node ----

  method ReplaceFields(victim: Node, new': Node, root: Root, ghost tree: Tree)
    requires victim in root.nodes && new' !in root.nodes
    requires victim.parent != null ==> victim.parent in root.nodes && victim.parent != victim
    requires victim.left != null ==> victim.left in root.nodes && victim.left != victim && victim.left != victim.parent
    requires victim.right != null ==>
      victim.right in root.nodes && victim.right != victim && victim.right != victim.parent
    modifies root, root.nodes`left, root.nodes`right, root.nodes`parent, new'`left, new'`right, new'`parent, new'`color
    ensures root.nodes == old(root.nodes) - {victim} + {new'} && root.tree == tree
    ensures root.rb_node == if old(victim.parent) == null then new' else old(root.rb_node)
    ensures new'.left == old(victim.left) && new'.right == old(victim.right)
    ensures new'.parent == old(victim.parent) && new'.color == old(victim.color)
    ensures forall k :: k in root.nodes && k != new' ==>
      && k.left == (if k == old(victim.parent) && old(k.left) == victim then new' else old(k.left))
      && k.right == (if k == old(victim.parent) && old(k.left) != victim then new' else old(k.right))
      && k.parent == (if k == old(victim.left) || k == old(victim.right) then new' else old(k.parent))
      && k.color == old(k.color)
  {
    PointAt(victim, new', root);
    if victim.left != null {
      victim.left.parent := new';
    }
    if victim.right != null {
      victim.right.parent := new';
    }
    new'.parent, new'.color := victim.parent, victim.color;
    new'.right := victim.right;
    new'.left := victim.left;
    root.nodes := root.nodes - {victim} + {new'};
    root.tree := tree;
  }

  /** The tree with one node swapped for another. */
  lemma ReplacedShape(x: Ctx, t: Tree, new': Node, i: nat)
    requires t.T? && Distinct(Plug(x, t)) && i < |InOrder(Plug(x, t))| && InOrder(Plug(x, t))[i] == t.n
    ensures InOrder(Plug(x, t.(n := new'))) == InOrder(Plug(x, t))[i := new']
  {
    hide Distinct, Plug, InOrder;
    PositionIs(x, t, i);
    Position(x, t);
    Position(x, t.(n := new'));
    SwappedAt(InOrder(Plug(x, t)), InOrder(Plug(x, t.(n := new'))), i, new');
  }

  lemma SwappedAt(s: seq<Node>, s': seq<Node>, i: nat, n: Node)
    requires i < |s| && i < |s'| && s'[i] == n && s'[..i] == s[..i] && s'[i + 1..] == s[i + 1..]
    ensures s' == s[i := n]
  {
    assert s == s[..i] + [s[i]] + s[i + 1..];
    assert s' == s'[..i] + [s'[i]] + s'[i + 1..];
  }

  lemma ReplacedColors(x: Ctx, t: Tree, new': Node)
    requires t.T?
    ensures Valid(Plug(x, t)) <==> Valid(Plug(x, t.(n := new')))
  {
    hide Plug, CtxRedBlack;
    PlugValid(x, t);
    PlugValid(x, t.(n := new'));
    hide Valid;
  }

  lemma VictimFields(root: Root, x: Ctx, t: Tree)
    requires root.Holds() && root.tree == Plug(x, t) && t.T?
    ensures t.n in root.nodes && t.n.parent == HoleParent(x) && t.n.color == t.c && HoleParent(x) != t.n
    ensures t.n.left == RootOf(t.l) && t.n.right == RootOf(t.r)
    ensures t.l.T? ==> t.l.n in root.nodes && t.l.n != t.n && t.l.n != HoleParent(x)
    ensures t.r.T? ==> t.r.n in root.nodes && t.r.n != t.n && t.r.n != HoleParent(x)
    ensures x.In? ==> x.n in root.nodes
  {
    Around(Snap(root.nodes), x, t);
    Split(Snap(root.nodes), x, t);
  }

  method ReplaceNode(victim: Node, new': Node, root: Root, ghost i: nat)
    requires root.Holds() && new' !in root.nodes && i < |InOrder(root.tree)| && InOrder(root.tree)[i] == victim
    modifies root, root.nodes`left, root.nodes`right, root.nodes`parent, new'`left, new'`right, new'`parent, new'`color
    ensures root.Holds() && root.nodes == old(root.nodes) - {victim} + {new'}
    ensures InOrder(root.tree) == old(InOrder(root.tree))[i := new']
    ensures Valid(root.tree) <==> Valid(old(root.tree))
  {
    hide Spells, Valid, InOrder, Distinct;
    ghost var h := Snap(root.nodes);
    ghost var x, t := LocateIn(root, victim, i);
    VictimFields(root, x, t);
    PlugRoot(x, t);
    PlugRoot(x, t.(n := new'));
    ReplaceFields(victim, new', root, Plug(x, t.(n := new')));
    assert Replaced(h, Snap(root.nodes), victim, new', HoleParent(x));
    ReplaceSpells(h, Snap(root.nodes), x, t.l, victim, t.c, t.r, new');
    ReplacedShape(x, t, new', i);
    ReplacedColors(x, t, new');
  }

  lemma LocateIn(root: Root, n: Node, i: nat) returns (x: Ctx, t: Tree)
    requires root.Holds() && i < |InOrder(root.tree)| && InOrder(root.tree)[i] == n
    ensures root.tree == Plug(x, t) && t.T? && t.n == n && Distinct(Plug(x, t))
  {
    InOrderNodes(root.tree);
    x, t := Locate(root.tree, Top, n);
  }
}
