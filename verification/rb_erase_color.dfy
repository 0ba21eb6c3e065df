/** __rb_erase_color: rebalancing after a black node left the tree. */
module RbEraseColor {
  import opened RbSpec
  import opened RbTree
  import opened RbTrail
  import opened RbInsert

  function Blacken(t: Tree): Tree {
    if t.Leaf? then t else t.(c := Black)
  }

  /** The loop state: the focus is one black node short, and is fine once its root is black. */
  predicate ShortFocus(x: Ctx, t: Tree) {
    RedBlack(Blacken(t)) && CtxRedBlack(x, BlackHeight(t) + 1)
  }

  /** What the code reads off the fields around a focus that may be empty. */
  lemma Beside(h: Fields, x: Ctx, t: Tree)
    requires Spells(h, Plug(x, t)) && x.In?
    ensures x.n in h && h[x.n].Child(x.d) == RootOf(t) && h[x.n].Child(x.d.Other()) == RootOf(x.sib)
    ensures RootOf(x.sib) == RootOf(t) ==> x.sib.Leaf? && t.Leaf?
    ensures h[x.n].color == x.c && h[x.n].parent == HoleParent(x.up)
    ensures x.sib.T? ==> x.sib.n in h && h[x.sib.n] == Rec(RootOf(x.sib.l), RootOf(x.sib.r), x.n, x.sib.c)
    ensures x.sib.T? && x.sib.l.T? ==> x.sib.l.n in h && h[x.sib.l.n].color == x.sib.l.c
    ensures x.sib.T? && x.sib.r.T? ==> x.sib.r.n in h && h[x.sib.r.n].color == x.sib.r.c
  {
    Split(h, x, t);
    assert Fits(h, x.sib, x.n);
    if x.sib.T? {
      assert Fits(h, x.sib.l, x.sib.n) && Fits(h, x.sib.r, x.sib.n);
    }
  }

  /** The sibling of a short black focus exists. */
  lemma SiblingExists(x: Ctx, t: Tree)
    requires ShortFocus(x, t) && x.In?
    ensures x.sib.T? && (x.sib.c.Red? ==> x.sib.l.T? && x.sib.r.T?)
  {
  }

  // ---- red sibling ----

  function RaisedCtx(x: Ctx): Ctx
    requires x.In? && x.sib.T?
  {
    In(x.d, x.n, Red, Kid(x.sib, x.d), In(x.d, x.sib.n, Black, Kid(x.sib, x.d.Other()), x.up))
  }

  lemma RaiseStep(x: Ctx, t: Tree)
    requires ShortFocus(x, t) && x.In? && x.sib.T? && x.sib.c.Red?
    ensures ShortFocus(RaisedCtx(x), t) && RaisedCtx(x).sib.T? && RaisedCtx(x).sib.c.Black?
  {
    assert CtxRedBlack(x.up, BlackHeight(t) + 2);
  }

  method RaiseLeft(other: Node, parent: Node, root: Root, ghost x: Ctx, ghost t: Tree)
    requires root.Holds() && root.tree == Plug(x, t)
    requires x.In? && x.d == L && x.n == parent && x.sib.T? && x.sib.n == other && x.sib.c.Red?
    modifies root`rb_node, root`tree, root.nodes`left, root.nodes`right, root.nodes`parent, root.nodes`color
    ensures root.Holds() && root.tree == Plug(RaisedCtx(x), t)
    ensures InOrder(root.tree) == InOrder(old(root.tree))
    ensures forall k :: k in root.nodes && k != parent && k != other && k != HoleParent(x.up) ==>
      k.left == old(k.left) && k.right == old(k.right)
  {
    ghost var near, far := Kid(x.sib, L), Kid(x.sib, R);
    SetColor(other, Black, root, In(R, parent, x.c, t, x.up), x.sib);
    SetColor(parent, Red, root, x.up, Mk(L, t, parent, x.c, Mk(L, near, other, Black, far)));
    RotateLeft(parent, root, x.up, t, Red, near, other, Black, far);
  }

  method RaiseRight(other: Node, parent: Node, root: Root, ghost x: Ctx, ghost t: Tree)
    requires root.Holds() && root.tree == Plug(x, t)
    requires x.In? && x.d == R && x.n == parent && x.sib.T? && x.sib.n == other && x.sib.c.Red?
    modifies root`rb_node, root`tree, root.nodes`left, root.nodes`right, root.nodes`parent, root.nodes`color
    ensures root.Holds() && root.tree == Plug(RaisedCtx(x), t)
    ensures InOrder(root.tree) == InOrder(old(root.tree))
    ensures forall k :: k in root.nodes && k != parent && k != other && k != HoleParent(x.up) ==>
      k.left == old(k.left) && k.right == old(k.right)
  {
    ghost var near, far := Kid(x.sib, R), Kid(x.sib, L);
    SetColor(other, Black, root, In(L, parent, x.c, t, x.up), x.sib);
    SetColor(parent, Red, root, x.up, Mk(R, t, parent, x.c, Mk(R, near, other, Black, far)));
    RotateRight(parent, root, x.up, t, Red, near, other, Black, far);
  }

  // ---- black sibling with black children ----

  lemma LowerStep(x: Ctx, t: Tree)
    requires ShortFocus(x, t) && ColorOf(t).Black? && x.In? && x.sib.T? && x.sib.c.Black?
    requires ColorOf(x.sib.l).Black? && ColorOf(x.sib.r).Black?
    ensures ShortFocus(x.up, Mk(x.d, t, x.n, x.c, x.sib.(c := Red)))
  {
    assert RedBlack(x.sib.(c := Red));
  }

  // ---- black sibling with a red child ----

  /** The subtree that replaces the parent's when the sibling can lend a black node. */
  function Lent(x: Ctx, t: Tree): Tree
    requires x.In? && x.sib.T? && (ColorOf(Kid(x.sib, x.d.Other())).Black? ==> Kid(x.sib, x.d).T?)
  {
    var d, near, far := x.d, Kid(x.sib, x.d), Kid(x.sib, x.d.Other());
    if ColorOf(far).Red? then
      Mk(d, Mk(d, t, x.n, Black, near), x.sib.n, x.c, far.(c := Black))
    else
      Mk(d, Mk(d, t, x.n, Black, Kid(near, d)), near.n, x.c, Mk(d, Kid(near, d.Other()), x.sib.n, Black, far))
  }

  /** The nodes whose children change. */
  function LentNodes(x: Ctx): set<Node>
    requires x.In? && x.sib.T?
  {
    {x.n, x.sib.n} + if ColorOf(Kid(x.sib, x.d.Other())).Black? then Opt(RootOf(Kid(x.sib, x.d))) else {}
  }

  lemma LendStep(x: Ctx, t: Tree)
    requires ShortFocus(x, t) && ColorOf(t).Black? && x.In? && x.sib.T? && x.sib.c.Black?
    requires ColorOf(x.sib.l).Red? || ColorOf(x.sib.r).Red?
    ensures Valid(Plug(x.up, Lent(x, t)))
  {
    hide Plug, Valid, CtxRedBlack;
    PlugValid(x.up, Lent(x, t));
    LentColors(x, t);
    LendRoom(x, t);
  }

  /** The context above has room for what replaces the subtree at the parent. */
  lemma LendRoom(x: Ctx, t: Tree)
    requires ShortFocus(x, t) && x.In?
    ensures CtxRedBlack(x.up, BlackHeight(t) + 1 + Weight(x.c)) && (x.c.Red? ==> x.up.In? && x.up.c.Black?)
  {
  }

  /** What replaces it is red-black, of that height, with the parent's colour at its root. */
  lemma LentColors(x: Ctx, t: Tree)
    requires ShortFocus(x, t) && ColorOf(t).Black? && x.In? && x.sib.T? && x.sib.c.Black?
    requires ColorOf(x.sib.l).Red? || ColorOf(x.sib.r).Red?
    ensures RedBlack(Lent(x, t)) && BlackHeight(Lent(x, t)) == BlackHeight(t) + 1 + Weight(x.c)
    ensures ColorOf(Lent(x, t)) == x.c
  {
    hide CtxRedBlack;
    assert RedBlack(x.sib) && BlackHeight(x.sib) == BlackHeight(t) + 1 by { SiblingHeight(x, t); }
    hide ShortFocus;
    var d, near, far := x.d, Kid(x.sib, x.d), Kid(x.sib, x.d.Other());
    assert x.sib == Mk(d, near, x.sib.n, Black, far);
    MkRedBlack(d, near, x.sib.n, Black, far);
    if ColorOf(far).Red? {
      MkRedBlack(d, t, x.n, Black, near);
      MkRedBlack(d, Mk(d, t, x.n, Black, near), x.sib.n, x.c, far.(c := Black));
    } else {
      var b1, b2 := Kid(near, d), Kid(near, d.Other());
      MkRedBlack(d, b1, near.n, Red, b2);
      MkRedBlack(d, t, x.n, Black, b1);
      MkRedBlack(d, b2, x.sib.n, Black, far);
      MkRedBlack(d, Mk(d, t, x.n, Black, b1), near.n, x.c, Mk(d, b2, x.sib.n, Black, far));
    }
  }

  lemma SiblingHeight(x: Ctx, t: Tree)
    requires ShortFocus(x, t) && ColorOf(t).Black? && x.In?
    ensures RedBlack(x.sib) && BlackHeight(x.sib) == BlackHeight(t) + 1 && RedBlack(t)
  {
  }

  /** Paints and the last rotation. */
  method LendLastLeft(other: Node, parent: Node, root: Root, ghost up: Ctx, ghost t: Tree, ghost c: Color,
                      ghost near: Tree, ghost far: Tree)
    requires far.T?
    requires root.Holds() && root.tree == Plug(up, Mk(L, t, parent, c, Mk(L, near, other, Black, far)))
    modifies root`rb_node, root`tree, root.nodes`left, root.nodes`right, root.nodes`parent, root.nodes`color
    ensures root.Holds() && root.tree == Plug(up, Mk(L, Mk(L, t, parent, Black, near), other, c, far.(c := Black)))
    ensures InOrder(root.tree) == InOrder(old(root.tree))
    ensures forall k :: k in root.nodes && k != parent && k != other && k != HoleParent(up) ==>
      k.left == old(k.left) && k.right == old(k.right)
  {
    Beside(Snap(root.nodes), In(L, parent, c, Mk(L, near, other, Black, far), up), t);
    LendPaint(other, parent, other.right, root, L, up, t, parent.color, near, far);
    RotateLeft(parent, root, up, t, Black, near, other, c, far.(c := Black));
  }

  /** The context once the red near child of the sibling has become the sibling. */
  function TurnedCtx(x: Ctx): Ctx
    requires x.In? && x.sib.T? && Kid(x.sib, x.d).T?
  {
    var d, near, far := x.d, Kid(x.sib, x.d), Kid(x.sib, x.d.Other());
    x.(sib := Mk(d, Kid(near, d), near.n, Black, Mk(d, Kid(near, d.Other()), x.sib.n, Red, far)))
  }

  /** Paints and turns the sibling so that its red child is on the far side. */
  method TurnOverLeft(other: Node, parent: Node, root: Root, ghost x: Ctx, ghost t: Tree)
    requires root.Holds() && root.tree == Plug(x, t)
    requires x.In? && x.d == L && x.n == parent && x.sib.T? && x.sib.n == other && x.sib.c.Black?
    requires Kid(x.sib, L).T?
    modifies root`rb_node, root`tree, root.nodes`left, root.nodes`right, root.nodes`parent, root.nodes`color
    ensures root.Holds() && InOrder(root.tree) == InOrder(old(root.tree))
    ensures root.tree == Plug(TurnedCtx(x), t)
    ensures forall k :: k in root.nodes && k != parent && k != other && k != RootOf(x.sib.l) ==>
      k.left == old(k.left) && k.right == old(k.right)
  {
    ghost var near, far := Kid(x.sib, L), Kid(x.sib, R);
    ghost var b1, b2 := Kid(near, L), Kid(near, R);
    Beside(Snap(root.nodes), x, t);
    ghost var up := In(R, parent, x.c, t, x.up);
    SetColor(other.left, Black, root, In(L, other, Black, far, up), near);
    SetColor(other, Red, root, up, Mk(L, near.(c := Black), other, Black, far));
    RotateRight(other, root, up, far, Red, b2, near.n, Black, b1);
  }

  method TurnSiblingLeft(other: Node, parent: Node, root: Root, ghost x: Ctx, ghost t: Tree) returns (other': Node)
    requires root.Holds() && root.tree == Plug(x, t)
    requires x.In? && x.d == L && x.n == parent && x.sib.T? && x.sib.n == other && x.sib.c.Black?
    requires Kid(x.sib, L).T?
    modifies root`rb_node, root`tree, root.nodes`left, root.nodes`right, root.nodes`parent, root.nodes`color
    ensures root.Holds() && InOrder(root.tree) == InOrder(old(root.tree))
    ensures root.tree == Plug(TurnedCtx(x), t) && other' == TurnedCtx(x).sib.n
    ensures forall k :: k in root.nodes && k != parent && k != other && k != RootOf(x.sib.l) ==>
      k.left == old(k.left) && k.right == old(k.right)
  {
    hide Plug, Spells, InOrder;
    TurnOverLeft(other, parent, root, x, t);
    Beside(Snap(root.nodes), TurnedCtx(x), t);
    other' := parent.right;
  }

  /** The three colour changes before the last rotation. */
  method LendPaint(other: Node, parent: Node, outer: Node, root: Root, ghost d: Side, ghost up: Ctx,
                   ghost t: Tree, c: Color, ghost near: Tree, ghost far: Tree)
    requires far.T? && far.n == outer
    requires root.Holds() && root.tree == Plug(up, Mk(d, t, parent, c, Mk(d, near, other, Black, far)))
    modifies root`tree, root.nodes`color
    ensures root.Holds() && root.tree == Plug(up, Mk(d, t, parent, Black, Mk(d, near, other, c, far.(c := Black))))
    ensures InOrder(root.tree) == InOrder(old(root.tree))
  {
    SetColor(other, c, root, In(d.Other(), parent, c, t, up), Mk(d, near, other, Black, far));
    SetColor(parent, Black, root, up, Mk(d, t, parent, c, Mk(d, near, other, c, far)));
    SetColor(outer, Black, root, In(d.Other(), other, c, near, In(d.Other(), parent, Black, t, up)), far);
  }

  method LendLeft(other0: Node, parent: Node, root: Root, ghost x: Ctx, ghost t: Tree) returns (ghost rotations: nat)
    requires root.Holds() && root.tree == Plug(x, t)
    requires x.In? && x.d == L && x.n == parent && x.sib.T? && x.sib.n == other0 && x.sib.c.Black?
    requires ColorOf(x.sib.l).Red? || ColorOf(x.sib.r).Red?
    modifies root`rb_node, root`tree, root.nodes`left, root.nodes`right, root.nodes`parent, root.nodes`color
    ensures root.Holds() && root.tree == Plug(x.up, Lent(x, t))
    ensures InOrder(root.tree) == InOrder(old(root.tree)) && 1 <= rotations <= 2
    ensures forall k :: k in root.nodes && k !in LentNodes(x) && k != HoleParent(x.up) ==>
      k.left == old(k.left) && k.right == old(k.right)
  {
    ghost var near, far := Kid(x.sib, L), Kid(x.sib, R);
    Beside(Snap(root.nodes), x, t);
    var other := other0;
    rotations := 1;
    if other.right == null || other.right.color.Black? {
      ghost var b1, b2 := Kid(near, L), Kid(near, R);
      other := TurnSiblingLeft(other, parent, root, x, t);
      near, far, rotations := b1, Mk(L, b2, other0, Red, far), 2;
    }
    LendLastLeft(other, parent, root, x.up, t, x.c, near, far);
  }

  /** Paints and the last rotation. */
  method LendLastRight(other: Node, parent: Node, root: Root, ghost up: Ctx, ghost t: Tree, ghost c: Color,
                       ghost near: Tree, ghost far: Tree)
    requires far.T?
    requires root.Holds() && root.tree == Plug(up, Mk(R, t, parent, c, Mk(R, near, other, Black, far)))
    modifies root`rb_node, root`tree, root.nodes`left, root.nodes`right, root.nodes`parent, root.nodes`color
    ensures root.Holds() && root.tree == Plug(up, Mk(R, Mk(R, t, parent, Black, near), other, c, far.(c := Black)))
    ensures InOrder(root.tree) == InOrder(old(root.tree))
    ensures forall k :: k in root.nodes && k != parent && k != other && k != HoleParent(up) ==>
      k.left == old(k.left) && k.right == old(k.right)
  {
    Beside(Snap(root.nodes), In(R, parent, c, Mk(R, near, other, Black, far), up), t);
    LendPaint(other, parent, other.left, root, R, up, t, parent.color, near, far);
    RotateRight(parent, root, up, t, Black, near, other, c, far.(c := Black));
  }

  /** Paints and turns the sibling so that its red child is on the far side. */
  method TurnOverRight(other: Node, parent: Node, root: Root, ghost x: Ctx, ghost t: Tree)
    requires root.Holds() && root.tree == Plug(x, t)
    requires x.In? && x.d == R && x.n == parent && x.sib.T? && x.sib.n == other && x.sib.c.Black?
    requires Kid(x.sib, R).T?
    modifies root`rb_node, root`tree, root.nodes`left, root.nodes`right, root.nodes`parent, root.nodes`color
    ensures root.Holds() && InOrder(root.tree) == InOrder(old(root.tree))
    ensures root.tree == Plug(TurnedCtx(x), t)
    ensures forall k :: k in root.nodes && k != parent && k != other && k != RootOf(x.sib.r) ==>
      k.left == old(k.left) && k.right == old(k.right)
  {
    ghost var near, far := Kid(x.sib, R), Kid(x.sib, L);
    ghost var b1, b2 := Kid(near, R), Kid(near, L);
    Beside(Snap(root.nodes), x, t);
    ghost var up := In(L, parent, x.c, t, x.up);
    SetColor(other.right, Black, root, In(R, other, Black, far, up), near);
    SetColor(other, Red, root, up, Mk(R, near.(c := Black), other, Black, far));
    RotateLeft(other, root, up, far, Red, b2, near.n, Black, b1);
  }

  method TurnSiblingRight(other: Node, parent: Node, root: Root, ghost x: Ctx, ghost t: Tree) returns (other': Node)
    requires root.Holds() && root.tree == Plug(x, t)
    requires x.In? && x.d == R && x.n == parent && x.sib.T? && x.sib.n == other && x.sib.c.Black?
    requires Kid(x.sib, R).T?
    modifies root`rb_node, root`tree, root.nodes`left, root.nodes`right, root.nodes`parent, root.nodes`color
    ensures root.Holds() && InOrder(root.tree) == InOrder(old(root.tree))
    ensures root.tree == Plug(TurnedCtx(x), t) && other' == TurnedCtx(x).sib.n
    ensures forall k :: k in root.nodes && k != parent && k != other && k != RootOf(x.sib.r) ==>
      k.left == old(k.left) && k.right == old(k.right)
  {
    hide Plug, Spells, InOrder;
    TurnOverRight(other, parent, root, x, t);
    Beside(Snap(root.nodes), TurnedCtx(x), t);
    other' := parent.left;
  }

  method LendRight(other0: Node, parent: Node, root: Root, ghost x: Ctx, ghost t: Tree) returns (ghost rotations: nat)
    requires root.Holds() && root.tree == Plug(x, t)
    requires x.In? && x.d == R && x.n == parent && x.sib.T? && x.sib.n == other0 && x.sib.c.Black?
    requires ColorOf(x.sib.l).Red? || ColorOf(x.sib.r).Red?
    modifies root`rb_node, root`tree, root.nodes`left, root.nodes`right, root.nodes`parent, root.nodes`color
    ensures root.Holds() && root.tree == Plug(x.up, Lent(x, t))
    ensures InOrder(root.tree) == InOrder(old(root.tree)) && 1 <= rotations <= 2
    ensures forall k :: k in root.nodes && k !in LentNodes(x) && k != HoleParent(x.up) ==>
      k.left == old(k.left) && k.right == old(k.right)
  {
    ghost var near, far := Kid(x.sib, R), Kid(x.sib, L);
    Beside(Snap(root.nodes), x, t);
    var other := other0;
    rotations := 1;
    if other.left == null || other.left.color.Black? {
      ghost var b1, b2 := Kid(near, R), Kid(near, L);
      other := TurnSiblingRight(other, parent, root, x, t);
      near, far, rotations := b1, Mk(R, b2, other0, Red, far), 2;
    }
    LendLastRight(other, parent, root, x.up, t, x.c, near, far);
  }

  // ---- the loop ----

  /** The deepest node that survives on the rebalance path: the focus, or else the hole's parent. */
  predicate Deep(x: Ctx, t: Tree, z: Node?) {
    if t.Leaf? then z == HoleParent(x) else z != null && z in Nodes(t)
  }

  /** The way up from the hole, without the hole's own sibling. */
  function Dirty(x: Ctx): set<Node> {
    if x.Top? then {} else {x.n} + CtxTrail(x.up)
  }

  function TrailFrom(t: Tree, z: Node?): set<Node> {
    if z == null then {} else Trail(t, z)
  }

  /** The trail of `z` read off a context and its focus. */
  function TrailAt(x: Ctx, t: Tree, z: Node): set<Node> {
    if t.Leaf? then Dirty(x) else Trail(t, z) + CtxTrail(x)
  }

  lemma TrailAtPlug(x: Ctx, t: Tree, z: Node?)
    requires Distinct(Plug(x, t)) && Deep(x, t, z)
    ensures TrailFrom(Plug(x, t), z) == if z == null then {} else TrailAt(x, t, z)
  {
    if t.T? {
      TrailPlug(x, t, z);
    } else if x.In? {
      PlugNodes(x.up, Mk(x.d, t, x.n, x.c, x.sib));
      MkNodes(x.d, t, x.n, x.c, x.sib);
      TrailPlug(x.up, Mk(x.d, t, x.n, x.c, x.sib), z);
    }
  }

  lemma RaisedTrail(h: Fields, h': Fields, x: Ctx, t: Tree, z: Node?)
    requires Spells(h, Plug(x, t)) && Deep(x, t, z) && x.In? && x.sib.T? && Spells(h', Plug(RaisedCtx(x), t))
    ensures TrailFrom(Plug(x, t), z) <= TrailFrom(Plug(RaisedCtx(x), t), z)
  {
    TrailAtPlug(x, t, z);
    TrailAtPlug(RaisedCtx(x), t, z);
    assert CtxTrail(RaisedCtx(x).up) >= {x.sib.n} + CtxTrail(x.up);
  }

  lemma LoweredTrail(x: Ctx, t: Tree, z: Node?)
    requires Distinct(Plug(x, t)) && Deep(x, t, z) && x.In? && x.sib.T? && ColorOf(t).Black?
    ensures TrailFrom(Plug(In(x.d, x.n, x.c, x.sib.(c := Red), x.up), t), z) == TrailFrom(Plug(x, t), z) >= Dirty(x)
  {
    var x' := In(x.d, x.n, x.c, x.sib.(c := Red), x.up);
    PlugNodes(x, t);
    PlugNodes(x', t);
    TrailAtPlug(x, t, z);
    TrailAtPlug(x', t, z);
  }

  lemma LentTrail(x: Ctx, t: Tree, z: Node?)
    requires x.In? && x.sib.T? && (ColorOf(Kid(x.sib, x.d.Other())).Black? ==> Kid(x.sib, x.d).T?)
    requires Distinct(Plug(x.up, Lent(x, t))) && Deep(x, t, z)
    ensures LentNodes(x) + TrailAt(x, t, z) <= TrailFrom(Plug(x.up, Lent(x, t)), z)
  {
    var d, near, far := x.d, Kid(x.sib, x.d), Kid(x.sib, x.d.Other());
    PlugNodes(x.up, Lent(x, t));
    if ColorOf(far).Red? {
      MkNodes(d, t, x.n, Black, near);
      MkNodes(d, Mk(d, t, x.n, Black, near), x.sib.n, x.c, far.(c := Black));
      TrailMk(d, Mk(d, t, x.n, Black, near), x.sib.n, x.c, far.(c := Black), z);
      if t.T? { TrailMk(d, t, x.n, Black, near, z); }
    } else {
      var low, high := Mk(d, t, x.n, Black, Kid(near, d)), Mk(d, Kid(near, d.Other()), x.sib.n, Black, far);
      MkNodes(d, t, x.n, Black, Kid(near, d));
      MkNodes(d, low, near.n, x.c, high);
      TrailMk(d, low, near.n, x.c, high, z);
      if t.T? { TrailMk(d, t, x.n, Black, Kid(near, d), z); }
    }
    TrailPlug(x.up, Lent(x, t), z);
  }

  /** Everything touched so far lies on the final trail. */
  lemma LentCover(h: Fields, h': Fields, x: Ctx, t: Tree, z: Node?)
    requires x.In? && x.sib.T? && (ColorOf(Kid(x.sib, x.d.Other())).Black? ==> Kid(x.sib, x.d).T?)
    requires Spells(h, Plug(x, t)) && Spells(h', Plug(x.up, Lent(x, t))) && Deep(x, t, z)
    ensures LentNodes(x) + Opt(HoleParent(x.up)) + Dirty(x) +
      TrailFrom(Plug(x, t), z) <= TrailFrom(Plug(x.up, Lent(x, t)), z)
  {
    LentTrail(x, t, z);
    TrailAtPlug(x, t, z);
  }

  /** Children differ from `h0` at most at the nodes `w`. */
  ghost predicate KidsOff(s: set<Node>, h0: Fields, w: set<Node>)
    reads s
  {
    forall k :: k in s && k in h0 && k !in w ==> k.left == h0[k].left && k.right == h0[k].right
  }

  /** The loop invariant of __rb_erase_color; a rotation happens only in the last turn. */
  ghost predicate Sinking(root: Root, h0: Fields, w: set<Node>, z: Node?, node: Node?, x: Ctx, t: Tree, rotations: nat)
    reads root, root.nodes
  {
    && root.Holds() && root.tree == Plug(x, t) && ShortFocus(x, t) && RootOf(t) == node && Deep(x, t, z)
    && rotations <= 1
    && w <= TrailFrom(root.tree, z)
    && (rotations == 0 ==> KidsOff(root.nodes, h0, w))
    && (rotations > 0 ==> ColorOf(t).Red? && KidsOff(root.nodes, h0, TrailFrom(root.tree, z)))
  }

  lemma KidsOffMore(s: set<Node>, h0: Fields, w: set<Node>, w': set<Node>)
    requires KidsOff(s, h0, w) && w <= w'
    ensures KidsOff(s, h0, w')
  {
  }

  /** Half a turn later: the sibling is black. */
  ghost predicate Poised(root: Root, h0: Fields, w: set<Node>, z: Node?, x: Ctx, t: Tree, rotations: nat)
    reads root, root.nodes
  {
    && root.Holds() && root.tree == Plug(x, t) && ShortFocus(x, t) && ColorOf(t).Black? && Deep(x, t, z)
    && x.In? && x.sib.T? && x.sib.c.Black?
    && rotations <= 1 && (rotations > 0 ==> x.c.Red?)
    && w <= TrailFrom(root.tree, z)
    && KidsOff(root.nodes, h0, w + if rotations == 0 then {} else Dirty(x))
  }

  /** The rebalanced tree. */
  ghost predicate Rebalanced(root: Root, h0: Fields, z: Node?)
    reads root, root.nodes
  {
    root.Holds() && Valid(root.tree) && KidsOff(root.nodes, h0, TrailFrom(root.tree, z))
  }

  lemma RaisedDirty(x: Ctx)
    requires x.In? && x.sib.T?
    ensures {x.n, x.sib.n} + Opt(HoleParent(x.up)) <= Dirty(RaisedCtx(x))
  {
    assert CtxTrail(RaisedCtx(x).up) >= {x.sib.n} + CtxTrail(x.up);
  }

  /** Recolouring the sibling moves the shortage one level up. */
  method Lower(other: Node, root: Root, ghost h0: Fields, ghost w: set<Node>, ghost z: Node?, ghost x: Ctx,
               ghost t: Tree, ghost rotations: nat)
    requires Poised(root, h0, w, z, x, t, rotations) && x.sib.n == other
    requires ColorOf(x.sib.l).Black? && ColorOf(x.sib.r).Black?
    modifies root`tree, root.nodes`color
    ensures Sinking(root, h0, w, z, x.n, x.up, Mk(x.d, t, x.n, x.c, x.sib.(c := Red)), rotations)
    ensures InOrder(root.tree) == InOrder(old(root.tree))
  {
    ghost var t' := Mk(x.d, t, x.n, x.c, x.sib.(c := Red));
    LowerStep(x, t);
    SetColor(other, Red, root, In(x.d.Other(), x.n, x.c, t, x.up), x.sib);
    MkNodes(x.d, t, x.n, x.c, x.sib.(c := Red));
    assert Deep(x.up, t', z);
    LoweredTrail(x, t, z);
  }

  method PoiseLeft(node: Node?, parent: Node, root: Root, ghost h0: Fields, ghost w: set<Node>, ghost z: Node?,
                   ghost x: Ctx, ghost t: Tree)
    returns (other: Node, ghost x': Ctx, ghost rotations: nat)
    requires Sinking(root, h0, w, z, node, x, t, 0) && ColorOf(t).Black? && x.In? && x.d == L && x.n == parent
    modifies root`rb_node, root`tree, root.nodes`left, root.nodes`right, root.nodes`parent, root.nodes`color
    ensures Poised(root, h0, w, z, x', t, rotations) && x'.sib.n == other && x'.d == L && x'.n == parent
    ensures Depth(x') <= Depth(x) + 1 && (rotations == 0 ==> x' == x)
    ensures InOrder(root.tree) == InOrder(old(root.tree))
  {
    hide Plug, Mk, Spells, ShortFocus, InOrder, CtxTrail, Trail;
    SiblingExists(x, t);
    Beside(Snap(root.nodes), x, t);
    other, x', rotations := parent.right, x, 0;
    if other.color.Red? {
      RaiseStep(x, t);
      RaisedDirty(x);
      ghost var h := Snap(root.nodes);
      RaiseLeft(other, parent, root, x, t);
      RaisedTrail(h, Snap(root.nodes), x, t, z);
      x', rotations := RaisedCtx(x), 1;
      Beside(Snap(root.nodes), x', t);
      other := parent.right;
    }
  }

  method SettleLeft(other: Node, parent: Node, root: Root, ghost h0: Fields, ghost w: set<Node>, ghost z: Node?,
                    ghost x: Ctx, ghost t: Tree, ghost before: nat)
    returns (ghost rotations: nat)
    requires Poised(root, h0, w, z, x, t, before) && x.d == L && x.n == parent && x.sib.n == other
    requires ColorOf(x.sib.l).Red? || ColorOf(x.sib.r).Red?
    modifies root`rb_node, root`tree, root.nodes`left, root.nodes`right, root.nodes`parent, root.nodes`color
    ensures Rebalanced(root, h0, z) && rotations <= 3
    ensures InOrder(root.tree) == InOrder(old(root.tree))
  {
    LendStep(x, t);
    hide Plug, Mk, Spells, ShortFocus, InOrder, CtxTrail, Trail, Lent, Dirty, TrailFrom, LentNodes, Valid;
    ghost var h := Snap(root.nodes);
    rotations := LendLeft(other, parent, root, x, t);
    rotations := rotations + before;
    ghost var off := w + Dirty(x) + LentNodes(x) + Opt(HoleParent(x.up));
    assert KidsOff(root.nodes, h0, off);
    hide KidsOff;
    LentCover(h, Snap(root.nodes), x, t, z);
    KidsOffMore(root.nodes, h0, off, TrailFrom(root.tree, z));
  }

  method PoiseRight(node: Node?, parent: Node, root: Root, ghost h0: Fields, ghost w: set<Node>, ghost z: Node?,
                    ghost x: Ctx, ghost t: Tree)
    returns (other: Node, ghost x': Ctx, ghost rotations: nat)
    requires Sinking(root, h0, w, z, node, x, t, 0) && ColorOf(t).Black? && x.In? && x.d == R && x.n == parent
    modifies root`rb_node, root`tree, root.nodes`left, root.nodes`right, root.nodes`parent, root.nodes`color
    ensures Poised(root, h0, w, z, x', t, rotations) && x'.sib.n == other && x'.d == R && x'.n == parent
    ensures Depth(x') <= Depth(x) + 1 && (rotations == 0 ==> x' == x)
    ensures InOrder(root.tree) == InOrder(old(root.tree))
  {
    hide Plug, Mk, Spells, ShortFocus, InOrder, CtxTrail, Trail;
    SiblingExists(x, t);
    Beside(Snap(root.nodes), x, t);
    other, x', rotations := parent.left, x, 0;
    if other.color.Red? {
      RaiseStep(x, t);
      RaisedDirty(x);
      ghost var h := Snap(root.nodes);
      RaiseRight(other, parent, root, x, t);
      RaisedTrail(h, Snap(root.nodes), x, t, z);
      x', rotations := RaisedCtx(x), 1;
      Beside(Snap(root.nodes), x', t);
      other := parent.left;
    }
  }

  method SettleRight(other: Node, parent: Node, root: Root, ghost h0: Fields, ghost w: set<Node>, ghost z: Node?,
                     ghost x: Ctx, ghost t: Tree, ghost before: nat)
    returns (ghost rotations: nat)
    requires Poised(root, h0, w, z, x, t, before) && x.d == R && x.n == parent && x.sib.n == other
    requires ColorOf(x.sib.l).Red? || ColorOf(x.sib.r).Red?
    modifies root`rb_node, root`tree, root.nodes`left, root.nodes`right, root.nodes`parent, root.nodes`color
    ensures Rebalanced(root, h0, z) && rotations <= 3
    ensures InOrder(root.tree) == InOrder(old(root.tree))
  {
    LendStep(x, t);
    hide Plug, Mk, Spells, ShortFocus, InOrder, CtxTrail, Trail, Lent, Dirty, TrailFrom, LentNodes, Valid;
    ghost var h := Snap(root.nodes);
    rotations := LendRight(other, parent, root, x, t);
    rotations := rotations + before;
    ghost var off := w + Dirty(x) + LentNodes(x) + Opt(HoleParent(x.up));
    assert KidsOff(root.nodes, h0, off);
    hide KidsOff;
    LentCover(h, Snap(root.nodes), x, t, z);
    KidsOffMore(root.nodes, h0, off, TrailFrom(root.tree, z));
  }

  /** Painting the focus black ends the shortage. */
  method Blackened(node: Node, root: Root, ghost h0: Fields, ghost w: set<Node>, ghost z: Node?, ghost x: Ctx,
                   ghost t: Tree, ghost rotations: nat)
    requires Sinking(root, h0, w, z, node, x, t, rotations) && (ColorOf(t).Red? || x.Top?)
    modifies root`tree, root.nodes`color
    ensures Rebalanced(root, h0, z) && InOrder(root.tree) == InOrder(old(root.tree))
  {
    PlugValid(x, Blacken(t));
    PlugNodes(x, t);
    TrailPlug(x, t, z);
    TrailPaint(t, Black, z);
    SetColor(node, Black, root, x, t);
    TrailPlug(x, Blacken(t), z);
  }

  /** The root of a rebalanced tree is black already. */
  method BlackRoot(node: Node, root: Root, ghost h0: Fields, ghost z: Node?)
    requires Rebalanced(root, h0, z) && root.rb_node == node
    modifies root`tree, root.nodes`color
    ensures Rebalanced(root, h0, z) && InOrder(root.tree) == InOrder(old(root.tree))
  {
    SetColor(node, Black, root, Top, root.tree);
  }

  predicate BlackKids(t: Tree) {
    t.T? && ColorOf(t.l).Black? && ColorOf(t.r).Black?
  }

  /** What the loop condition tests. */
  lemma Focus(root: Root, x: Ctx, t: Tree)
    requires root.Holds() && root.tree == Plug(x, t)
    ensures t.T? ==> t.n in root.nodes && t.n.color == t.c && t.n.parent == HoleParent(x)
    ensures root.rb_node == RootOf(t) <==> x.Top?
    ensures x.In? ==> x.n in root.nodes && (x.n.left == RootOf(t) <==> x.d == L || (x.sib.Leaf? && t.Leaf?))
  {
    PlugRoot(x, t);
    Split(Snap(root.nodes), x, t);
    if x.In? {
      CtxRootIn(x);
      Beside(Snap(root.nodes), x, t);
    }
  }

  lemma CtxRootIn(x: Ctx)
    requires x.In?
    ensures CtxRoot(x) in CtxNodes(x)
  {
    if x.up.In? { CtxRootIn(x.up); }
  }

  method BothBlack(other: Node, root: Root, ghost x: Ctx, ghost t: Tree) returns (b: bool)
    requires root.Holds() && root.tree == Plug(x, t) && x.In? && x.sib.T? && x.sib.n == other
    ensures b <==> BlackKids(x.sib)
  {
    Beside(Snap(root.nodes), x, t);
    b := (other.left == null || other.left.color.Black?) && (other.right == null || other.right.color.Black?);
  }

  /** One turn of the loop for a focus that is a left child. */
  method SinkLeft(node: Node?, parent: Node, root: Root, ghost h0: Fields, ghost w: set<Node>, ghost z: Node?,
                  ghost x: Ctx, ghost t: Tree)
    returns (done: bool, ghost x': Ctx, ghost t': Tree, ghost rotations: nat)
    requires Sinking(root, h0, w, z, node, x, t, 0) && ColorOf(t).Black? && x.In? && x.d == L && x.n == parent
    modifies root`rb_node, root`tree, root.nodes`left, root.nodes`right, root.nodes`parent, root.nodes`color
    ensures done ==> Rebalanced(root, h0, z) && rotations <= 3
    ensures !done ==> Sinking(root, h0, w, z, parent, x', t', rotations) && Depth(x') <= Depth(x)
    ensures !done && rotations == 0 ==> Depth(x') < Depth(x)
    ensures InOrder(root.tree) == InOrder(old(root.tree))
  {
    hide Plug, Mk, Spells, ShortFocus, InOrder, CtxTrail, Trail, Lent, Dirty, TrailFrom, LentNodes, Valid;
    var other: Node;
    other, x', rotations := PoiseLeft(node, parent, root, h0, w, z, x, t);
    var both := BothBlack(other, root, x', t);
    if both {
      Lower(other, root, h0, w, z, x', t, rotations);
      done, x', t' := false, x'.up, Mk(x'.d, t, x'.n, x'.c, x'.sib.(c := Red));
    } else {
      rotations := SettleLeft(other, parent, root, h0, w, z, x', t, rotations);
      done, t' := true, t;
    }
  }

  /** One turn of the loop for a focus that is a right child. */
  method SinkRight(node: Node?, parent: Node, root: Root, ghost h0: Fields, ghost w: set<Node>, ghost z: Node?,
                   ghost x: Ctx, ghost t: Tree)
    returns (done: bool, ghost x': Ctx, ghost t': Tree, ghost rotations: nat)
    requires Sinking(root, h0, w, z, node, x, t, 0) && ColorOf(t).Black? && x.In? && x.d == R && x.n == parent
    modifies root`rb_node, root`tree, root.nodes`left, root.nodes`right, root.nodes`parent, root.nodes`color
    ensures done ==> Rebalanced(root, h0, z) && rotations <= 3
    ensures !done ==> Sinking(root, h0, w, z, parent, x', t', rotations) && Depth(x') <= Depth(x)
    ensures !done && rotations == 0 ==> Depth(x') < Depth(x)
    ensures InOrder(root.tree) == InOrder(old(root.tree))
  {
    hide Plug, Mk, Spells, ShortFocus, InOrder, CtxTrail, Trail, Lent, Dirty, TrailFrom, LentNodes, Valid;
    var other: Node;
    other, x', rotations := PoiseRight(node, parent, root, h0, w, z, x, t);
    var both := BothBlack(other, root, x', t);
    if both {
      Lower(other, root, h0, w, z, x', t, rotations);
      done, x', t' := false, x'.up, Mk(x'.d, t, x'.n, x'.c, x'.sib.(c := Red));
    } else {
      rotations := SettleRight(other, parent, root, h0, w, z, x', t, rotations);
      done, t' := true, t;
    }
  }

  method EraseColor(node0: Node?, parent0: Node?, root: Root, ghost x0: Ctx, ghost t0: Tree, ghost h0: Fields,
                    ghost w: set<Node>)
    returns (ghost rotations: nat)
    requires root.Holds() && root.tree == Plug(x0, t0) && ShortFocus(x0, t0)
    requires node0 == RootOf(t0) && parent0 == HoleParent(x0)
    requires KidsOff(root.nodes, h0, w) && w <= TrailFrom(root.tree, if node0 != null then node0 else parent0)
    modifies root`rb_node, root`tree, root.nodes`left, root.nodes`right, root.nodes`parent, root.nodes`color
    ensures root.Holds() && Valid(root.tree) && InOrder(root.tree) == InOrder(old(root.tree))
    ensures KidsOff(root.nodes, h0, TrailFrom(root.tree, if node0 != null then node0 else parent0))
    ensures rotations <= 3
  {
    hide Plug, Mk, Spells, ShortFocus, InOrder, Trail;
    ghost var z := if node0 != null then node0 else parent0;
    var node, parent := node0, parent0;
    ghost var x, t := x0, t0;
    rotations := 0;
    while true
      invariant Sinking(root, h0, w, z, node, x, t, rotations) && parent == HoleParent(x)
      invariant InOrder(root.tree) == InOrder(old(root.tree))
      decreases Depth(x), 1 - rotations
    {
      Focus(root, x, t);
      if !((node == null || node.color.Black?) && node != root.rb_node) {
        break;
      }
      SiblingExists(x, t);
      var done;
      if parent.left == node {
        done, x, t, rotations := SinkLeft(node, parent, root, h0, w, z, x, t);
      } else {
        done, x, t, rotations := SinkRight(node, parent, root, h0, w, z, x, t);
      }
      if done {
        node := root.rb_node;
        if node != null {
          BlackRoot(node, root, h0, z);
        }
        return;
      }
      Focus(root, x, t);
      node := parent;
      parent := node.parent;
    }
    if node != null {
      Blackened(node, root, h0, w, z, x, t, rotations);
    }
  }
}
