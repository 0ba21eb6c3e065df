/** rb_insert_color: rebalancing after a red node was linked at a leaf. */
module RbInsert {
  import opened RbSpec
  import opened RbTree
  import opened RbTrail

  /** The loop state: focus `t` is a red-black tree with a red root, and only the edge from
      its root to a red parent can break the colour rules of the whole tree. */
  predicate RedFocus(x: Ctx, t: Tree) {
    t.T? && t.c.Red? && RedBlack(t) && CtxRedBlack(x, BlackHeight(t))
  }

  /** Red uncle: both children of the grandparent turn black and the focus moves up to it. */
  lemma RecolorStep(x: Ctx, t: Tree)
    requires RedFocus(x, t) && x.In? && x.c.Red? && ColorOf(x.up.sib).Red?
    ensures RedFocus(x.up.up, Mk(x.up.d, Mk(x.d, t, x.n, Black, x.sib), x.up.n, Red, x.up.sib.(c := Black)))
  {
    assert CtxRedBlack(x.up, BlackHeight(t));
    assert RedBlack(Mk(x.d, t, x.n, Black, x.sib));
    assert RedBlack(x.up.sib.(c := Black));
  }

  /** Inner focus: rotating the parent outwards gives the same situation with parent and child swapped. */
  lemma InnerStep(x: Ctx, d: Side, t1: Tree, n: Node, t2: Tree)
    requires RedFocus(x, Mk(d, t1, n, Red, t2)) && x.In? && x.c.Red? && x.d == d.Other()
    ensures RedFocus(In(d, n, Red, t2, x.up), Mk(d, x.sib, x.n, Red, t1))
  {
  }

  /** Outer focus under a black uncle: rotating the grandparent finishes. */
  lemma OuterStep(x: Ctx, t: Tree)
    requires RedFocus(x, t) && x.In? && x.c.Red? && ColorOf(x.up.sib).Black? && x.d == x.up.d
    ensures RedFocus(In(x.d, x.n, Black, Mk(x.d, x.sib, x.up.n, Red, x.up.sib), x.up.up), t)
  {
    assert CtxRedBlack(x.up, BlackHeight(t));
    assert RedBlack(Mk(x.d, x.sib, x.up.n, Red, x.up.sib));
  }

  /** What the code reads off the fields around a focus. */
  lemma Around(h: Fields, x: Ctx, t: Tree)
    requires Spells(h, Plug(x, t)) && t.T?
    ensures t.n in h && h[t.n].parent == HoleParent(x) && h[t.n].color == t.c
    ensures h[t.n].left == RootOf(t.l) && h[t.n].right == RootOf(t.r)
    ensures x.In? ==> x.n in h && h[x.n].Child(x.d) == t.n && h[x.n].Child(x.d.Other()) == RootOf(x.sib)
    ensures x.In? ==> RootOf(x.sib) != t.n && h[x.n].color == x.c && h[x.n].parent == HoleParent(x.up)
    ensures x.In? && x.sib.T? ==> x.sib.n in h && h[x.sib.n].color == x.sib.c
  {
    Split(h, x, t);
  }

  function Above(x: Ctx, t: Tree): Tree
    requires x.In?
  {
    Mk(x.d, t, x.n, x.c, x.sib)
  }

  method RecolorUp(uncle: Node, parent: Node, gparent: Node, root: Root, ghost x: Ctx, ghost t: Tree)
    requires root.Holds() && root.tree == Plug(x, t) && RedFocus(x, t) && x.In? && x.c.Red?
    requires parent == x.n && gparent == x.up.n && RootOf(x.up.sib) == uncle && x.up.sib.c.Red?
    modifies root`tree, root.nodes`color
    ensures root.Holds()
    ensures InOrder(root.tree) == InOrder(old(root.tree))
    ensures root.tree == Plug(x.up.up, Mk(x.up.d, Mk(x.d, t, x.n, Black, x.sib), x.up.n, Red, x.up.sib.(c := Black)))
  {
    ghost var up, u := x.up.up, x.up.sib;
    ghost var d, p := x.up.d, Above(x, t);
    SetColor(uncle, Black, root, In(d.Other(), gparent, x.up.c, p, up), u);
    SetColor(parent, Black, root, In(d, gparent, x.up.c, u.(c := Black), up), p);
    SetColor(gparent, Red, root, up, Mk(d, p.(c := Black), gparent, x.up.c, u.(c := Black)));
  }

  /** The subtree that replaces the grandparent's when the uncle is black. */
  function Finished(x: Ctx, t: Tree): Tree
    requires x.In? && x.up.In? && t.T?
  {
    var d := x.up.d;
    if x.d == d then
      Mk(d, t, x.n, Black, Mk(d, x.sib, x.up.n, Red, x.up.sib))
    else
      Mk(d, Mk(d, x.sib, x.n, Red, Kid(t, d)), t.n, Black, Mk(d, Kid(t, d.Other()), x.up.n, Red, x.up.sib))
  }

  /** An inner grandchild is turned outwards first. */
  method StraightenLeft(node0: Node, parent0: Node, root: Root, ghost x: Ctx, ghost t: Tree)
    returns (node: Node, parent: Node, ghost near: Tree, ghost far: Tree, ghost rotations: nat)
    requires root.Holds() && root.tree == Plug(x, t) && t.T? && t.n == node0 && t.c.Red?
    requires x.In? && x.c.Red? && x.n == parent0 && x.up.In? && x.up.d == L
    modifies root`rb_node, root`tree, root.nodes`left, root.nodes`right, root.nodes`parent
    ensures root.Holds() && root.tree == Plug(x.up, Mk(L, near, parent, Red, far))
    ensures InOrder(root.tree) == InOrder(old(root.tree))
    ensures x.d == L ==> node == node0 && parent == parent0 && near == t && far == x.sib && rotations == 1
    ensures x.d != L ==>
      && node == parent0 && parent == node0 && rotations == 2
      && near == Mk(L, x.sib, parent0, Red, Kid(t, L)) && far == Kid(t, R)
    ensures forall k :: k in root.nodes && k != node0 && k != parent0 && k != x.up.n ==>
      k.left == old(k.left) && k.right == old(k.right)
  {
    near, far := t, x.sib;
    Around(Snap(root.nodes), x, t);
    node, parent, rotations := node0, parent0, 1;
    if parent.right == node {
      near, far := Mk(L, x.sib, parent, Red, Kid(t, L)), Kid(t, R);
      RotateLeft(parent, root, x.up, x.sib, Red, Kid(t, L), node, Red, far);
      node, parent, rotations := parent, node, 2;
    }
  }

  method FinishLeft(node0: Node, parent0: Node, gparent: Node, root: Root, ghost x: Ctx, ghost t: Tree)
    returns (node: Node, ghost rotations: nat)
    requires root.Holds() && root.tree == Plug(x, t) && t.T? && t.n == node0 && t.c.Red?
    requires x.In? && x.c.Red? && x.n == parent0 && x.up.In? && x.up.c.Black? && x.up.n == gparent && x.up.d == L
    modifies root`rb_node, root`tree, root.nodes`left, root.nodes`right, root.nodes`parent, root.nodes`color
    ensures root.Holds() && root.tree == Plug(x.up.up, Finished(x, t))
    ensures InOrder(root.tree) == InOrder(old(root.tree))
    ensures node == (if x.d == L then node0 else parent0) && 1 <= rotations <= 2
    ensures forall k :: k in root.nodes && k !in {node0, parent0, gparent} && k != HoleParent(x.up.up) ==>
      k.left == old(k.left) && k.right == old(k.right)
  {
    ghost var up, s := x.up.up, x.up.sib;
    var parent;
    ghost var near, far;
    node, parent, near, far, rotations := StraightenLeft(node0, parent0, root, x, t);
    SetColor(parent, Black, root, x.up, Mk(L, near, parent, Red, far));
    SetColor(gparent, Red, root, up, Mk(L, Mk(L, near, parent, Black, far), gparent, Black, s));
    RotateRight(gparent, root, up, s, Red, far, parent, Black, near);
  }

  /** An inner grandchild is turned outwards first. */
  method StraightenRight(node0: Node, parent0: Node, root: Root, ghost x: Ctx, ghost t: Tree)
    returns (node: Node, parent: Node, ghost near: Tree, ghost far: Tree, ghost rotations: nat)
    requires root.Holds() && root.tree == Plug(x, t) && t.T? && t.n == node0 && t.c.Red?
    requires x.In? && x.c.Red? && x.n == parent0 && x.up.In? && x.up.d == R
    modifies root`rb_node, root`tree, root.nodes`left, root.nodes`right, root.nodes`parent
    ensures root.Holds() && root.tree == Plug(x.up, Mk(R, near, parent, Red, far))
    ensures InOrder(root.tree) == InOrder(old(root.tree))
    ensures x.d == R ==> node == node0 && parent == parent0 && near == t && far == x.sib && rotations == 1
    ensures x.d != R ==>
      && node == parent0 && parent == node0 && rotations == 2
      && near == Mk(R, x.sib, parent0, Red, Kid(t, R)) && far == Kid(t, L)
    ensures forall k :: k in root.nodes && k != node0 && k != parent0 && k != x.up.n ==>
      k.left == old(k.left) && k.right == old(k.right)
  {
    near, far := t, x.sib;
    Around(Snap(root.nodes), x, t);
    node, parent, rotations := node0, parent0, 1;
    if parent.left == node {
      near, far := Mk(R, x.sib, parent, Red, Kid(t, R)), Kid(t, L);
      RotateRight(parent, root, x.up, x.sib, Red, Kid(t, R), node, Red, far);
      node, parent, rotations := parent, node, 2;
    }
  }

  method FinishRight(node0: Node, parent0: Node, gparent: Node, root: Root, ghost x: Ctx, ghost t: Tree)
    returns (node: Node, ghost rotations: nat)
    requires root.Holds() && root.tree == Plug(x, t) && t.T? && t.n == node0 && t.c.Red?
    requires x.In? && x.c.Red? && x.n == parent0 && x.up.In? && x.up.c.Black? && x.up.n == gparent && x.up.d == R
    modifies root`rb_node, root`tree, root.nodes`left, root.nodes`right, root.nodes`parent, root.nodes`color
    ensures root.Holds() && root.tree == Plug(x.up.up, Finished(x, t))
    ensures InOrder(root.tree) == InOrder(old(root.tree))
    ensures node == (if x.d == R then node0 else parent0) && 1 <= rotations <= 2
    ensures forall k :: k in root.nodes && k !in {node0, parent0, gparent} && k != HoleParent(x.up.up) ==>
      k.left == old(k.left) && k.right == old(k.right)
  {
    ghost var up, s := x.up.up, x.up.sib;
    var parent;
    ghost var near, far;
    node, parent, near, far, rotations := StraightenRight(node0, parent0, root, x, t);
    SetColor(parent, Black, root, x.up, Mk(R, near, parent, Red, far));
    SetColor(gparent, Red, root, up, Mk(R, Mk(R, near, parent, Black, far), gparent, Black, s));
    RotateLeft(gparent, root, up, s, Red, far, parent, Black, near);
  }

  /** The three nodes that the last rotations touch, and the parent they hang off, lie on the trail. */
  lemma FinishedTrail(h: Fields, x: Ctx, t: Tree, z: Node)
    requires x.In? && x.up.In? && t.T? && z in Nodes(t) && Spells(h, Plug(x.up.up, Finished(x, t)))
    ensures z in h
    ensures {t.n, x.n, x.up.n} + Opt(HoleParent(x.up.up)) <= Trail(Plug(x.up.up, Finished(x, t)), StartIn(h, z))
  {
    var d, f, up := x.up.d, Finished(x, t), x.up.up;
    Split(h, up, f);
    if x.d == d {
      var far := Mk(d, x.sib, x.up.n, Red, x.up.sib);
      FitsMk(h, d, t, x.n, Black, far, HoleParent(up));
      MkNodes(d, t, x.n, Black, far);
      StartInside(h, t, x.n, z);
      TrailMk(d, t, x.n, Black, far, StartIn(h, z));
      TrailRoot(t, StartIn(h, z));
    } else {
      var near, far := Mk(d, x.sib, x.n, Red, Kid(t, d)), Mk(d, Kid(t, d.Other()), x.up.n, Red, x.up.sib);
      MkNodes(d, near, t.n, Black, far);
      MkNodes(d, x.sib, x.n, Red, Kid(t, d));
      MkNodes(d, Kid(t, d.Other()), x.up.n, Red, x.up.sib);
      StartBelow(h, d, near, t.n, Black, far, HoleParent(up), z);
      if StartIn(h, z) in Nodes(near) {
        TrailMk(d, near, t.n, Black, far, StartIn(h, z));
        TrailRoot(near, StartIn(h, z));
      } else {
        assert f == Mk(d.Other(), far, t.n, Black, near);
        TrailMk(d.Other(), far, t.n, Black, near, StartIn(h, z));
        TrailRoot(far, StartIn(h, z));
      }
    }
    TrailPlug(up, f, StartIn(h, z));
  }

  /** The context and focus after the last rotations, where the loop stops. */
  function FinalCtx(x: Ctx, t: Tree): Ctx
    requires x.In? && x.up.In? && t.T?
  {
    var d := x.up.d;
    if x.d == d then In(d, x.n, Black, Mk(d, x.sib, x.up.n, Red, x.up.sib), x.up.up)
    else In(d, t.n, Black, Mk(d, Kid(t, d.Other()), x.up.n, Red, x.up.sib), x.up.up)
  }

  function FinalFocus(x: Ctx, t: Tree): Tree
    requires x.In? && x.up.In? && t.T?
  {
    if x.d == x.up.d then t else Mk(x.up.d, x.sib, x.n, Red, Kid(t, x.up.d))
  }

  lemma FinishStep(x: Ctx, t: Tree)
    requires RedFocus(x, t) && x.In? && x.c.Red? && ColorOf(x.up.sib).Black?
    ensures RedFocus(FinalCtx(x, t), FinalFocus(x, t))
    ensures Plug(FinalCtx(x, t), FinalFocus(x, t)) == Plug(x.up.up, Finished(x, t))
  {
    var d := x.up.d;
    if x.d == d {
      OuterStep(x, t);
    } else {
      assert t == Mk(d, Kid(t, d), t.n, Red, Kid(t, d.Other()));
      InnerStep(x, d, Kid(t, d), t.n, Kid(t, d.Other()));
      OuterStep(In(d, t.n, Red, Kid(t, d.Other()), x.up), Mk(d, x.sib, x.n, Red, Kid(t, d)));
    }
  }

  /** Only nodes on the trail of `z` have other children than in `h0`. */
  ghost predicate KidsOffTrail(root: Root, h0: Fields, z: Node)
    reads root, root.nodes, z
  {
    forall k :: k in root.nodes && k in h0 && k !in Trail(root.tree, StartOf(z)) ==>
      k.left == h0[k].left && k.right == h0[k].right
  }

  /** The loop invariant of rb_insert_color: `node` is the root of the focus `t`, and child pointers
      differ from `h0` only on the trail of the inserted node `z`, and only once the loop is about to stop. */
  ghost predicate Climbing(root: Root, h0: Fields, z: Node, node: Node?, x: Ctx, t: Tree, rotations: nat)
    reads root, root.nodes, z
  {
    && root.Holds() && root.tree == Plug(x, t) && RedFocus(x, t) && RootOf(t) == node
    && z in root.nodes && rotations <= 2
    && (rotations == 0 ==> z in Nodes(t) && forall k :: k in root.nodes && k in h0 ==>
          k.left == h0[k].left && k.right == h0[k].right)
    && (rotations > 0 ==> x.In? && x.c.Black? && KidsOffTrail(root, h0, z))
  }

  method RecolorClimb(uncle: Node, parent: Node, gparent: Node, root: Root, ghost h0: Fields, ghost z: Node,
                      ghost x: Ctx, ghost t: Tree)
    returns (ghost t': Tree)
    requires Climbing(root, h0, z, RootOf(t), x, t, 0) && x.In? && x.c.Red?
    requires parent == x.n && gparent == x.up.n && RootOf(x.up.sib) == uncle && x.up.sib.c.Red?
    modifies root`tree, root.nodes`color
    ensures Climbing(root, h0, z, gparent, x.up.up, t', 0)
    ensures InOrder(root.tree) == InOrder(old(root.tree))
  {
    t' := Mk(x.up.d, Mk(x.d, t, x.n, Black, x.sib), x.up.n, Red, x.up.sib.(c := Black));
    RecolorStep(x, t);
    MkNodes(x.d, t, x.n, Black, x.sib);
    MkNodes(x.up.d, Mk(x.d, t, x.n, Black, x.sib), x.up.n, Red, x.up.sib.(c := Black));
    RecolorUp(uncle, parent, gparent, root, x, t);
  }

  predicate SameKids(h0: Fields, h: Fields) {
    forall k :: k in h0 && k in h ==> h[k].left == h0[k].left && h[k].right == h0[k].right
  }

  /** Children changed only at `w`, which lies on the trail. */
  lemma OffTrailAfter(root: Root, h0: Fields, h: Fields, z: Node, w: set<Node>)
    requires SameKids(h0, h) && h.Keys == root.nodes && w <= Trail(root.tree, StartOf(z))
    requires forall k :: k in root.nodes && k !in w ==> k.left == h[k].left && k.right == h[k].right
    ensures KidsOffTrail(root, h0, z)
  {
    hide Trail;
  }

  lemma EndsClimbing(root: Root, h0: Fields, z: Node, node: Node, x: Ctx, t: Tree, rotations: nat)
    requires root.Holds() && x.In? && x.up.In? && t.T? && root.tree == Plug(FinalCtx(x, t), FinalFocus(x, t))
    requires RedFocus(FinalCtx(x, t), FinalFocus(x, t)) && node == RootOf(FinalFocus(x, t)) && z in root.nodes
    requires 1 <= rotations <= 2 && KidsOffTrail(root, h0, z)
    ensures Climbing(root, h0, z, node, FinalCtx(x, t), FinalFocus(x, t), rotations)
  {
    hide Plug, Spells, RedFocus, KidsOffTrail;
  }

  /** The rotations at the end, when the parent is a left child and the uncle is black. */
  method FinishClimbLeft(node: Node, parent: Node, gparent: Node, root: Root,
                        ghost h0: Fields, ghost z: Node, ghost x: Ctx, ghost t: Tree)
    returns (node': Node, ghost rotations: nat)
    requires Climbing(root, h0, z, node, x, t, 0) && x.In? && x.up.In? && ColorOf(x.up.sib).Black?
    requires x.c.Red? && x.n == parent && x.up.In? && x.up.n == gparent && x.up.d == L
    modifies root`rb_node, root`tree, root.nodes`left, root.nodes`right, root.nodes`parent, root.nodes`color
    ensures Climbing(root, h0, z, node', FinalCtx(x, t), FinalFocus(x, t), rotations)
    ensures InOrder(root.tree) == InOrder(old(root.tree))
  {
    assert t.T? && t.c.Red? && x.up.c.Black?;
    hide Plug, Spells, InOrder, Finished, Trail, RedFocus;
    FinishStep(x, t);
    assert z in root.nodes && z in Nodes(t);
    ghost var h := Snap(root.nodes);
    assert SameKids(h0, h);
    hide Climbing, SameKids, KidsOffTrail;
    node', rotations := FinishLeft(node, parent, gparent, root, x, t);
    FinishedTrail(Snap(root.nodes), x, t, z);
    OffTrailAfter(root, h0, h, z, {node, parent, gparent} + Opt(HoleParent(x.up.up)));
    assert node' == RootOf(FinalFocus(x, t));
    EndsClimbing(root, h0, z, node', x, t, rotations);
  }

  /** One turn of the loop when the parent is a left child. */
  method ClimbLeft(node: Node, parent: Node, gparent: Node, root: Root,
                  ghost h0: Fields, ghost z: Node, ghost x: Ctx, ghost t: Tree)
    returns (node': Node, ghost x': Ctx, ghost t': Tree, ghost rotations: nat)
    requires Climbing(root, h0, z, node, x, t, 0)
    requires x.In? && x.c.Red? && x.n == parent && x.up.In? && x.up.n == gparent && x.up.d == L
    modifies root`rb_node, root`tree, root.nodes`left, root.nodes`right, root.nodes`parent, root.nodes`color
    ensures Climbing(root, h0, z, node', x', t', rotations) && Depth(x') < Depth(x)
    ensures InOrder(root.tree) == InOrder(old(root.tree))
  {
    Around(Snap(root.nodes), x.up, Above(x, t));
    var uncle := gparent.right;
    assert uncle == RootOf(x.up.sib) && (uncle != null ==> uncle.color == x.up.sib.c);
    hide Climbing, InOrder;
    if uncle != null && uncle.color.Red? {
      t' := RecolorClimb(uncle, parent, gparent, root, h0, z, x, t);
      node', x', rotations := gparent, x.up.up, 0;
    } else {
      node', rotations := FinishClimbLeft(node, parent, gparent, root, h0, z, x, t);
      x', t' := FinalCtx(x, t), FinalFocus(x, t);
    }
  }

  /** The rotations at the end, when the parent is a right child and the uncle is black. */
  method FinishClimbRight(node: Node, parent: Node, gparent: Node, root: Root,
                        ghost h0: Fields, ghost z: Node, ghost x: Ctx, ghost t: Tree)
    returns (node': Node, ghost rotations: nat)
    requires Climbing(root, h0, z, node, x, t, 0) && x.In? && x.up.In? && ColorOf(x.up.sib).Black?
    requires x.c.Red? && x.n == parent && x.up.In? && x.up.n == gparent && x.up.d == R
    modifies root`rb_node, root`tree, root.nodes`left, root.nodes`right, root.nodes`parent, root.nodes`color
    ensures Climbing(root, h0, z, node', FinalCtx(x, t), FinalFocus(x, t), rotations)
    ensures InOrder(root.tree) == InOrder(old(root.tree))
  {
    assert t.T? && t.c.Red? && x.up.c.Black?;
    hide Plug, Spells, InOrder, Finished, Trail, RedFocus;
    FinishStep(x, t);
    assert z in root.nodes && z in Nodes(t);
    ghost var h := Snap(root.nodes);
    assert SameKids(h0, h);
    hide Climbing, SameKids, KidsOffTrail;
    node', rotations := FinishRight(node, parent, gparent, root, x, t);
    FinishedTrail(Snap(root.nodes), x, t, z);
    OffTrailAfter(root, h0, h, z, {node, parent, gparent} + Opt(HoleParent(x.up.up)));
    assert node' == RootOf(FinalFocus(x, t));
    EndsClimbing(root, h0, z, node', x, t, rotations);
  }

  /** One turn of the loop when the parent is a right child. */
  method ClimbRight(node: Node, parent: Node, gparent: Node, root: Root,
                  ghost h0: Fields, ghost z: Node, ghost x: Ctx, ghost t: Tree)
    returns (node': Node, ghost x': Ctx, ghost t': Tree, ghost rotations: nat)
    requires Climbing(root, h0, z, node, x, t, 0)
    requires x.In? && x.c.Red? && x.n == parent && x.up.In? && x.up.n == gparent && x.up.d == R
    modifies root`rb_node, root`tree, root.nodes`left, root.nodes`right, root.nodes`parent, root.nodes`color
    ensures Climbing(root, h0, z, node', x', t', rotations) && Depth(x') < Depth(x)
    ensures InOrder(root.tree) == InOrder(old(root.tree))
  {
    Around(Snap(root.nodes), x.up, Above(x, t));
    var uncle := gparent.left;
    assert uncle == RootOf(x.up.sib) && (uncle != null ==> uncle.color == x.up.sib.c);
    hide Climbing, InOrder;
    if uncle != null && uncle.color.Red? {
      t' := RecolorClimb(uncle, parent, gparent, root, h0, z, x, t);
      node', x', rotations := gparent, x.up.up, 0;
    } else {
      node', rotations := FinishClimbRight(node, parent, gparent, root, h0, z, x, t);
      x', t' := FinalCtx(x, t), FinalFocus(x, t);
    }
  }

  method BlackenRoot(root: Root, ghost h0: Fields, ghost z: Node)
    requires root.Holds() && root.tree.T? && z in root.nodes && KidsOffTrail(root, h0, z)
    modifies root`tree, root.nodes`color
    ensures root.Holds() && root.tree == old(root.tree).(c := Black) && KidsOffTrail(root, h0, z)
    ensures InOrder(root.tree) == InOrder(old(root.tree))
  {
    TrailPaint(root.tree, Black, StartOf(z));
    SetColor(root.rb_node, Black, root, Top, root.tree);
  }

  /** The loop is left when the parent is black or missing; painting the root black then makes the tree valid. */
  method EndClimb(root: Root, ghost h0: Fields, ghost z: Node, ghost node: Node, ghost x: Ctx, ghost t: Tree,
                  ghost rotations: nat)
    requires Climbing(root, h0, z, node, x, t, rotations) && (x.Top? || x.c.Black?)
    modifies root`tree, root.nodes`color
    ensures root.Holds() && Valid(root.tree) && InOrder(root.tree) == InOrder(old(root.tree))
    ensures KidsOffTrail(root, h0, z)
  {
    Around(Snap(root.nodes), x, t);
    PlugValid(x, t.(c := if x.Top? then Black else Red));
    BlackenRoot(root, h0, z);
  }

  method InsertColor(node0: Node, root: Root, ghost x0: Ctx) returns (ghost rotations: nat)
    requires root.Holds() && root.tree == Plug(x0, T(Leaf, node0, Red, Leaf)) && CtxRedBlack(x0, 0)
    requires node0 in root.nodes
    modifies root`rb_node, root`tree, root.nodes`left, root.nodes`right, root.nodes`parent, root.nodes`color
    ensures root.Holds() && Valid(root.tree) && InOrder(root.tree) == InOrder(old(root.tree))
    ensures KidsOffTrail(root, old(Snap(root.nodes)), node0)
    ensures rotations <= 2
  {
    ghost var h0 := Snap(root.nodes);
    var node := node0;
    ghost var x, t := x0, T(Leaf, node0, Red, Leaf);
    rotations := 0;
    while true
      invariant Climbing(root, h0, node0, node, x, t, rotations)
      invariant InOrder(root.tree) == InOrder(old(root.tree))
      decreases Depth(x)
    {
      Around(Snap(root.nodes), x, t);
      var parent := node.parent;
      if parent == null || parent.color.Black? {
        break;
      }
      Around(Snap(root.nodes), x.up, Above(x, t));
      var gparent := parent.parent;
      if parent == gparent.left {
        node, x, t, rotations := ClimbLeft(node, parent, gparent, root, h0, node0, x, t);
      } else {
        node, x, t, rotations := ClimbRight(node, parent, gparent, root, h0, node0, x, t);
      }
    }
    EndClimb(root, h0, node0, node, x, t, rotations);
  }
}
