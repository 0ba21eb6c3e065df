/** rb_augment_insert, rb_augment_erase_begin/_end: values kept per node that depend on the node
    and its children's values. */
module RbAugment {
  import opened Common
  import opened RbSpec
  import opened RbTree
  import opened RbTrail
  import opened RbInsert
  import opened RbEraseColor
  import opened RbErase
  import opened RbIter
  import opened BpIndex

  /** The augmented values and the rule `f` that rb_augment_f applies to one node. */
  class Augment<V> {
    var val: map<Node, V>
    const f: (Node, Option<V>, Option<V>) -> V

    constructor (f: (Node, Option<V>, Option<V>) -> V)
      ensures this.f == f && val == map[]
    {
      this.f := f;
      val := map[];
    }

    function Of(n: Node?): Option<V>
      reads this
    {
      if n == null || n !in val then None else Some(val[n])
    }

    /** The value stored for `k` is what the rule gives from its children's values. */
    ghost predicate Right(k: Node)
      reads this, k
    {
      k in val && val[k] == f(k, Of(k.left), Of(k.right))
    }

    ghost predicate AllRight(s: set<Node>)
      reads this, s
    {
      forall k :: k in s ==> Right(k)
    }

    /** The callback. */
    method Recompute(n: Node)
      modifies this
      ensures val == old(val)[n := f(n, old(Of(n.left)), old(Of(n.right)))]
    {
      val := val[n := f(n, Of(n.left), Of(n.right))];
    }

    /** Recomputing `n` makes it right and can only disturb nodes that have it as a child. */
    method Fix(n: Node, ghost root: Root)
      requires root.Holds() && n in root.nodes
      modifies this
      ensures Right(n)
      ensures forall k :: k in root.nodes && old(Right(k)) && k != n.parent ==> Right(k)
    {
      Childless(root, n);
      Recompute(n);
    }
  }

  /** No node is its own child, and only the parent of `n` has `n` as a child. */
  lemma Childless(root: Root, n: Node)
    requires root.Holds() && n in root.nodes
    ensures n.left != n && n.right != n
    ensures forall k :: k in root.nodes && (k.left == n || k.right == n) ==> k == n.parent
  {
    forall k | k in root.nodes && (k.left == n || k.right == n)
      ensures k == n.parent && k != n
    {
      KidParent(root, k, n);
    }
  }

  lemma KidParent(root: Root, k: Node, n: Node)
    requires root.Holds() && k in root.nodes && (k.left == n || k.right == n)
    ensures n in root.nodes && n.parent == k && k != n
  {
    var h := Snap(root.nodes);
    NodesAre(root);
    var x, t := Locate(root.tree, Top, k);
    Around(h, x, t);
    Split(h, x, t);
    var u := if k.left == n then t.l else t.r;
    assert u.T? && u.n == n && Fits(h, u, t.n);
  }

  lemma {:induction false} CtxTrailInside(x: Ctx)
    ensures CtxTrail(x) <= CtxNodes(x)
  {
    if x.Top? {
    } else {
      CtxTrailInside(x.up);
    }
  }

  /** Everything below the cursor is right, and everything off the way up is right. */
  ghost predicate RightBelow<V>(aug: Augment<V>, x: Ctx, t: Tree, except: set<Node>)
    reads aug, Nodes(t), CtxNodes(x)
  {
    && (forall k :: k in Nodes(t) && k !in except ==> aug.Right(k))
    && (forall k :: k in CtxNodes(x) && k !in CtxTrail(x) ==> aug.Right(k))
  }

  /** Moving the cursor up after the sibling was recomputed too. */
  lemma StepUp<V>(aug: Augment<V>, x: Ctx, t: Tree)
    requires x.In? && CtxDistinct(x) && RightBelow(aug, x, t, {}) && (x.sib.T? ==> aug.Right(x.sib.n))
    ensures RightBelow(aug, x.up, Above(x, t), {x.n})
  {
    CtxTrailInside(x.up);
    MkNodes(x.d, t, x.n, x.c, x.sib);
  }

  lemma StartBelowTrail<V>(root: Root, aug: Augment<V>, x: Ctx, t: Tree)
    requires root.Holds() && root.tree == Plug(x, t) && t.T?
    requires forall k :: k in root.nodes && k !in Trail(root.tree, t.n) ==> aug.Right(k)
    ensures RightBelow(aug, x, t, {t.n})
  {
    Split(Snap(root.nodes), x, t);
    NodesAre(root);
    TrailPlug(x, t, t.n);
    CtxTrailInside(x);
  }

  lemma FocusNodes(root: Root, x: Ctx, t: Tree)
    requires root.Holds() && root.tree == Plug(x, t) && t.T?
    ensures root.nodes == CtxNodes(x) + Nodes(t) && CtxDistinct(x) && Nodes(t) !! CtxNodes(x)
    ensures t.n.parent == HoleParent(x) && HoleParent(x) !in Nodes(t)
    ensures x.In? ==>
      x.n.left == (if x.d == L then t.n else RootOf(x.sib)) && x.n.right == (if x.d == L then RootOf(x.sib) else t.n)
    ensures x.In? && x.sib.T? ==> x.sib.n.parent == x.n && x.sib.n != t.n
  {
    Around(Snap(root.nodes), x, t);
    Split(Snap(root.nodes), x, t);
    NodesAre(root);
  }

  /** One node of the path: recompute it and then its sibling. */
  method AugmentStep<V>(node: Node, root: Root, aug: Augment<V>, ghost x: Ctx, ghost t: Tree) returns (parent: Node?)
    requires root.Holds() && root.tree == Plug(x, t) && t.T? && t.n == node && RightBelow(aug, x, t, {node})
    modifies aug
    ensures parent == HoleParent(x)
    ensures x.Top? ==> aug.AllRight(root.nodes)
    ensures x.In? ==> RightBelow(aug, x.up, Above(x, t), {x.n})
  {
    FocusNodes(root, x, t);
    aug.Fix(node, root);
    parent := node.parent;
    if parent == null {
      return;
    }
    assert RightBelow(aug, x, t, {});
    if node == parent.left && parent.right != null {
      aug.Fix(parent.right, root);
    } else if parent.left != null {
      aug.Fix(parent.left, root);
    }
    StepUp(aug, x, t);
  }

  /** rb_augment_path: recomputing the trail of a node repairs everything. */
  method AugmentPath<V>(node0: Node, root: Root, aug: Augment<V>)
    requires root.Holds() && node0 in root.nodes
    requires forall k :: k in root.nodes && k !in Trail(root.tree, node0) ==> aug.Right(k)
    modifies aug
    ensures aug.AllRight(root.nodes)
  {
    hide Spells, Trail, RightBelow, Plug;
    NodesAre(root);
    ghost var x, t := Locate(root.tree, Top, node0);
    StartSearch(root.tree, map[], 0);
    StartBelowTrail(root, aug, x, t);
    var node := node0;
    while true
      invariant root.tree == Plug(x, t) && t.T? && t.n == node && RightBelow(aug, x, t, {node})
      decreases x
    {
      var parent := AugmentStep(node, root, aug, x, t);
      if parent == null {
        return;
      }
      node := parent;
      PlugDown(x, t);
      x, t := x.up, Above(x, t);
    }
  }

  /** rb_augment_insert. */
  method AugmentInsert<V>(node0: Node, root: Root, aug: Augment<V>)
    requires root.Holds() && node0 in root.nodes
    requires forall k :: k in root.nodes && k !in Trail(root.tree, StartOf(node0)) ==> aug.Right(k)
    modifies aug
    ensures aug.AllRight(root.nodes)
  {
    hide Spells, Trail;
    StartIsNode(root, node0);
    var node := node0;
    if node.left != null {
      node := node.left;
    } else if node.right != null {
      node := node.right;
    }
    AugmentPath(node, root, aug);
  }

  lemma StartIsNode(root: Root, z: Node)
    requires root.Holds() && z in root.nodes
    ensures StartOf(z) in root.nodes
  {
    NodesAre(root);
    StartInside(Snap(root.nodes), root.tree, null, z);
  }

  /** Inserting an entry and running rb_augment_insert leaves every value right. */
  method InsertAugmented<V>(entry: Node, root: Root, aug: Augment<V>) returns (ret: int)
    requires Indexed(root) && entry.parent == entry && aug.AllRight(root.nodes)
    modifies root, root.nodes`left, root.nodes`right, root.nodes`parent, root.nodes`color
    modifies entry`left, entry`right, entry`parent, entry`color, aug
    ensures Indexed(root) && aug.AllRight(root.nodes)
    ensures ret == if old(HasAddress(root.nodes, entry.address)) then -1 else 0
    ensures root.nodes == old(root.nodes) + if ret == 0 then {entry} else {}
  {
    hide Spells, Valid, Sorted, Trail;
    ghost var h0 := Snap(root.nodes);
    ghost var rotations;
    ret, rotations := InsertInternal(entry, root);
    if ret == 0 {
      NewOnTrail(root, entry);
      AugmentInsert(entry, root, aug);
    }
  }

  lemma NewOnTrail(root: Root, z: Node)
    requires root.Holds() && z in root.nodes
    ensures z in Trail(root.tree, StartOf(z))
  {
    StartIsNode(root, z);
    if StartOf(z) != z {
      ParentOnTrail(root, z, StartOf(z));
    } else {
      NodesAre(root);
      var x, t := Locate(root.tree, Top, z);
      Split(Snap(root.nodes), x, t);
      TrailPlug(x, t, z);
    }
  }

  lemma ParentOnTrail(root: Root, p: Node, z: Node)
    requires root.Holds() && p in root.nodes && (p.left == z || p.right == z)
    ensures p in Trail(root.tree, z)
  {
    var h := Snap(root.nodes);
    NodesAre(root);
    var x, t := Locate(root.tree, Top, p);
    Around(h, x, t);
    Split(h, x, t);
    var u := if p.left == z then t.l else t.r;
    assert u.T? && u.n == z;
    TrailPlug(x, t, z);
    TrailRoot(t, z);
  }

  /** rb_augment_erase_begin. */
  method AugmentEraseBegin(node: Node, root: Root, ghost x: Ctx, ghost t: Tree) returns (deepest: Node?)
    requires root.Holds() && root.tree == Plug(x, t) && t.T? && t.n == node
    ensures deepest == DeepestAt(t, HoleParent(x))
  {
    hide Spells, Plug, InOrder, MinOf, GapCtx;
    VictimFields(root, x, t);
    if node.right == null && node.left == null {
      deepest := node.parent;
    } else if node.right == null {
      deepest := node.left;
    } else if node.left == null {
      deepest := node.right;
    } else {
      PlacedHolds(root, x, t);
      DeepestIsGap(x, t);
      deepest := NextOf(node, root, x, t);
      if deepest.right != null {
        deepest := deepest.right;
      } else if deepest.parent != node {
        deepest := deepest.parent;
      }
    }
  }

  method NextOf(node: Node, root: Root, ghost x: Ctx, ghost t: Tree) returns (n: Node)
    requires root.Holds() && root.tree == Plug(x, t) && t.T? && t.n == node && t.r.T?
    ensures n == MinOf(t.r).n
  {
    hide Plug, Distinct;
    NodesAre(root);
    VictimFields(root, x, t);
    ghost var i := NodesInOrder(root.tree, node);
    LinkedNotEmpty(root, node);
    NextIs(x, t, i);
    n := Next(node, root, i);
  }

  lemma {:induction false} MinParentInside(t: Tree)
    requires t.T?
    ensures Nodes(MinOf(t)) <= Nodes(t) && (t.l.T? ==> MinParent(t) in Nodes(t))
  {
    if t.l.Leaf? {
    } else {
      MinParentInside(t.l);
    }
  }

  lemma DeepestSurvives(root: Root, x: Ctx, t: Tree)
    requires root.Holds() && root.tree == Plug(x, t) && t.T?
    ensures var z := DeepestAt(t, HoleParent(x)); z != null ==> z in root.nodes && z != t.n
  {
    Split(Snap(root.nodes), x, t);
    NodesAre(root);
    PlugNodes(x, t);
    if t.r.T? {
      MinParentInside(t.r);
    }
  }

  /** Erasing a node between rb_augment_erase_begin and _end leaves every value right. */
  method EraseAugmented<V>(node: Node, root: Root, aug: Augment<V>)
    requires root.Holds() && Valid(root.tree) && node in root.nodes && aug.AllRight(root.nodes)
    modifies root, root.nodes`left, root.nodes`right, root.nodes`parent, root.nodes`color, aug
    ensures root.Holds() && Valid(root.tree) && aug.AllRight(root.nodes)
    ensures root.nodes == old(root.nodes) - {node}
  {
    hide Spells, Valid, Plug, InOrder, Without, Trail, DeepestAt;
    NodesAre(root);
    ghost var x, t := Locate(root.tree, Top, node);
    StartSearch(root.tree, map[], 0);
    DeepestSurvives(root, x, t);
    var deepest := AugmentEraseBegin(node, root, x, t);
    ghost var rotations := Erase(node, root, x, t);
    // rb_augment_erase_end
    if deepest != null {
      AugmentPath(deepest, root, aug);
    }
  }
}
