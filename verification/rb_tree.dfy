/** struct rb_root and the rebalancing code of rbtree.c, on the heap. */
module RbTree {
  import opened RbSpec

  class Root {
    var rb_node: Node?
    ghost var tree: Tree
    ghost var nodes: set<Node>

    /** The pointer fields of exactly the nodes of `tree` spell out `tree`. */
    ghost predicate Holds()
      reads this, nodes
    {
      rb_node == RootOf(tree) && Spells(Snap(nodes), tree)
    }
  }

  // ---- rotations ----

  /** The subtree before and after rotating its root `n` towards side `d`. */
  function Slant(d: Side, a: Tree, n: Node, cn: Color, b: Tree, y: Node, cy: Color, c: Tree): Tree {
    Mk(d, a, n, cn, Mk(d, b, y, cy, c))
  }

  function Turned(d: Side, a: Tree, n: Node, cn: Color, b: Tree, y: Node, cy: Color, c: Tree): Tree {
    Mk(d, Mk(d, a, n, cn, b), y, cy, c)
  }

  /** How a rotation of `n` towards `d` rewrites the fields: `y` is the child that rises, `b` the inner
      grandchild that changes sides, `p` the parent of `n`. */
  predicate Rotated(h: Fields, h': Fields, d: Side, n: Node, y: Node, b: Node?, p: Node?) {
    && h'.Keys == h.Keys
    && forall k :: k in h ==>
      && h'[k].Child(d) == (if k == y then n else if k == p && h[k].Child(d) == n then y else h[k].Child(d))
      && h'[k].Child(d.Other()) ==
            (if k == n then b else if k == p && h[k].Child(d.Other()) == n then y else h[k].Child(d.Other()))
      && h'[k].parent == (if k == n then y else if k == y then p else if k == b then n else h[k].parent)
      && h'[k].color == h[k].color
  }

  function Opt(n: Node?): set<Node> {
    if n == null then {} else {n}
  }

  lemma RotatedOff(h: Fields, h': Fields, d: Side, n: Node, y: Node, b: Node?, p: Node?)
    requires Rotated(h, h', d, n, y, b, p)
    ensures SameOff(h, h', {n, y} + Opt(b) + Opt(p))
  {
  }

  lemma TurnedNodes(d: Side, a: Tree, n: Node, cn: Color, b: Tree, y: Node, cy: Color, c: Tree)
    ensures Nodes(Slant(d, a, n, cn, b, y, cy, c)) == Nodes(a) + {n} + Nodes(b) + {y} + Nodes(c)
    ensures Nodes(Turned(d, a, n, cn, b, y, cy, c)) == Nodes(a) + {n} + Nodes(b) + {y} + Nodes(c)
    ensures Distinct(Slant(d, a, n, cn, b, y, cy, c)) ==> Distinct(Turned(d, a, n, cn, b, y, cy, c))
  {
    MkNodes(d, b, y, cy, c);
    MkNodes(d, a, n, cn, Mk(d, b, y, cy, c));
    MkNodes(d, a, n, cn, b);
    MkNodes(d, Mk(d, a, n, cn, b), y, cy, c);
  }

  lemma Regroup(a: seq<Node>, n: Node, b: seq<Node>, y: Node, c: seq<Node>)
    ensures a + [n] + (b + [y] + c) == (a + [n] + b) + [y] + c
  {
  }

  lemma TurnedInOrder(d: Side, a: Tree, n: Node, cn: Color, b: Tree, y: Node, cy: Color, c: Tree)
    ensures InOrder(Turned(d, a, n, cn, b, y, cy, c)) == InOrder(Slant(d, a, n, cn, b, y, cy, c))
  {
    if d.L? {
      Regroup(InOrder(a), n, InOrder(b), y, InOrder(c));
    } else {
      Regroup(InOrder(c), y, InOrder(b), n, InOrder(a));
    }
  }

  lemma TurnedPlugInOrder(d: Side, x: Ctx, a: Tree, n: Node, cn: Color, b: Tree, y: Node, cy: Color, c: Tree)
    ensures InOrder(Plug(x, Turned(d, a, n, cn, b, y, cy, c))) == InOrder(Plug(x, Slant(d, a, n, cn, b, y, cy, c)))
  {
    TurnedInOrder(d, a, n, cn, b, y, cy, c);
    PlugInOrder(x, Turned(d, a, n, cn, b, y, cy, c));
    PlugInOrder(x, Slant(d, a, n, cn, b, y, cy, c));
  }

  lemma TurnFits(h: Fields, h': Fields, d: Side, p: Node?, a: Tree, n: Node, cn: Color, b: Tree, y: Node, cy: Color,
                 c: Tree)
    requires var t := Slant(d, a, n, cn, b, y, cy, c); Distinct(t) && Fits(h, t, p) && Opt(p) !! Nodes(t)
    requires Rotated(h, h', d, n, y, RootOf(b), p)
    ensures Fits(h', Turned(d, a, n, cn, b, y, cy, c), p)
  {
    var w := {n, y} + Opt(RootOf(b)) + Opt(p);
    RotatedOff(h, h', d, n, y, RootOf(b), p);
    MkNodes(d, b, y, cy, c);
    MkNodes(d, a, n, cn, Mk(d, b, y, cy, c));
    FitsMk(h, d, b, y, cy, c, n);
    FitsMk(h, d, a, n, cn, Mk(d, b, y, cy, c), p);
    assert Fits(h', a, n) by { FitsFrame(h, h', w, a, n); }
    assert Fits(h', c, y) by { FitsFrame(h, h', w, c, y); }
    assert Fits(h', b, n) by { FitsReparent(h, h', w, b, y, n); }
    FitsMk(h', d, a, n, cn, b, y);
    FitsMk(h', d, Mk(d, a, n, cn, b), y, cy, c, p);
  }

  lemma TurnCtx(h: Fields, h': Fields, d: Side, x: Ctx, n: Node, y: Node, b: Node?)
    requires CtxDistinct(x) && CtxFits(h, x, n) && CtxNodes(x) !! {n, y} + Opt(b)
    requires x.In? ==> RootOf(x.sib) != n
    requires Rotated(h, h', d, n, y, b, HoleParent(x))
    ensures CtxFits(h', x, y)
  {
    RotatedOff(h, h', d, n, y, b, HoleParent(x));
    CtxRefill(h, h', {n, y} + Opt(b) + Opt(HoleParent(x)), x, n, y);
  }

  lemma TurnSpells(h: Fields, h': Fields, d: Side, x: Ctx, a: Tree, n: Node, cn: Color, b: Tree, y: Node, cy: Color,
                   c: Tree)
    requires Spells(h, Plug(x, Slant(d, a, n, cn, b, y, cy, c)))
    requires Rotated(h, h', d, n, y, RootOf(b), HoleParent(x))
    ensures Spells(h', Plug(x, Turned(d, a, n, cn, b, y, cy, c)))
  {
    var t, t' := Slant(d, a, n, cn, b, y, cy, c), Turned(d, a, n, cn, b, y, cy, c);
    assert RootOf(t) == n && RootOf(t') == y;
    Split(h, x, t);
    TurnedNodes(d, a, n, cn, b, y, cy, c);
    assert Fits(h', t', HoleParent(x)) by { TurnFits(h, h', d, HoleParent(x), a, n, cn, b, y, cy, c); }
    assert CtxFits(h', x, y) by { TurnCtx(h, h', d, x, n, y, RootOf(b)); }
    Split(h', x, t');
  }

  method RotateLeftFields(node: Node, root: Root)
    requires node in root.nodes && node.right != null && node.right in root.nodes && node.right != node
    requires node.right.left == null || node.right.left in root.nodes
    requires node.right.left != node && node.right.left != node.right
    requires node.parent == null || node.parent in root.nodes
    requires node.parent != node && node.parent != node.right
    requires node.parent == node.right.left ==> node.parent == null
    modifies root`rb_node, root.nodes`left, root.nodes`right, root.nodes`parent
    ensures root.rb_node == if old(node.parent) == null then old(node.right) else old(root.rb_node)
    ensures forall k :: k in root.nodes ==>
      && k.left == (if k == old(node.right) then node
                  else if k == old(node.parent) && old(k.left) == node then old(node.right) else old(k.left))
      && k.right == (if k == node then old(node.right.left)
                  else if k == old(node.parent) && old(k.left) != node then old(node.right) else old(k.right))
      && k.parent == (if k == node then old(node.right) else if k == old(node.right) then old(node.parent)
                      else if k == old(node.right.left) then node else old(k.parent))
  {
    var right := node.right;
    var parent := node.parent;

    node.right := right.left;
    if right.left != null {
      right.left.parent := node;
    }
    right.left := node;

    right.parent := parent;

    if parent != null {
      if node == parent.left {
        parent.left := right;
      } else {
        parent.right := right;
      }
    } else {
      root.rb_node := right;
    }
    node.parent := right;
  }

  lemma SlantFields(h: Fields, d: Side, x: Ctx, a: Tree, n: Node, cn: Color, b: Tree, y: Node, cy: Color, c: Tree)
    requires Spells(h, Plug(x, Slant(d, a, n, cn, b, y, cy, c)))
    ensures n in h && h[n].Child(d.Other()) == y && h[n].parent == HoleParent(x)
    ensures y in h && h[y].Child(d) == RootOf(b) && n != y
    ensures b.T? ==> b.n in h && b.n != n && b.n != y
    ensures x.In? ==> x.n in h && x.n !in {n, y} && x.n != RootOf(b)
    ensures x.In? ==> h[x.n].Child(x.d) == n && h[x.n].Child(x.d.Other()) != n
  {
    var t := Slant(d, a, n, cn, b, y, cy, c);
    Split(h, x, t);
    TurnedNodes(d, a, n, cn, b, y, cy, c);
    MkNodes(d, a, n, cn, Mk(d, b, y, cy, c));
    MkNodes(d, b, y, cy, c);
    FitsMk(h, d, a, n, cn, Mk(d, b, y, cy, c), HoleParent(x));
    FitsMk(h, d, b, y, cy, c, n);
  }

  method RotateRightFields(node: Node, root: Root)
    requires node in root.nodes && node.left != null && node.left in root.nodes && node.left != node
    requires node.left.right == null || node.left.right in root.nodes
    requires node.left.right != node && node.left.right != node.left
    requires node.parent == null || node.parent in root.nodes
    requires node.parent != node && node.parent != node.left
    requires node.parent == node.left.right ==> node.parent == null
    modifies root`rb_node, root.nodes`right, root.nodes`left, root.nodes`parent
    ensures root.rb_node == if old(node.parent) == null then old(node.left) else old(root.rb_node)
    ensures forall k :: k in root.nodes ==>
      && k.right == (if k == old(node.left) then node
                  else if k == old(node.parent) && old(k.right) == node then old(node.left) else old(k.right))
      && k.left == (if k == node then old(node.left.right)
                  else if k == old(node.parent) && old(k.right) != node then old(node.left) else old(k.left))
      && k.parent == (if k == node then old(node.left) else if k == old(node.left) then old(node.parent)
                      else if k == old(node.left.right) then node else old(k.parent))
  {
    var left := node.left;
    var parent := node.parent;

    node.left := left.right;
    if left.right != null {
      left.right.parent := node;
    }
    left.right := node;

    left.parent := parent;

    if parent != null {
      if node == parent.right {
        parent.right := left;
      } else {
        parent.left := left;
      }
    } else {
      root.rb_node := left;
    }
    node.parent := left;
  }

  /** The same, in terms of the snapshots. */
  method RotateLeftSnap(node: Node, root: Root)
    requires node in root.nodes && node.right != null && node.right in root.nodes && node.right != node
    requires node.right.left == null || node.right.left in root.nodes
    requires node.right.left != node && node.right.left != node.right
    requires node.parent == null || node.parent in root.nodes
    requires node.parent != node && node.parent != node.right
    requires node.parent != null ==>
      node.parent != node.right.left && (node.parent.left == node <==> node.parent.right != node)
    modifies root`rb_node, root.nodes`left, root.nodes`right, root.nodes`parent
    ensures root.rb_node == if old(node.parent) == null then old(node.right) else old(root.rb_node)
    ensures Rotated(old(Snap(root.nodes)), Snap(root.nodes), L, node, old(node.right), old(node.right.left),
      old(node.parent))
    ensures forall k :: k in root.nodes && k != node && k != old(node.right) && k != old(node.parent) ==>
      k.left == old(k.left) && k.right == old(k.right)
  {
    RotateLeftFields(node, root);
  }

  method RotateLeft(node: Node, root: Root, ghost x: Ctx,
                    ghost a: Tree, ghost cn: Color, ghost b: Tree, ghost y: Node, ghost cy: Color, ghost c: Tree)
    requires root.Holds() && root.tree == Plug(x, Slant(L, a, node, cn, b, y, cy, c))
    modifies root`rb_node, root`tree, root.nodes`left, root.nodes`right, root.nodes`parent
    ensures root.Holds() && root.tree == Plug(x, Turned(L, a, node, cn, b, y, cy, c))
    ensures InOrder(root.tree) == InOrder(old(root.tree))
    ensures forall k :: k in root.nodes && k != node && k != y && k != HoleParent(x) ==>
      k.left == old(k.left) && k.right == old(k.right)
  {
    ghost var h := Snap(root.nodes);
    SlantFields(h, L, x, a, node, cn, b, y, cy, c);
    PlugRoot(x, Slant(L, a, node, cn, b, y, cy, c));
    PlugRoot(x, Turned(L, a, node, cn, b, y, cy, c));
    TurnedPlugInOrder(L, x, a, node, cn, b, y, cy, c);
    hide Plug, Spells, InOrder, Rotated;
    RotateLeftSnap(node, root);
    root.tree := Plug(x, Turned(L, a, node, cn, b, y, cy, c));
    TurnSpells(h, Snap(root.nodes), L, x, a, node, cn, b, y, cy, c);
  }

  /** The same, in terms of the snapshots. */
  method RotateRightSnap(node: Node, root: Root)
    requires node in root.nodes && node.left != null && node.left in root.nodes && node.left != node
    requires node.left.right == null || node.left.right in root.nodes
    requires node.left.right != node && node.left.right != node.left
    requires node.parent == null || node.parent in root.nodes
    requires node.parent != node && node.parent != node.left
    requires node.parent != null ==>
      node.parent != node.left.right && (node.parent.left == node <==> node.parent.right != node)
    modifies root`rb_node, root.nodes`left, root.nodes`right, root.nodes`parent
    ensures root.rb_node == if old(node.parent) == null then old(node.left) else old(root.rb_node)
    ensures Rotated(old(Snap(root.nodes)), Snap(root.nodes), R, node, old(node.left), old(node.left.right),
      old(node.parent))
    ensures forall k :: k in root.nodes && k != node && k != old(node.left) && k != old(node.parent) ==>
      k.left == old(k.left) && k.right == old(k.right)
  {
    RotateRightFields(node, root);
  }

  method RotateRight(node: Node, root: Root, ghost x: Ctx,
                    ghost a: Tree, ghost cn: Color, ghost b: Tree, ghost y: Node, ghost cy: Color, ghost c: Tree)
    requires root.Holds() && root.tree == Plug(x, Slant(R, a, node, cn, b, y, cy, c))
    modifies root`rb_node, root`tree, root.nodes`left, root.nodes`right, root.nodes`parent
    ensures root.Holds() && root.tree == Plug(x, Turned(R, a, node, cn, b, y, cy, c))
    ensures InOrder(root.tree) == InOrder(old(root.tree))
    ensures forall k :: k in root.nodes && k != node && k != y && k != HoleParent(x) ==>
      k.left == old(k.left) && k.right == old(k.right)
  {
    ghost var h := Snap(root.nodes);
    SlantFields(h, R, x, a, node, cn, b, y, cy, c);
    PlugRoot(x, Slant(R, a, node, cn, b, y, cy, c));
    PlugRoot(x, Turned(R, a, node, cn, b, y, cy, c));
    TurnedPlugInOrder(R, x, a, node, cn, b, y, cy, c);
    hide Plug, Spells, InOrder, Rotated;
    RotateRightSnap(node, root);
    root.tree := Plug(x, Turned(R, a, node, cn, b, y, cy, c));
    TurnSpells(h, Snap(root.nodes), R, x, a, node, cn, b, y, cy, c);
  }

  // ---- colours ----

  lemma PaintSpells(h: Fields, h': Fields, x: Ctx, l: Tree, n: Node, c: Color, r: Tree, c': Color)
    requires Spells(h, Plug(x, T(l, n, c, r)))
    requires h'.Keys == h.Keys && n in h && SameOff(h, h', {n}) && h'[n] == h[n].(color := c')
    ensures Spells(h', Plug(x, T(l, n, c', r)))
  {
    Split(h, x, T(l, n, c, r));
    FitsFrame(h, h', {n}, l, n);
    FitsFrame(h, h', {n}, r, n);
    CtxFitsFrame(h, h', {n}, x, n);
    Split(h', x, T(l, n, c', r));
  }

  method SetColor(rb: Node, color: Color, root: Root, ghost x: Ctx, ghost t: Tree)
    requires root.Holds() && t.T? && t.n == rb && root.tree == Plug(x, t)
    modifies root`tree, root.nodes`color
    ensures root.Holds() && root.tree == Plug(x, t.(c := color))
    ensures InOrder(root.tree) == InOrder(old(root.tree))
  {
    ghost var h := Snap(root.nodes);
    Split(h, x, t);
    PlugRoot(x, t);
    PlugRoot(x, t.(c := color));
    PlugInOrder(x, t);
    PlugInOrder(x, t.(c := color));
    rb.color := color;
    root.tree := Plug(x, t.(c := color));
    PaintSpells(h, Snap(root.nodes), x, t.l, rb, t.c, t.r, color);
  }
}
