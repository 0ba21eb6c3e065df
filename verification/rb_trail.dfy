/** The nodes that an augmented tree must recompute: those on the way from a node to the
    root, and their siblings. */
module RbTrail {
  import opened RbSpec
  import opened RbTree

  /** The path from `z` to the root of `t`, with the sibling of each node on it. */
  function Trail(t: Tree, z: Node): set<Node> {
    if t.Leaf? then {}
    else if t.n == z then {z}
    else if z in Nodes(t.l) then Trail(t.l, z) + {t.n} + Opt(RootOf(t.r))
    else Trail(t.r, z) + {t.n} + Opt(RootOf(t.l))
  }

  function CtxTrail(x: Ctx): set<Node> {
    if x.Top? then {} else {x.n} + Opt(RootOf(x.sib)) + CtxTrail(x.up)
  }

  lemma TrailMk(d: Side, near: Tree, n: Node, c: Color, far: Tree, z: Node)
    requires Distinct(Mk(d, near, n, c, far)) && z in Nodes(near)
    ensures Trail(Mk(d, near, n, c, far), z) == Trail(near, z) + {n} + Opt(RootOf(far))
  {
    MkNodes(d, near, n, c, far);
  }

  lemma {:induction false} TrailPlug(x: Ctx, t: Tree, z: Node)
    requires Distinct(Plug(x, t)) && z in Nodes(t)
    ensures Trail(Plug(x, t), z) == Trail(t, z) + CtxTrail(x)
    decreases x
  {
    if x.Top? {
    } else {
      PlugNodes(x.up, Mk(x.d, t, x.n, x.c, x.sib));
      MkNodes(x.d, t, x.n, x.c, x.sib);
      TrailPlug(x.up, Mk(x.d, t, x.n, x.c, x.sib), z);
      TrailMk(x.d, t, x.n, x.c, x.sib, z);
    }
  }

  /** Children stay inside the subtree. */
  lemma {:induction false} KidsInside(h: Fields, t: Tree, p: Node?, z: Node)
    requires Fits(h, t, p) && z in Nodes(t)
    ensures z in h && Opt(h[z].left) <= Nodes(t) && Opt(h[z].right) <= Nodes(t)
  {
    if t.n != z {
      if z in Nodes(t.l) { KidsInside(h, t.l, t.n, z); } else { KidsInside(h, t.r, t.n, z); }
    }
  }

  /** Where rb_augment_insert starts: a child of the new node if it has one. */
  function StartIn(h: Fields, z: Node): Node
    requires z in h
  {
    if h[z].left != null then h[z].left else if h[z].right != null then h[z].right else z
  }

  lemma StartInside(h: Fields, t: Tree, p: Node?, z: Node)
    requires Fits(h, t, p) && z in Nodes(t)
    ensures z in h && StartIn(h, z) in Nodes(t)
  {
    KidsInside(h, t, p, z);
  }

  /** Unless it is a lone root, the start lies strictly below the root. */
  lemma StartBelow(h: Fields, d: Side, near: Tree, n: Node, c: Color, far: Tree, p: Node?, z: Node)
    requires var t := Mk(d, near, n, c, far); Fits(h, t, p) && Distinct(t) && z in Nodes(t) && near.T?
    ensures z in h && StartIn(h, z) in Nodes(near) + Nodes(far)
  {
    MkNodes(d, near, n, c, far);
    FitsMk(h, d, near, n, c, far, p);
    if z in Nodes(near) {
      StartInside(h, near, n, z);
    } else if z in Nodes(far) {
      StartInside(h, far, n, z);
    }
  }

  ghost function StartOf(z: Node): Node
    reads z
  {
    if z.left != null then z.left else if z.right != null then z.right else z
  }

  lemma TrailPaint(t: Tree, c: Color, z: Node)
    requires t.T?
    ensures Trail(t.(c := c), z) == Trail(t, z)
  {
  }

  lemma TrailRoot(t: Tree, z: Node)
    requires z in Nodes(t)
    ensures t.n in Trail(t, z)
  {
  }
}
