/** The value-level picture of an intrusive red-black tree.

    A `Tree` records which node sits where and with which colour; `Fits` says that a
    snapshot of the pointer fields spells it out.  A `Ctx` is a tree with one hole, read
    from the hole upwards, which is how both fix-up loops walk. */
module RbSpec {
  datatype Color = Red | Black

  /** struct rb_node together with the key of the bp_entry that embeds it. */
  class Node {
    var parent: Node?
    var color: Color
    var right: Node?
    var left: Node?
    var address: nat

    constructor (address: nat)
      ensures this.address == address && parent == null && color == Red && left == null && right == null
    {
      this.address := address;
      parent, color, right, left := null, Red, null, null;
    }
  }

  datatype Side = L | R {
    function Other(): Side {
      if L? then R else L
    }
  }

  /** What the pointer and colour fields of one node hold. */
  datatype Rec = Rec(left: Node?, right: Node?, parent: Node?, color: Color) {
    function Child(d: Side): Node? {
      if d.L? then left else right
    }
  }

  type Fields = map<Node, Rec>

  ghost function Snap(s: set<Node>): Fields
    reads s
  {
    map n | n in s :: Rec(n.left, n.right, n.parent, n.color)
  }

  datatype Tree = Leaf | T(l: Tree, n: Node, c: Color, r: Tree)

  /** Node `n` with `near` on side `d` and `far` on the other. */
  function Mk(d: Side, near: Tree, n: Node, c: Color, far: Tree): Tree {
    if d.L? then T(near, n, c, far) else T(far, n, c, near)
  }

  function Kid(t: Tree, d: Side): Tree
    requires t.T?
  {
    if d.L? then t.l else t.r
  }

  function RootOf(t: Tree): Node? {
    if t.Leaf? then null else t.n
  }

  function ColorOf(t: Tree): Color {
    if t.Leaf? then Black else t.c
  }

  function Nodes(t: Tree): set<Node> {
    if t.Leaf? then {} else Nodes(t.l) + {t.n} + Nodes(t.r)
  }

  function InOrder(t: Tree): seq<Node> {
    if t.Leaf? then [] else InOrder(t.l) + [t.n] + InOrder(t.r)
  }

  predicate Distinct(t: Tree) {
    t.T? ==> t.n !in Nodes(t.l) && t.n !in Nodes(t.r) && Nodes(t.l) !! Nodes(t.r) && Distinct(t.l) && Distinct(t.r)
  }

  // ---- fields ----

  /** The fields `h` spell out `t` hanging below `p`. */
  predicate Fits(h: Fields, t: Tree, p: Node?) {
    t.T? ==>
      && t.n in h && h[t.n] == Rec(RootOf(t.l), RootOf(t.r), p, t.c)
      && Fits(h, t.l, t.n) && Fits(h, t.r, t.n)
  }

  /** `h'` differs from `h` at most at the nodes `w`. */
  predicate SameOff(h: Fields, h': Fields, w: set<Node>) {
    forall k :: k in h && k !in w ==> k in h' && h'[k] == h[k]
  }

  lemma {:induction false} FitsFrame(h: Fields, h': Fields, w: set<Node>, t: Tree, p: Node?)
    requires Fits(h, t, p) && SameOff(h, h', w) && Nodes(t) !! w
    ensures Fits(h', t, p)
  {
    if t.Leaf? {
    } else {
      FitsFrame(h, h', w, t.l, t.n);
      FitsFrame(h, h', w, t.r, t.n);
    }
  }

  lemma FitsMk(h: Fields, d: Side, near: Tree, n: Node, c: Color, far: Tree, p: Node?)
    ensures Fits(h, Mk(d, near, n, c, far), p) <==>
            && n in h && h[n].Child(d) == RootOf(near) && h[n].Child(d.Other()) == RootOf(far)
            && h[n].parent == p && h[n].color == c && Fits(h, near, n) && Fits(h, far, n)
  {
  }

  lemma MkNodes(d: Side, near: Tree, n: Node, c: Color, far: Tree)
    ensures Nodes(Mk(d, near, n, c, far)) == Nodes(near) + {n} + Nodes(far)
    ensures Distinct(Mk(d, near, n, c, far)) <==>
            n !in Nodes(near) && n !in Nodes(far) && Nodes(near) !! Nodes(far) && Distinct(near) && Distinct(far)
  {
  }

  /** Giving a subtree another parent takes one write. */
  lemma FitsReparent(h: Fields, h': Fields, w: set<Node>, t: Tree, p: Node?, q: Node?)
    requires Fits(h, t, p) && Distinct(t) && SameOff(h, h', w)
    requires t.T? ==> Nodes(t) !! w - {t.n} && t.n in h' && h'[t.n] == h[t.n].(parent := q)
    ensures Fits(h', t, q)
  {
    if t.T? {
      FitsFrame(h, h', w, t.l, t.n);
      FitsFrame(h, h', w, t.r, t.n);
    }
  }

  // ---- contexts ----

  /** A tree with a hole on side `d` of node `n`, seen from the hole. */
  datatype Ctx = Top | In(d: Side, n: Node, c: Color, sib: Tree, up: Ctx)

  function Plug(x: Ctx, t: Tree): Tree
    decreases x
  {
    if x.Top? then t else Plug(x.up, Mk(x.d, t, x.n, x.c, x.sib))
  }

  function Depth(x: Ctx): nat {
    if x.Top? then 0 else 1 + Depth(x.up)
  }

  function HoleParent(x: Ctx): Node? {
    if x.Top? then null else x.n
  }

  /** The root of the whole tree, for a hole that is not the root. */
  function CtxRoot(x: Ctx): Node? {
    if x.Top? then null else if x.up.Top? then x.n else CtxRoot(x.up)
  }

  lemma {:induction false} PlugRoot(x: Ctx, t: Tree)
    ensures RootOf(Plug(x, t)) == if x.Top? then RootOf(t) else CtxRoot(x)
    decreases x
  {
    if x.Top? {
    } else {
      PlugRoot(x.up, Mk(x.d, t, x.n, x.c, x.sib));
    }
  }

  function CtxNodes(x: Ctx): set<Node> {
    if x.Top? then {} else CtxNodes(x.up) + {x.n} + Nodes(x.sib)
  }

  predicate CtxDistinct(x: Ctx) {
    x.In? ==>
      && x.n !in Nodes(x.sib) && x.n !in CtxNodes(x.up) && Nodes(x.sib) !! CtxNodes(x.up)
      && Distinct(x.sib) && CtxDistinct(x.up)
  }

  /** The fields `h` spell out everything around a hole filled by a subtree rooted at `hole`. */
  predicate CtxFits(h: Fields, x: Ctx, hole: Node?) {
    x.In? ==>
      && x.n in h && h[x.n].Child(x.d) == hole && h[x.n].Child(x.d.Other()) == RootOf(x.sib)
      && h[x.n].parent == HoleParent(x.up) && h[x.n].color == x.c
      && Fits(h, x.sib, x.n) && CtxFits(h, x.up, x.n)
  }

  lemma {:induction false} CtxFitsFrame(h: Fields, h': Fields, w: set<Node>, x: Ctx, hole: Node?)
    requires CtxFits(h, x, hole) && SameOff(h, h', w) && CtxNodes(x) !! w
    ensures CtxFits(h', x, hole)
  {
    if x.Top? {
    } else {
      FitsFrame(h, h', w, x.sib, x.n);
      CtxFitsFrame(h, h', w, x.up, x.n);
    }
  }

  /** Filling a hole with another subtree takes one write. */
  lemma CtxRefill(h: Fields, h': Fields, w: set<Node>, x: Ctx, u: Node?, v: Node?)
    requires CtxFits(h, x, u) && CtxDistinct(x) && SameOff(h, h', w)
    requires x.In? ==> CtxNodes(x) !! w - {x.n} && x.n in h'
    requires x.In? ==> h'[x.n].Child(x.d) == v && h'[x.n].Child(x.d.Other()) == h[x.n].Child(x.d.Other())
    requires x.In? ==> h'[x.n].parent == h[x.n].parent && h'[x.n].color == h[x.n].color
    ensures CtxFits(h', x, v)
  {
    if x.In? {
      FitsFrame(h, h', w, x.sib, x.n);
      CtxFitsFrame(h, h', w, x.up, x.n);
    }
  }

  lemma {:induction false} PlugFits(h: Fields, x: Ctx, t: Tree)
    ensures Fits(h, Plug(x, t), null) <==> CtxFits(h, x, RootOf(t)) && Fits(h, t, HoleParent(x))
    decreases x
  {
    if x.Top? {
    } else {
      PlugFits(h, x.up, Mk(x.d, t, x.n, x.c, x.sib));
      FitsMk(h, x.d, t, x.n, x.c, x.sib, HoleParent(x.up));
    }
  }

  lemma {:induction false} PlugNodes(x: Ctx, t: Tree)
    ensures Nodes(Plug(x, t)) == CtxNodes(x) + Nodes(t)
    ensures Distinct(Plug(x, t)) <==> Distinct(t) && CtxDistinct(x) && Nodes(t) !! CtxNodes(x)
    decreases x
  {
    if x.Top? {
    } else {
      PlugNodes(x.up, Mk(x.d, t, x.n, x.c, x.sib));
      MkNodes(x.d, t, x.n, x.c, x.sib);
    }
  }

  /** The fields `h` of exactly the nodes of `t` spell out `t`. */
  predicate Spells(h: Fields, t: Tree) {
    h.Keys == Nodes(t) && Distinct(t) && Fits(h, t, null)
  }

  lemma Split(h: Fields, x: Ctx, t: Tree)
    ensures Spells(h, Plug(x, t)) <==>
            && Distinct(t) && CtxDistinct(x) && Nodes(t) !! CtxNodes(x) && h.Keys == CtxNodes(x) + Nodes(t)
            && Fits(h, t, HoleParent(x)) && CtxFits(h, x, RootOf(t))
  {
    PlugNodes(x, t);
    PlugFits(h, x, t);
  }

  // ---- in-order position ----

  function Before(x: Ctx): seq<Node> {
    if x.Top? then [] else if x.d.L? then Before(x.up) else Before(x.up) + InOrder(x.sib) + [x.n]
  }

  function After(x: Ctx): seq<Node> {
    if x.Top? then [] else if x.d.L? then [x.n] + InOrder(x.sib) + After(x.up) else After(x.up)
  }

  lemma {:induction false} PlugInOrder(x: Ctx, t: Tree)
    ensures InOrder(Plug(x, t)) == Before(x) + InOrder(t) + After(x)
    decreases x
  {
    if x.Top? {
    } else {
      PlugInOrder(x.up, Mk(x.d, t, x.n, x.c, x.sib));
    }
  }

  // ---- colours ----

  function Weight(c: Color): nat {
    if c.Black? then 1 else 0
  }

  function BlackHeight(t: Tree): nat {
    if t.Leaf? then 0 else BlackHeight(t.l) + Weight(t.c)
  }

  /** Equal black heights everywhere and no red node with a red child. */
  predicate RedBlack(t: Tree) {
    t.T? ==>
      && RedBlack(t.l) && RedBlack(t.r) && BlackHeight(t.l) == BlackHeight(t.r)
      && (t.c.Red? ==> ColorOf(t.l).Black? && ColorOf(t.r).Black?)
  }

  lemma MkRedBlack(d: Side, near: Tree, n: Node, c: Color, far: Tree)
    ensures RedBlack(Mk(d, near, n, c, far)) <==>
            && RedBlack(near) && RedBlack(far) && BlackHeight(near) == BlackHeight(far)
            && (c.Red? ==> ColorOf(near).Black? && ColorOf(far).Black?)
    ensures BlackHeight(near) == BlackHeight(far) ==>
      BlackHeight(Mk(d, near, n, c, far)) == BlackHeight(near) + Weight(c)
  {
  }

  /** A context that yields a red-black tree with a black root when its hole is filled by a
      red-black tree of black height `h` (with a black root if `NeedsBlack`). */
  predicate CtxRedBlack(x: Ctx, h: nat) {
    x.In? ==>
      && RedBlack(x.sib) && BlackHeight(x.sib) == h && CtxRedBlack(x.up, h + Weight(x.c))
      && (x.c.Red? ==> ColorOf(x.sib).Black? && x.up.In? && x.up.c.Black?)
  }

  /** The hole hangs off a red node or is the root, so what fills it must have a black root. */
  predicate NeedsBlack(x: Ctx) {
    x.Top? || x.c.Red?
  }

  /** The full colour invariant: a red-black tree with a black root. */
  predicate Valid(t: Tree) {
    RedBlack(t) && ColorOf(t).Black?
  }

  lemma {:induction false} PlugValid(x: Ctx, t: Tree)
    ensures Valid(Plug(x, t)) <==>
            CtxRedBlack(x, BlackHeight(t)) && RedBlack(t) && (NeedsBlack(x) ==> ColorOf(t).Black?)
    decreases x
  {
    if x.Top? {
    } else {
      PlugValid(x.up, Mk(x.d, t, x.n, x.c, x.sib));
    }
  }
}
