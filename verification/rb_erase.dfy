/** rb_erase and rb_replace_node. */
module RbErase {
  import opened RbSpec
  import opened RbTree
  import opened RbTrail
  import opened RbInsert
  import opened RbEraseColor

  // ---- taking out a node with at most one child ----

  predicate OneKid(t: Tree, child: Tree) {
    t.T? && ((t.l.Leaf? && t.r == child) || (t.r.Leaf? && t.l == child))
  }

  /** How taking out `n` rewrites the fields: its parent `p` now points to `child`, and back. */
  predicate Spliced(h: Fields, h': Fields, n: Node, child: Node?, p: Node?) {
    && h'.Keys == h.Keys - {n}
    && forall k :: k in h' ==>
      && h'[k].left == (if k == p && h[k].left == n then child else h[k].left)
      && h'[k].right == (if k == p && h[k].left != n then child else h[k].right)
      && h'[k].parent == (if k == child then p else h[k].parent)
      && h'[k].color == h[k].color
  }

  lemma SpliceFits(h: Fields, h': Fields, x: Ctx, t: Tree, child: Tree)
    requires OneKid(t, child) && Distinct(t) && Fits(h, t, HoleParent(x)) && Opt(HoleParent(x)) !! Nodes(t)
    requires Nodes(t) <= h.Keys && Spliced(h, h', t.n, RootOf(child), HoleParent(x))
    ensures Fits(h', child, HoleParent(x))
  {
    FitsReparent(h, h', {t.n} + Opt(RootOf(child)) + Opt(HoleParent(x)), child, t.n, HoleParent(x));
  }

  lemma SpliceCtx(h: Fields, h': Fields, x: Ctx, n: Node, child: Node?)
    requires CtxDistinct(x) && CtxFits(h, x, n) && CtxNodes(x) !! {n} + Opt(child) && CtxNodes(x) <= h.Keys
    requires x.In? ==> RootOf(x.sib) != n
    requires Spliced(h, h', n, child, HoleParent(x))
    ensures CtxFits(h', x, child)
  {
    CtxRefill(h, h', {n} + Opt(child) + Opt(HoleParent(x)), x, n, child);
  }

  lemma SpliceSpells(h: Fields, h': Fields, x: Ctx, t: Tree, child: Tree)
    requires OneKid(t, child) && Spells(h, Plug(x, t)) && Spliced(h, h', t.n, RootOf(child), HoleParent(x))
    ensures Spells(h', Plug(x, child))
  {
    hide Plug, Spells, CtxFits, Fits, CtxDistinct;
    Split(h, x, t);
    SpliceFits(h, h', x, t, child);
    SplicedCtxFits(h, h', x, t, child);
    Split(h', x, child);
  }

  lemma SplicedCtxFits(h: Fields, h': Fields, x: Ctx, t: Tree, child: Tree)
    requires OneKid(t, child) && Nodes(t) !! CtxNodes(x) && CtxDistinct(x) && CtxFits(h, x, t.n)
    requires h.Keys == CtxNodes(x) + Nodes(t) && Spliced(h, h', t.n, RootOf(child), HoleParent(x))
    ensures CtxFits(h', x, RootOf(child))
  {
    SpliceCtx(h, h', x, t.n, RootOf(child));
  }

  /** Taking out a red node keeps the colours; taking out a black one leaves a shortage. */
  lemma SpliceColors(x: Ctx, t: Tree, child: Tree)
    requires OneKid(t, child) && Valid(Plug(x, t))
    ensures t.c.Black? ==> ShortFocus(x, child)
    ensures t.c.Red? ==> Valid(Plug(x, child))
  {
    hide Plug, Valid, CtxRedBlack;
    PlugValid(x, t);
    PlugValid(x, child);
    assert RedBlack(child) && BlackHeight(t) == BlackHeight(child) + Weight(t.c);
    assert t.c.Red? ==> ColorOf(child).Black?;
  }

  // ---- replacing a node ----

  /** How putting `new` in the place of `v` below `p` rewrites the fields. */
  predicate Replaced(h: Fields, h': Fields, v: Node, new': Node, p: Node?) {
    && v in h && new' !in h && h'.Keys == h.Keys - {v} + {new'} && h'[new'] == h[v]
    && forall k :: k in h' && k != new' ==>
      && h'[k].left == (if k == p && h[k].left == v then new' else h[k].left)
      && h'[k].right == (if k == p && h[k].left != v then new' else h[k].right)
      && h'[k].parent == (if k == h[v].left || k == h[v].right then new' else h[k].parent)
      && h'[k].color == h[k].color
  }

  lemma ReplaceCtx(h: Fields, h': Fields, x: Ctx, v: Node, new': Node)
    requires CtxDistinct(x) && CtxFits(h, x, v) && CtxNodes(x) <= h.Keys && v !in CtxNodes(x)
    requires Replaced(h, h', v, new', HoleParent(x))
    requires CtxNodes(x) !! Opt(h[v].left) + Opt(h[v].right)
    requires x.In? ==> RootOf(x.sib) != v
    ensures CtxFits(h', x, new')
  {
    CtxRefill(h, h', {v} + Opt(h[v].left) + Opt(h[v].right) + Opt(HoleParent(x)), x, v, new');
  }

  lemma ReplaceSpells(h: Fields, h': Fields, x: Ctx, l: Tree, v: Node, c: Color, r: Tree, new': Node)
    requires Spells(h, Plug(x, T(l, v, c, r))) && Replaced(h, h', v, new', HoleParent(x))
    ensures Spells(h', Plug(x, T(l, new', c, r)))
  {
    hide Plug, Spells, CtxFits, CtxDistinct;
    Split(h, x, T(l, v, c, r));
    ReplacedFits(h, h', x, l, v, c, r, new');
    assert CtxFits(h', x, new') by { ReplaceCtx(h, h', x, v, new'); }
    Split(h', x, T(l, new', c, r));
  }

  lemma ReplacedFits(h: Fields, h': Fields, x: Ctx, l: Tree, v: Node, c: Color, r: Tree, new': Node)
    requires var t := T(l, v, c, r); Distinct(t) && Nodes(t) !! Opt(HoleParent(x)) && Fits(h, t, HoleParent(x))
    requires Nodes(T(l, v, c, r)) <= h.Keys && Replaced(h, h', v, new', HoleParent(x))
    ensures Fits(h', l, new') && Fits(h', r, new')
  {
    var w := {v} + Opt(RootOf(l)) + Opt(RootOf(r)) + Opt(HoleParent(x));
    FitsReparent(h, h', w, l, v, new');
    FitsReparent(h, h', w, r, v, new');
  }

  // ---- the successor of a node with two children ----

  function MinOf(t: Tree): Tree
    requires t.T?
    ensures MinOf(t).T? && MinOf(t).l.Leaf?
  {
    if t.l.Leaf? then t else MinOf(t.l)
  }

  /** The context of the leftmost node of a tree that sits in `b`. */
  function MinCtx(b: Ctx, t: Tree): Ctx
    requires t.T?
    decreases t
  {
    if t.l.Leaf? then b else MinCtx(In(L, t.n, t.c, t.r, b), t.l)
  }

  /** `t` with its leftmost node's subtree replaced. */
  function WithMin(t: Tree, u: Tree): Tree
    requires t.T?
  {
    if t.l.Leaf? then u else T(WithMin(t.l, u), t.n, t.c, t.r)
  }

  function DelMin(t: Tree): Tree
    requires t.T?
  {
    WithMin(t, MinOf(t).r)
  }

  lemma {:induction false} MinPlug(b: Ctx, t: Tree, u: Tree)
    requires t.T?
    ensures Plug(MinCtx(b, t), u) == Plug(b, WithMin(t, u)) && WithMin(t, MinOf(t)) == t
    decreases t
  {
    if t.l.Leaf? {
    } else {
      MinPlug(In(L, t.n, t.c, t.r, b), t.l, u);
    }
  }

  lemma {:induction false} DelMinInOrder(t: Tree)
    requires t.T?
    ensures InOrder(t) == [MinOf(t).n] + InOrder(DelMin(t))
  {
    if t.l.Leaf? {
    } else {
      DelMinInOrder(t.l);
    }
  }

  /** Contexts that differ only in which nodes lie on the way up. */
  predicate Alike(x: Ctx, y: Ctx) {
    x.In? == y.In? && (x.In? ==> x.d == y.d && x.c == y.c && x.sib == y.sib && Alike(x.up, y.up))
  }

  lemma {:induction false} AlikeColors(x: Ctx, y: Ctx, h: nat)
    requires Alike(x, y)
    ensures CtxRedBlack(x, h) == CtxRedBlack(y, h)
  {
    if x.Top? {
    } else {
      AlikeColors(x.up, y.up, h + Weight(x.c));
    }
  }

  lemma AlikeSelf(x: Ctx)
    ensures Alike(x, x)
  {
  }

  lemma {:induction false} MinAlike(b: Ctx, b': Ctx, t: Tree)
    requires t.T? && Alike(b, b')
    ensures Alike(MinCtx(b, t), MinCtx(b', t))
    decreases t
  {
    if t.l.Leaf? {
    } else {
      MinAlike(In(L, t.n, t.c, t.r, b), In(L, t.n, t.c, t.r, b'), t.l);
    }
  }

  /** Where the successor was, once it has moved into the place of the erased node. */
  function GapCtx(x: Ctx, t: Tree): Ctx
    requires t.T? && t.r.T?
  {
    MinCtx(In(R, MinOf(t.r).n, t.c, t.l, x), t.r)
  }

  /** The tree with the root of `t` erased by moving its successor up. */
  function Promoted(t: Tree): Tree
    requires t.T? && t.r.T?
  {
    T(t.l, MinOf(t.r).n, t.c, DelMin(t.r))
  }

  lemma GapPlug(x: Ctx, t: Tree)
    requires t.T? && t.r.T?
    ensures Plug(GapCtx(x, t), MinOf(t.r).r) == Plug(x, Promoted(t))
  {
    MinPlug(In(R, MinOf(t.r).n, t.c, t.l, x), t.r, MinOf(t.r).r);
  }

  /** Moving the successor up has the colour effect of taking it out from where it was. */
  lemma PromoteColors(x: Ctx, t: Tree)
    requires t.T? && t.r.T? && Valid(Plug(x, t))
    ensures MinOf(t.r).c.Black? ==> ShortFocus(GapCtx(x, t), MinOf(t.r).r)
    ensures MinOf(t.r).c.Red? ==> Valid(Plug(x, Promoted(t)))
  {
    var m, b, b' := MinOf(t.r), In(R, t.n, t.c, t.l, x), In(R, MinOf(t.r).n, t.c, t.l, x);
    MinPlug(b, t.r, m);
    SpliceColors(MinCtx(b, t.r), m, m.r);
    AlikeSelf(x);
    MinAlike(b, b', t.r);
    AlikeColors(MinCtx(b, t.r), MinCtx(b', t.r), BlackHeight(m.r));
    AlikeColors(MinCtx(b, t.r), MinCtx(b', t.r), BlackHeight(m.r) + 1);
    PlugValid(MinCtx(b, t.r), m.r);
    PlugValid(MinCtx(b', t.r), m.r);
    GapPlug(x, t);
  }

  /** Moving successor `s` of `o` up, as the code writes it. */
  predicate PromotedFields(h: Fields, h': Fields, o: Node, s: Node) {
    && o in h && s in h && h'.Keys == h.Keys - {o}
    && var lo, ro, p, child, ps := h[o].left, h[o].right, h[o].parent, h[s].right, h[s].parent;
    forall k :: k in h' ==>
      && h'[k].left ==
            (if k == s then lo else if k == ps then child else if k == p && h[k].left == o then s else h[k].left)
      && h'[k].right == (if k == s && ps != o then ro else if k == p && h[k].left != o then s else h[k].right)
      && h'[k].parent == (if k == s then p else if k == lo || (k == ro && ps != o) then s
                          else if k == child && ps != o then ps else h[k].parent)
      && h'[k].color == (if k == s then h[o].color else h[k].color)
  }

  function SplicedFields(h: Fields, n: Node, child: Node?, p: Node?): Fields {
    map k | k in h && k != n :: Rec(
      if k == p && h[k].left == n then child else h[k].left,
      if k == p && h[k].left != n then child else h[k].right,
      if k == child then p else h[k].parent,
      h[k].color)
  }

  /** The fields around a node with two children and its successor. */
  predicate Surroundings(h: Fields, o: Node, s: Node) {
    && o in h && s in h && o != s
    && var lo, ro, p, child, ps := h[o].left, h[o].right, h[o].parent, h[s].right, h[s].parent;
    && lo != null && lo in h && ro != null && ro in h && ps != null && ps in h
    && lo !in {o, s, ro, ps} && ro != o && ps != s && (ps == o <==> s == ro) && (ps != o ==> h[ps].left == s)
    && (child != null ==> child in h && child !in {o, s, lo, ro, ps} && h[child].parent == s)
    && (p != null ==> p in h && p !in {o, s, lo, ro, ps} && p != child)
    && (p != null ==> (h[p].left == o || h[p].right == o) && h[p].left != h[p].right)
  }

  lemma PromoteIsSpliceThenReplace(h: Fields, h': Fields, o: Node, s: Node)
    requires Surroundings(h, o, s) && PromotedFields(h, h', o, s)
    ensures Replaced(SplicedFields(h, s, h[s].right, h[s].parent), h', o, s, h[o].parent)
  {
  }

  lemma {:induction false} MinInside(b: Ctx, t: Tree)
    requires t.T?
    ensures Nodes(MinOf(t)) <= Nodes(t) && CtxNodes(b) <= CtxNodes(MinCtx(b, t))
    ensures t.l.Leaf? ==> MinOf(t) == t && MinCtx(b, t) == b
    ensures t.l.T? ==> var x := MinCtx(b, t); x.In? && x.d == L && x.n in Nodes(t) && t.n in CtxNodes(x)
    decreases t
  {
    if t.l.Leaf? {
    } else {
      MinInside(In(L, t.n, t.c, t.r, b), t.l);
    }
  }

  lemma SurroundingsHold(h: Fields, x: Ctx, t: Tree)
    requires Spells(h, Plug(x, t)) && t.T? && t.l.T? && t.r.T?
    ensures Surroundings(h, t.n, MinOf(t.r).n)
    ensures h[MinOf(t.r).n].parent == HoleParent(MinCtx(In(R, t.n, t.c, t.l, x), t.r))
    ensures h[MinOf(t.r).n].right == RootOf(MinOf(t.r).r) && h[t.n].parent == HoleParent(x)
    ensures h[MinOf(t.r).n].color == MinOf(t.r).c
  {
    var b, m := In(R, t.n, t.c, t.l, x), MinOf(t.r);
    var mx := MinCtx(b, t.r);
    MinPlug(b, t.r, m);
    MinInside(b, t.r);
    Split(h, x, t);
    Split(h, mx, m);
    assert Fits(h, m.r, m.n);
    assert t.n in CtxNodes(mx) && t.l.n in CtxNodes(mx) && CtxNodes(x) <= CtxNodes(mx);
  }

  lemma PromoteSpells(h: Fields, h': Fields, x: Ctx, t: Tree)
    requires Spells(h, Plug(x, t)) && t.T? && t.l.T? && t.r.T?
    requires PromotedFields(h, h', t.n, MinOf(t.r).n)
    ensures Spells(h', Plug(x, Promoted(t)))
  {
    var b, m := In(R, t.n, t.c, t.l, x), MinOf(t.r);
    var mx := MinCtx(b, t.r);
    SurroundingsHold(h, x, t);
    MinPlug(b, t.r, m);
    var h1 := SplicedFields(h, m.n, RootOf(m.r), HoleParent(mx));
    SpliceSpells(h, h1, mx, m, m.r);
    PromoteIsSpliceThenReplace(h, h', t.n, m.n);
    MinPlug(b, t.r, m.r);
    ReplaceSpells(h1, h', x, t.l, t.n, t.c, DelMin(t.r), m.n);
  }

  // ---- the code ----

  /** Makes what points at `o`, its parent or the root, point at `n`. */
  method PointAt(o: Node, n: Node?, root: Root)
    requires o.parent != null ==> o.parent in root.nodes
    modifies root`rb_node, root.nodes`left, root.nodes`right
    ensures root.rb_node == if o.parent == null then n else old(root.rb_node)
    ensures forall k :: k in root.nodes ==>
      && k.left == (if k == o.parent && old(k.left) == o then n else old(k.left))
      && k.right == (if k == o.parent && old(k.left) != o then n else old(k.right))
  {
    var parent := o.parent;
    if parent != null {
      if parent.left == o {
        parent.left := n;
      } else {
        parent.right := n;
      }
    } else {
      root.rb_node := n;
    }
  }

  /** Takes out a node that has at most one child. */
  method SpliceOut(node: Node, child: Node?, root: Root, ghost tree: Tree)
    requires node in root.nodes && child != node && node.parent != node
    requires child != null ==> child in root.nodes && child != node.parent
    requires node.parent != null ==> node.parent in root.nodes
    modifies root, root.nodes`left, root.nodes`right, root.nodes`parent
    ensures root.rb_node == if old(node.parent) == null then child else old(root.rb_node)
    ensures root.nodes == old(root.nodes) - {node} && root.tree == tree
    ensures forall k :: k in root.nodes ==>
      && k.left == (if k == old(node.parent) && old(k.left) == node then child else old(k.left))
      && k.right == (if k == old(node.parent) && old(k.left) != node then child else old(k.right))
      && k.parent == (if k == child then old(node.parent) else old(k.parent))
  {
    var parent := node.parent;
    if child != null {
      child.parent := parent;
    }
    PointAt(node, child, root);
    root.nodes := root.nodes - {node};
    root.tree := tree;
  }

  /** Surroundings, on the heap. */
  ghost predicate Placed(s: set<Node>, o: Node, n: Node)
    reads s
  {
    && o in s && n in s && o != n
    && o.left != null && o.left in s && o.right != null && o.right in s && n.parent != null && n.parent in s
    && o.left != o && o.left != n && o.left != o.right && o.left != n.parent && o.right != o && n.parent != n
    && (n.parent == o <==> n == o.right)
    && (n.right != null ==>
          && n.right in s && n.right != o && n.right != n && n.right != o.left && n.right != o.right
          && n.right != n.parent)
    && (o.parent != null ==>
          && o.parent in s && o.parent != o && o.parent != n && o.parent != o.left && o.parent != o.right
          && o.parent != n.parent && o.parent != n.right)
  }

  /** Hands the child of the successor to its parent, and the right subtree of `o` to the successor. */
  method Detach(o: Node, node: Node, child: Node?, parent: Node, root: Root)
    requires {o, node, parent} <= root.nodes && o.right != null && o.right in root.nodes && parent != node
    requires child != null ==> child in root.nodes && child != o.right
    modifies root.nodes`left, root.nodes`right, root.nodes`parent
    ensures forall k :: k in root.nodes ==>
      && k.left == (if k == parent then child else old(k.left))
      && k.right == (if k == node then old(o.right) else old(k.right))
      && k.parent == (if k == old(o.right) then node else if k == child then parent else old(k.parent))
  {
    if child != null {
      child.parent := parent;
    }
    parent.left := child;

    node.right := o.right;
    o.right.parent := node;
  }

  /** Gives the successor the parent, colour and left subtree of `o`. */
  method TakePlace(o: Node, node: Node, root: Root)
    requires o in root.nodes && node in root.nodes && o != node && o.left != null && o.left in root.nodes
    requires o.left != node
    modifies root.nodes`left, root.nodes`parent, root.nodes`color
    ensures forall k :: k in root.nodes ==>
      && k.left == (if k == node then old(o.left) else old(k.left))
      && k.parent == (if k == node then old(o.parent) else if k == old(o.left) then node else old(k.parent))
      && k.color == (if k == node then old(o.color) else old(k.color))
  {
    node.parent := o.parent;
    node.color := o.color;
    node.left := o.left;
    o.left.parent := node;
  }

  /** Moves the successor `node` of `o` into the place of `o`. */
  method Promote(o: Node, node: Node, root: Root, ghost tree: Tree) returns (child: Node?, parent: Node, color: Color)
    requires Placed(root.nodes, o, node)
    modifies root, root.nodes`left, root.nodes`right, root.nodes`parent, root.nodes`color
    ensures root.nodes == old(root.nodes) - {o} && root.tree == tree
    ensures root.rb_node == if old(o.parent) == null then node else old(root.rb_node)
    ensures child == old(node.right) && color == old(node.color)
    ensures parent == if old(node.parent) == o then node else old(node.parent)
    ensures forall k :: k in root.nodes ==>
      && k.left == (if k == node then old(o.left) else if k == old(node.parent) then child
                    else if k == old(o.parent) && old(k.left) == o then node else old(k.left))
      && k.right == (if k == node && old(node.parent) != o then old(o.right)
                     else if k == old(o.parent) && old(k.left) != o then node else old(k.right))
      && k.parent == (if k == node then old(o.parent)
                      else if k == old(o.left) || (k == old(o.right) && old(node.parent) != o) then node
                      else if k == child && old(node.parent) != o then old(node.parent) else old(k.parent))
      && k.color == (if k == node then old(o.color) else old(k.color))
  {
    PointAt(o, node, root);

    child := node.right;
    parent := node.parent;
    color := node.color;

    if parent == o {
      parent := node;
    } else {
      Detach(o, node, child, parent, root);
    }
    TakePlace(o, node, root);

    root.nodes := root.nodes - {o};
    root.tree := tree;
  }

  /** The same, as a relation between the two snapshots. */
  method PromoteSnap(o: Node, node: Node, root: Root, ghost tree: Tree)
    returns (child: Node?, parent: Node, color: Color)
    requires Placed(root.nodes, o, node)
    modifies root, root.nodes`left, root.nodes`right, root.nodes`parent, root.nodes`color
    ensures root.nodes == old(root.nodes) - {o} && root.tree == tree
    ensures root.rb_node == if old(o.parent) == null then node else old(root.rb_node)
    ensures child == old(node.right) && color == old(node.color)
    ensures parent == if old(node.parent) == o then node else old(node.parent)
    ensures PromotedFields(old(Snap(root.nodes)), Snap(root.nodes), o, node)
  {
    child, parent, color := Promote(o, node, root, tree);
  }

  /** Walks down to the leftmost node of the subtree `t`. */
  method Leftmost(top: Node, root: Root, ghost b: Ctx, ghost t: Tree) returns (node: Node)
    requires root.Holds() && root.tree == Plug(b, t) && t.T? && t.n == top
    ensures node == MinOf(t).n
  {
    node := top;
    ghost var x, u := b, t;
    Around(Snap(root.nodes), x, u);
    while node.left != null
      invariant u.T? && u.n == node && node in root.nodes && Plug(x, u) == root.tree && MinOf(u) == MinOf(t)
      invariant node.left == RootOf(u.l)
      decreases u
    {
      node := node.left;
      x, u := In(L, u.n, u.c, u.r, x), u.l;
      Around(Snap(root.nodes), x, u);
    }
  }

  lemma OneKidFields(root: Root, x: Ctx, t: Tree, u: Tree)
    requires root.Holds() && root.tree == Plug(x, t) && OneKid(t, u)
    ensures t.n in root.nodes && t.n.parent == HoleParent(x) && t.n.color == t.c && RootOf(u) != t.n
    ensures HoleParent(x) != t.n
    ensures u.T? ==> u.n in root.nodes && u.n != HoleParent(x)
    ensures x.In? ==> x.n in root.nodes
  {
    Split(Snap(root.nodes), x, t);
    Around(Snap(root.nodes), x, t);
  }

  method EraseOne(node: Node, child: Node?, root: Root, ghost x: Ctx, ghost t: Tree, ghost u: Tree)
    returns (parent: Node?, color: Color)
    requires root.Holds() && root.tree == Plug(x, t) && OneKid(t, u) && t.n == node && child == RootOf(u)
    modifies root, root.nodes`left, root.nodes`right, root.nodes`parent
    ensures root.Holds() && root.tree == Plug(x, u) && root.nodes == old(root.nodes) - {node}
    ensures parent == HoleParent(x) && color == t.c
    ensures KidsOff(root.nodes, old(Snap(root.nodes)), Opt(HoleParent(x)))
  {
    hide Plug, Spells, Nodes, OneKid;
    ghost var h := Snap(root.nodes);
    OneKidFields(root, x, t, u);
    PlugRoot(x, t);
    PlugRoot(x, u);
    parent := node.parent;
    color := node.color;
    SpliceOut(node, child, root, Plug(x, u));
    assert Spliced(h, Snap(root.nodes), node, child, parent);
    SpliceSpells(h, Snap(root.nodes), x, t, u);
  }

  lemma {:induction false} GapParent(b: Ctx, b': Ctx, t: Tree)
    requires t.T? && b.In? && b'.In?
    ensures HoleParent(MinCtx(b', t)) == if t.l.Leaf? then b'.n else HoleParent(MinCtx(b, t))
    decreases t
  {
    if t.l.Leaf? {
    } else {
      GapParent(In(L, t.n, t.c, t.r, b), In(L, t.n, t.c, t.r, b'), t.l);
    }
  }

  lemma PlacedHolds(root: Root, x: Ctx, t: Tree)
    requires root.Holds() && root.tree == Plug(x, t) && t.T? && t.l.T? && t.r.T?
    ensures Placed(root.nodes, t.n, MinOf(t.r).n)
    ensures t.n.parent == HoleParent(x) && MinOf(t.r).n.right == RootOf(MinOf(t.r).r)
    ensures MinOf(t.r).n.color == MinOf(t.r).c
    ensures RootOf(Promoted(t)) == MinOf(t.r).n
    ensures HoleParent(GapCtx(x, t)) == if MinOf(t.r).n.parent == t.n then MinOf(t.r).n else MinOf(t.r).n.parent
  {
    SurroundingsHold(Snap(root.nodes), x, t);
    MinInside(In(R, t.n, t.c, t.l, x), t.r);
    GapParent(In(R, t.n, t.c, t.l, x), In(R, MinOf(t.r).n, t.c, t.l, x), t.r);
    Split(Snap(root.nodes), x, t);
  }

  method Successor(o: Node, root: Root, ghost x: Ctx, ghost t: Tree) returns (node: Node)
    requires root.Holds() && root.tree == Plug(x, t) && t.T? && t.r.T? && t.n == o
    ensures node == MinOf(t.r).n
  {
    Around(Snap(root.nodes), x, t);
    node := Leftmost(o.right, root, In(R, o, t.c, t.l, x), t.r);
  }

  method EraseTwo(o: Node, root: Root, ghost x: Ctx, ghost t: Tree) returns (child: Node?, parent: Node, color: Color)
    requires root.Holds() && root.tree == Plug(x, t) && t.T? && t.l.T? && t.r.T? && t.n == o
    modifies root, root.nodes`left, root.nodes`right, root.nodes`parent, root.nodes`color
    ensures root.Holds() && root.tree == Plug(x, Promoted(t)) && root.nodes == old(root.nodes) - {o}
    ensures child == RootOf(MinOf(t.r).r) && parent == HoleParent(GapCtx(x, t)) && color == MinOf(t.r).c
    ensures KidsOff(root.nodes, old(Snap(root.nodes)), {MinOf(t.r).n, parent} + Opt(HoleParent(x)))
  {
    hide Spells, Nodes, Mk, Promoted, MinOf, MinCtx, GapCtx, Surroundings;
    ghost var h := Snap(root.nodes);
    var node := Successor(o, root, x, t);
    PlacedHolds(root, x, t);
    PlugRoot(x, t);
    PlugRoot(x, Promoted(t));
    child, parent, color := PromoteSnap(o, node, root, Plug(x, Promoted(t)));
    PromoteSpells(h, Snap(root.nodes), x, t);
  }

  // ---- order ----

  function Without(s: seq<Node>, n: Node): seq<Node> {
    if s == [] then [] else (if s[0] == n then [] else [s[0]]) + Without(s[1..], n)
  }

  lemma {:induction false} WithoutAbsent(s: seq<Node>, n: Node)
    requires n !in s
    ensures Without(s, n) == s
  {
    if s == [] {
    } else {
      WithoutAbsent(s[1..], n);
    }
  }

  lemma {:induction false} WithoutMiddle(a: seq<Node>, n: Node, b: seq<Node>)
    requires n !in a && n !in b
    ensures Without(a + [n] + b, n) == a + b
  {
    if a == [] {
      assert ([n] + b)[1..] == b && a + [n] + b == [n] + b && a + b == b;
      WithoutAbsent(b, n);
    } else {
      assert (a + [n] + b)[1..] == a[1..] + [n] + b && a + b == [a[0]] + (a[1..] + b);
      WithoutMiddle(a[1..], n, b);
    }
  }

  lemma Reassoc(p: seq<Node>, l: seq<Node>, r: seq<Node>, q: seq<Node>)
    ensures p + (l + r) + q == (p + l) + (r + q)
  {
    assert p + (l + r) == (p + l) + r;
  }

  lemma Middle(p: seq<Node>, l: seq<Node>, n: Node, r: seq<Node>, q: seq<Node>)
    ensures p + (l + [n] + r) + q == (p + l) + [n] + (r + q)
  {
    Reassoc(p, l, [n] + r, q);
    assert l + [n] + r == l + ([n] + r) && ([n] + r) + q == [n] + (r + q);
    assert (p + l) + ([n] + (r + q)) == (p + l) + [n] + (r + q);
  }

  lemma WithoutInner(p: seq<Node>, l: seq<Node>, n: Node, r: seq<Node>, q: seq<Node>)
    requires n !in p && n !in l && n !in r && n !in q
    ensures Without(p + (l + [n] + r) + q, n) == p + (l + r) + q
  {
    hide Without;
    Reassoc(p, l, r, q);
    Middle(p, l, n, r, q);
    WithoutMiddle(p + l, n, r + q);
  }

  lemma {:induction false} InOrderNodes(t: Tree)
    ensures forall k :: k in InOrder(t) <==> k in Nodes(t)
    ensures forall i :: 0 <= i < |InOrder(t)| ==> InOrder(t)[i] in Nodes(t)
  {
    if t.Leaf? {
    } else {
      InOrderNodes(t.l);
      InOrderNodes(t.r);
    }
  }

  lemma {:induction false} BesideNodes(x: Ctx)
    ensures forall k :: k in Before(x) || k in After(x) ==> k in CtxNodes(x)
  {
    if x.Top? {
    } else {
      BesideNodes(x.up);
      InOrderNodes(x.sib);
    }
  }

  /** Any subtree with the in-order nodes of `t` except its root spells the order without that root. */
  lemma ErasedOrder(x: Ctx, t: Tree, u: Tree)
    requires t.T? && Distinct(Plug(x, t)) && InOrder(u) == InOrder(t.l) + InOrder(t.r)
    ensures InOrder(Plug(x, u)) == Without(InOrder(Plug(x, t)), t.n)
  {
    PlugNodes(x, t);
    PlugInOrder(x, t);
    PlugInOrder(x, u);
    BesideNodes(x);
    InOrderNodes(t.l);
    InOrderNodes(t.r);
    WithoutInner(Before(x), InOrder(t.l), t.n, InOrder(t.r), After(x));
  }

  // ---- the deepest surviving node on the rebalance path ----

  /** The parent of the leftmost node, if that is not the root. */
  function MinParent(t: Tree): Node
    requires t.T? && t.l.T?
  {
    if t.l.l.Leaf? then t.n else MinParent(t.l)
  }

  lemma {:induction false} MinParentIs(b: Ctx, t: Tree)
    requires t.T? && t.l.T?
    ensures HoleParent(MinCtx(b, t)) == MinParent(t)
    decreases t
  {
    if t.l.l.Leaf? {
    } else {
      MinParentIs(In(L, t.n, t.c, t.r, b), t.l);
    }
  }

  /** What rb_augment_erase_begin picks for the root of `t`, whose parent is `p`. */
  function DeepestAt(t: Tree, p: Node?): Node?
    requires t.T?
  {
    if t.l.Leaf? && t.r.Leaf? then p
    else if t.r.Leaf? then t.l.n
    else if t.l.Leaf? then t.r.n
    else
      var m := MinOf(t.r);
      if m.r.T? then m.r.n else if t.r.l.T? then MinParent(t.r) else m.n
  }

  lemma DeepestIsGap(x: Ctx, t: Tree)
    requires t.T? && t.l.T? && t.r.T?
    ensures DeepestAt(t, HoleParent(x)) == var u := MinOf(t.r).r; if u.T? then u.n else HoleParent(GapCtx(x, t))
  {
    if t.r.l.T? {
      MinParentIs(In(R, MinOf(t.r).n, t.c, t.l, x), t.r);
    }
  }

  lemma {:induction false} DirtyDown(b: Ctx, t: Tree)
    requires t.T?
    ensures Dirty(b) <= Dirty(MinCtx(b, t))
    decreases t
  {
    if t.l.Leaf? {
    } else {
      DirtyDown(In(L, t.n, t.c, t.r, b), t.l);
    }
  }

  lemma GapDirty(x: Ctx, t: Tree)
    requires t.T? && t.r.T?
    ensures {MinOf(t.r).n} + Opt(HoleParent(x)) + Opt(HoleParent(GapCtx(x, t))) <= Dirty(GapCtx(x, t))
  {
    DirtyDown(In(R, MinOf(t.r).n, t.c, t.l, x), t.r);
  }

  lemma DirtyOnTrail(x: Ctx, t: Tree, z: Node?)
    requires Distinct(Plug(x, t)) && z == if t.T? then t.n else HoleParent(x)
    ensures Dirty(x) <= TrailFrom(Plug(x, t), z)
  {
    TrailAtPlug(x, t, z);
  }

  // ---- rb_erase ----

  /** The state between unlinking and rebalancing. */
  ghost predicate Unlinked(root: Root, h0: Fields, color: Color, child: Node?, parent: Node?, gx: Ctx, gu: Tree,
                           w: set<Node>)
    reads root, root.nodes
  {
    && root.Holds() && root.tree == Plug(gx, gu) && child == RootOf(gu) && parent == HoleParent(gx)
    && (color.Black? ==> ShortFocus(gx, gu)) && (color.Red? ==> Valid(root.tree))
    && KidsOff(root.nodes, h0, w) && w <= TrailFrom(root.tree, if child != null then child else parent)
  }

  method UnlinkOne(node: Node, child: Node?, root: Root, ghost x: Ctx, ghost t: Tree, ghost u: Tree)
    returns (parent: Node?, color: Color)
    requires root.Holds() && Valid(root.tree) && root.tree == Plug(x, t) && OneKid(t, u) && t.n == node
    requires child == RootOf(u)
    modifies root, root.nodes`left, root.nodes`right, root.nodes`parent
    ensures Unlinked(root, old(Snap(root.nodes)), color, child, parent, x, u, Opt(HoleParent(x)))
    ensures root.nodes == old(root.nodes) - {node} && InOrder(root.tree) == Without(InOrder(old(root.tree)), node)
    ensures DeepestAt(t, HoleParent(x)) == if child != null then child else parent
  {
    hide Plug, Valid, ShortFocus, InOrder, Without;
    SpliceColors(x, t, u);
    OneKidOrder(x, t, u);
    parent, color := EraseOne(node, child, root, x, t, u);
    DirtyOnTrail(x, u, if u.T? then u.n else HoleParent(x));
  }

  lemma OneKidOrder(x: Ctx, t: Tree, u: Tree)
    requires OneKid(t, u) && Distinct(Plug(x, t))
    ensures InOrder(Plug(x, u)) == Without(InOrder(Plug(x, t)), t.n)
  {
    ErasedOrder(x, t, u);
  }

  lemma PromotedOrder(x: Ctx, t: Tree)
    requires t.T? && t.r.T? && Distinct(Plug(x, t))
    ensures InOrder(Plug(x, Promoted(t))) == Without(InOrder(Plug(x, t)), t.n)
  {
    DelMinInOrder(t.r);
    assert InOrder(Promoted(t)) == InOrder(t.l) + InOrder(t.r);
    ErasedOrder(x, t, Promoted(t));
  }

  method UnlinkTwo(node: Node, root: Root, ghost x: Ctx, ghost t: Tree)
    returns (child: Node?, parent: Node, color: Color)
    requires root.Holds() && Valid(root.tree) && root.tree == Plug(x, t) && t.T? && t.l.T? && t.r.T? && t.n == node
    modifies root, root.nodes`left, root.nodes`right, root.nodes`parent, root.nodes`color
    ensures Unlinked(root, old(Snap(root.nodes)), color, child, parent, GapCtx(x, t), MinOf(t.r).r,
      {MinOf(t.r).n, parent} + Opt(HoleParent(x)))
    ensures root.nodes == old(root.nodes) - {node} && InOrder(root.tree) == Without(InOrder(old(root.tree)), node)
    ensures DeepestAt(t, HoleParent(x)) == if child != null then child else parent
  {
    hide Plug, Valid, ShortFocus, InOrder, Without, GapCtx, DeepestAt, MinOf, Promoted;
    PromoteColors(x, t);
    PromotedOrder(x, t);
    child, parent, color := EraseTwo(node, root, x, t);
    GapPlug(x, t);
    GapDirty(x, t);
    DeepestIsGap(x, t);
    DirtyOnTrail(GapCtx(x, t), MinOf(t.r).r, if child != null then child else parent);
  }

  lemma {:induction false} Locate(t: Tree, b: Ctx, n: Node) returns (x: Ctx, u: Tree)
    requires n in Nodes(t)
    ensures Plug(x, u) == Plug(b, t) && u.T? && u.n == n
    decreases t
  {
    if t.n == n {
      x, u := b, t;
    } else if n in Nodes(t.l) {
      x, u := Locate(t.l, In(L, t.n, t.c, t.r, b), n);
    } else {
      x, u := Locate(t.r, In(R, t.n, t.c, t.l, b), n);
    }
  }

  method Erase(node: Node, root: Root, ghost x: Ctx, ghost t: Tree) returns (ghost rotations: nat)
    requires root.Holds() && Valid(root.tree) && root.tree == Plug(x, t) && t.T? && t.n == node
    modifies root, root.nodes`left, root.nodes`right, root.nodes`parent, root.nodes`color
    ensures root.Holds() && Valid(root.tree) && root.nodes == old(root.nodes) - {node}
    ensures InOrder(root.tree) == Without(InOrder(old(root.tree)), node)
    ensures KidsOff(root.nodes, old(Snap(root.nodes)), TrailFrom(root.tree, DeepestAt(t, HoleParent(x))))
    ensures rotations <= 3
  {
    hide Plug, Spells, Valid, ShortFocus, InOrder, Without, GapCtx, DeepestAt, MinOf, Trail;
    ghost var h0 := Snap(root.nodes);
    ghost var gx, gu, w;
    var child: Node?, parent: Node?, color: Color;
    Around(h0, x, t);
    if node.left == null {
      child := node.right;
      gx, gu, w := x, t.r, Opt(HoleParent(x));
      parent, color := UnlinkOne(node, child, root, x, t, t.r);
    } else if node.right == null {
      child := node.left;
      gx, gu, w := x, t.l, Opt(HoleParent(x));
      parent, color := UnlinkOne(node, child, root, x, t, t.l);
    } else {
      child, parent, color := UnlinkTwo(node, root, x, t);
      gx, gu, w := GapCtx(x, t), MinOf(t.r).r, {MinOf(t.r).n, parent} + Opt(HoleParent(x));
    }
    rotations := 0;
    if color.Black? {
      rotations := EraseColor(child, parent, root, gx, gu, h0, w);
    }
  }
}
