/** The breakpoint index: entries found, inserted and deleted by address in the red-black tree. */
module BpIndex {
  import opened Common
  import opened RbSpec
  import opened RbTree
  import opened RbTrail
  import opened RbInsert
  import opened RbEraseColor
  import opened RbErase
  import opened RbIter

  type Addrs = map<Node, nat>

  ghost function AddrsOf(s: set<Node>): Addrs
    reads s
  {
    map n | n in s :: n.address
  }

  predicate Sorted(s: seq<Node>, a: Addrs) {
    && (forall i :: 0 <= i < |s| ==> s[i] in a)
    && (forall i, j :: 0 <= i < j < |s| ==> a[s[i]] < a[s[j]])
  }

  /** The invariant of the global tree. */
  ghost predicate Indexed(root: Root)
    reads root, root.nodes
  {
    root.Holds() && Valid(root.tree) && Sorted(InOrder(root.tree), AddrsOf(root.nodes))
  }

  // ---- the finite map that the index refines ----

  predicate Injective(a: Addrs) {
    forall n, m :: n in a && m in a && a[n] == a[m] ==> n == m
  }

  ghost function Entries(a: Addrs): map<nat, Node>
    requires Injective(a)
  {
    map n | n in a :: a[n] := n
  }

  lemma {:induction false} NodesInOrder(t: Tree, n: Node) returns (i: nat)
    requires n in Nodes(t)
    ensures i < |InOrder(t)| && InOrder(t)[i] == n
  {
    if n in Nodes(t.l) {
      i := NodesInOrder(t.l, n);
    } else if n == t.n {
      i := |InOrder(t.l)|;
    } else {
      i := NodesInOrder(t.r, n);
      i := |InOrder(t.l)| + 1 + i;
    }
  }

  lemma SortedInjective(t: Tree, a: Addrs)
    requires Sorted(InOrder(t), a) && a.Keys == Nodes(t)
    ensures Injective(a)
  {
    forall n, m | n in a && m in a && a[n] == a[m]
      ensures n == m
    {
      var i := NodesInOrder(t, n);
      var j := NodesInOrder(t, m);
    }
  }

  // ---- how deep a search can go ----

  function Height(t: Tree): nat {
    if t.Leaf? then 0 else 1 + if Height(t.l) > Height(t.r) then Height(t.l) else Height(t.r)
  }

  lemma {:induction false} Pow2Mono(m: nat, n: nat)
    requires m <= n
    ensures 1 <= Pow2(m) <= Pow2(n)
    decreases n
  {
    if n > 0 && m > 0 {
      Pow2Mono(m - 1, n - 1);
    } else if n > 0 {
      Pow2Mono(m, n - 1);
    }
  }

  lemma {:induction false} Pow2Double(n: nat)
    ensures Pow2(2 * n) == Pow2(n) * Pow2(n)
  {
    if n == 0 {
    } else {
      Pow2Double(n - 1);
      var p := Pow2(n - 1);
      assert Pow2(2 * n) == 2 * Pow2(2 * n - 1) == 4 * Pow2(2 * (n - 1)) == 4 * (p * p);
      assert 4 * (p * p) == (2 * p) * (2 * p);
    }
  }

  lemma {:induction false} HeightBound(t: Tree)
    requires RedBlack(t)
    ensures Height(t) <= 2 * BlackHeight(t) + 1 - Weight(ColorOf(t))
    ensures Pow2(BlackHeight(t)) <= |InOrder(t)| + 1
  {
    if t.Leaf? {
    } else {
      HeightBound(t.l);
      HeightBound(t.r);
    }
  }

  /** A path of `k` nodes in a valid tree of n nodes has 2^k <= (n + 1)^2. */
  lemma SearchBound(t: Tree, k: nat)
    requires Valid(t) && k <= Height(t)
    ensures Pow2(k) <= (|InOrder(t)| + 1) * (|InOrder(t)| + 1)
  {
    HeightBound(t);
    var b, n := BlackHeight(t), |InOrder(t)|;
    Pow2Mono(k, 2 * b);
    Pow2Double(b);
    Square(Pow2(b), n + 1);
  }

  lemma Square(a: nat, b: nat)
    requires a <= b
    ensures a * a <= b * b
  {
    assert a * a <= a * b <= b * b;
  }

  // ---- the descent ----

  predicate AllBelow(s: seq<Node>, a: Addrs, addr: nat) {
    forall i :: 0 <= i < |s| ==> s[i] in a && a[s[i]] < addr
  }

  predicate AllAbove(s: seq<Node>, a: Addrs, addr: nat) {
    forall i :: 0 <= i < |s| ==> s[i] in a && a[s[i]] > addr
  }

  /** `addr` can only be in the focus. */
  predicate Narrowed(x: Ctx, a: Addrs, addr: nat) {
    AllBelow(Before(x), a, addr) && AllAbove(After(x), a, addr)
  }

  lemma SortedSplit(s: seq<Node>, i: nat, a: Addrs)
    requires Sorted(s, a) && i < |s|
    ensures AllBelow(s[..i], a, a[s[i]]) && AllAbove(s[i + 1..], a, a[s[i]])
  {
  }

  lemma Descend(x: Ctx, t: Tree, a: Addrs, addr: nat)
    requires Sorted(InOrder(Plug(x, t)), a) && t.T? && Narrowed(x, a, addr)
    ensures t.n in a
    ensures addr < a[t.n] ==> Narrowed(In(L, t.n, t.c, t.r, x), a, addr)
    ensures addr > a[t.n] ==> Narrowed(In(R, t.n, t.c, t.l, x), a, addr)
  {
    Position(x, t);
    var s, i := InOrder(Plug(x, t)), |Before(x)| + |InOrder(t.l)|;
    SortedSplit(s, i, a);
    assert t.n in a;
    var above, below := s[i + 1..], s[..i];
    assert After(In(L, t.n, t.c, t.r, x)) == [t.n] + above by { hide Plug, InOrder, Sorted, Narrowed; }
    assert Before(In(R, t.n, t.c, t.l, x)) == below + [t.n] by { hide Plug, InOrder, Sorted, Narrowed; }
    assert Before(In(L, t.n, t.c, t.r, x)) == Before(x) && After(In(R, t.n, t.c, t.l, x)) == After(x);
    hide Plug, InOrder, Sorted, Before, After;
    if addr < a[t.n] {
      AboveToo(above, a, t.n, addr);
    }
    if addr > a[t.n] {
      BelowToo(below, a, t.n, addr);
    }
  }

  lemma AboveToo(s: seq<Node>, a: Addrs, n: Node, addr: nat)
    requires n in a && AllAbove(s, a, a[n]) && addr < a[n]
    ensures AllAbove([n] + s, a, addr)
  {
  }

  lemma BelowToo(s: seq<Node>, a: Addrs, n: Node, addr: nat)
    requires n in a && AllBelow(s, a, a[n]) && a[n] < addr
    ensures AllBelow(s + [n], a, addr)
  {
  }

  lemma NotFound(x: Ctx, a: Addrs, addr: nat, n: Node)
    requires Narrowed(x, a, addr) && n in Nodes(Plug(x, Leaf))
    ensures n in a && a[n] != addr
  {
    var i := NodesInOrder(Plug(x, Leaf), n);
    PlugInOrder(x, Leaf);
  }

  /** breakpoint_rb_find_internal. */
  method Find(addr: nat, root: Root) returns (bp: Node?, ghost visited: nat)
    requires Indexed(root)
    ensures bp != null ==> bp in root.nodes && bp.address == addr
    ensures bp == null ==> forall n :: n in root.nodes ==> n.address != addr
    ensures Pow2(visited) <= (|InOrder(root.tree)| + 1) * (|InOrder(root.tree)| + 1)
  {
    hide Plug, Spells, Valid, InOrder, Narrowed, Pow2, Sorted;
    ghost var x, t, a := Top, root.tree, AddrsOf(root.nodes);
    var rbnode := root.rb_node;
    visited := 0;
    StartSearch(root.tree, a, addr);
    while rbnode != null
      invariant root.tree == Plug(x, t) && rbnode == RootOf(t) && Narrowed(x, a, addr)
      invariant visited + Height(t) <= Height(root.tree)
      decreases t
    {
      VictimFields(root, x, t);
      Descend(x, t, a, addr);
      visited := visited + 1;
      SearchBound(root.tree, visited);
      if addr < rbnode.address {
        x, t, rbnode := In(L, t.n, t.c, t.r, x), t.l, rbnode.left;
      } else if addr > rbnode.address {
        x, t, rbnode := In(R, t.n, t.c, t.l, x), t.r, rbnode.right;
      } else {
        return rbnode, visited;
      }
      PlugDown(x, t);
    }
    SearchBound(root.tree, visited);
    forall n | n in root.nodes
      ensures n.address != addr
    {
      NodesAre(root);
      NotFound(x, a, addr, n);
    }
    bp := null;
  }

  lemma StartSearch(t: Tree, a: Addrs, addr: nat)
    ensures Plug(Top, t) == t && Narrowed(Top, a, addr)
  {
  }

  lemma PlugDown(x: Ctx, t: Tree)
    requires x.In?
    ensures Plug(x, t) == Plug(x.up, Mk(x.d, t, x.n, x.c, x.sib))
  {
  }

  lemma NodesAre(root: Root)
    requires root.Holds()
    ensures root.nodes == Nodes(root.tree)
  {
    assert Snap(root.nodes).Keys == root.nodes;
  }

  // ---- insertion ----

  /** How rb_link_node rewrites the fields: `n` becomes a red leaf on side `d` of `p`. */
  predicate Linked(h: Fields, h': Fields, n: Node, p: Node?, d: Side) {
    && n !in h && h'.Keys == h.Keys + {n} && h'[n] == Rec(null, null, p, Red)
    && forall k :: k in h ==>
      && h'[k].left == (if k == p && d == L then n else h[k].left)
      && h'[k].right == (if k == p && d == R then n else h[k].right)
      && h'[k].parent == h[k].parent && h'[k].color == h[k].color
  }

  lemma LinkSpells(h: Fields, h': Fields, x: Ctx, n: Node)
    requires Spells(h, Plug(x, Leaf)) && Linked(h, h', n, HoleParent(x), if x.Top? then L else x.d)
    ensures Spells(h', Plug(x, T(Leaf, n, Red, Leaf)))
  {
    Split(h, x, Leaf);
    CtxRefill(h, h', Opt(HoleParent(x)), x, null, n);
    Split(h', x, T(Leaf, n, Red, Leaf));
  }

  method LinkNode(node: Node, parent: Node?, side: Side, root: Root, ghost tree: Tree)
    requires node !in root.nodes && (parent != null ==> parent in root.nodes)
    modifies root, root.nodes`left, root.nodes`right, node`left, node`right, node`parent, node`color
    ensures root.nodes == old(root.nodes) + {node} && root.tree == tree
    ensures root.rb_node == if parent == null then node else old(root.rb_node)
    ensures Linked(old(Snap(root.nodes)), Snap(root.nodes), node, parent, side)
  {
    node.parent, node.color := parent, Red;
    node.left, node.right := null, null;
    if parent == null {
      root.rb_node := node;
    } else if side == L {
      parent.left := node;
    } else {
      parent.right := node;
    }
    root.nodes := root.nodes + {node};
    root.tree := tree;
  }

  method Link(node: Node, parent: Node?, side: Side, root: Root, ghost x: Ctx)
    requires root.Holds() && Valid(root.tree) && root.tree == Plug(x, Leaf) && parent == HoleParent(x)
    requires x.In? ==> side == x.d
    requires node !in root.nodes
    modifies root, root.nodes`left, root.nodes`right, node`left, node`right, node`parent, node`color
    ensures root.Holds() && root.tree == Plug(x, T(Leaf, node, Red, Leaf)) && root.nodes == old(root.nodes) + {node}
    ensures CtxRedBlack(x, 0)
    ensures KidsOff(root.nodes, old(Snap(root.nodes)), Opt(HoleParent(x)))
    ensures parent != null ==> parent in root.nodes && (parent.left == node || parent.right == node)
  {
    hide Plug, Spells, Valid;
    ghost var h := Snap(root.nodes);
    HoleParentIn(root, x);
    PlugValid(x, Leaf);
    PlugRoot(x, Leaf);
    PlugRoot(x, T(Leaf, node, Red, Leaf));
    LinkNode(node, parent, side, root, Plug(x, T(Leaf, node, Red, Leaf)));
    if parent == null {
      LinkedEmpty(h, Snap(root.nodes), node, side);
    }
    LinkSpells(h, Snap(root.nodes), x, node);
  }

  lemma LinkedEmpty(h: Fields, h': Fields, n: Node, d: Side)
    requires Linked(h, h', n, null, d)
    ensures Linked(h, h', n, null, L)
  {
  }

  lemma HoleParentIn(root: Root, x: Ctx)
    requires root.Holds() && root.tree == Plug(x, Leaf)
    ensures x.In? ==> x.n in root.nodes
  {
    Split(Snap(root.nodes), x, Leaf);
  }

  lemma SortedInsert(x: Ctx, a: Addrs, n: Node, a': Addrs)
    requires Sorted(InOrder(Plug(x, Leaf)), a) && n !in a && n in a' && Narrowed(x, a, a'[n])
    requires forall k :: k in a ==> k in a' && a'[k] == a[k]
    ensures Sorted(InOrder(Plug(x, T(Leaf, n, Red, Leaf))), a')
  {
    PlugInOrder(x, Leaf);
    PlugInOrder(x, T(Leaf, n, Red, Leaf));
    var p, q := Before(x), After(x);
    assert p + [] + q == p + q && InOrder(T(Leaf, n, Red, Leaf)) == [n];
    SortedAround(p, n, q, a, a');
  }

  lemma SortedAround(p: seq<Node>, n: Node, q: seq<Node>, a: Addrs, a': Addrs)
    requires Sorted(p + q, a) && n in a' && AllBelow(p, a, a'[n]) && AllAbove(q, a, a'[n])
    requires forall k :: k in a ==> k in a' && a'[k] == a[k]
    ensures Sorted(p + [n] + q, a')
  {
    var s, s' := p + q, p + [n] + q;
    forall i | 0 <= i < |s'|
      ensures s'[i] in a' && (i < |p| ==> a'[s'[i]] == a[s[i]] < a'[n])
      ensures i > |p| ==> a'[s'[i]] == a[s[i - 1]] > a'[n]
    {
      assert i < |p| ==> s[i] == p[i];
      assert i > |p| ==> s[i - 1] == q[i - 1 - |p|];
    }
    forall i, j | 0 <= i < j < |s'|
      ensures a'[s'[i]] < a'[s'[j]]
    {
      if j < |p| {
        assert a[s[i]] < a[s[j]];
      } else if i > |p| {
        assert a[s[i - 1]] < a[s[j - 1]];
      }
    }
  }

  /** A node whose child is `z` lies on the trail of `z`. */
  lemma KidOnTrail(root: Root, p: Node, z: Node)
    requires root.Holds() && p in root.nodes && (p.left == z || p.right == z)
    ensures p in Trail(root.tree, StartOf(z))
  {
    var h := Snap(root.nodes);
    NodesAre(root);
    var x, t := Locate(root.tree, Top, p);
    Around(h, x, t);
    Split(h, x, t);
    var u := if p.left == z then t.l else t.r;
    assert u.T? && u.n == z && Fits(h, u, t.n);
    StartInside(h, u, t.n, z);
    TrailPlug(x, t, StartOf(z));
    TrailRoot(t, StartOf(z));
  }

  /** The place where an address belongs. */
  method Search(addr: nat, root: Root) returns (found: bool, parent: Node?, side: Side, ghost x: Ctx)
    requires Indexed(root)
    ensures found <==> exists n :: n in root.nodes && n.address == addr
    ensures !found ==> root.tree == Plug(x, Leaf) && parent == HoleParent(x) && (x.In? ==> side == x.d)
    ensures !found ==> Narrowed(x, AddrsOf(root.nodes), addr)
  {
    hide Plug, Spells, Valid, InOrder, Narrowed, Sorted;
    ghost var t, a := root.tree, AddrsOf(root.nodes);
    var tmp := root.rb_node;
    x, parent, side := Top, null, L;
    StartSearch(root.tree, a, addr);
    while tmp != null
      invariant root.tree == Plug(x, t) && tmp == RootOf(t) && Narrowed(x, a, addr)
      invariant parent == HoleParent(x) && (x.In? ==> side == x.d)
      decreases t
    {
      VictimFields(root, x, t);
      Descend(x, t, a, addr);
      parent := tmp;
      if addr < tmp.address {
        x, t, tmp, side := In(L, t.n, t.c, t.r, x), t.l, tmp.left, L;
      } else if addr > tmp.address {
        x, t, tmp, side := In(R, t.n, t.c, t.l, x), t.r, tmp.right, R;
      } else {
        found := true;
        return;
      }
      PlugDown(x, t);
    }
    found := false;
    forall n | n in root.nodes
      ensures n.address != addr
    {
      NodesAre(root);
      NotFound(x, a, addr, n);
    }
  }

  ghost predicate HasAddress(s: set<Node>, addr: nat)
    reads s
  {
    exists n :: n in s && n.address == addr
  }

  /** Linking a new entry where the search ended keeps the order. */
  method LinkSorted(entry: Node, parent: Node?, side: Side, root: Root, ghost x: Ctx)
    requires Indexed(root) && entry !in root.nodes && root.tree == Plug(x, Leaf) && parent == HoleParent(x)
    requires x.In? ==> side == x.d
    requires Narrowed(x, AddrsOf(root.nodes), entry.address)
    modifies root, root.nodes`left, root.nodes`right, entry`left, entry`right, entry`parent, entry`color
    ensures root.Holds() && root.tree == Plug(x, T(Leaf, entry, Red, Leaf)) && root.nodes == old(root.nodes) + {entry}
    ensures CtxRedBlack(x, 0) && Sorted(InOrder(root.tree), AddrsOf(root.nodes))
    ensures KidsOff(root.nodes, old(Snap(root.nodes)), Opt(HoleParent(x)))
    ensures parent != null ==> parent in root.nodes && (parent.left == entry || parent.right == entry)
  {
    hide Plug, Spells, Valid, InOrder, Narrowed, Sorted, CtxRedBlack;
    ghost var a := AddrsOf(root.nodes);
    Link(entry, parent, side, root, x);
    SortedInsert(x, a, entry, AddrsOf(root.nodes));
  }

  /** rb_insert_color keeps the order. */
  method RebalanceSorted(entry: Node, root: Root, ghost x: Ctx) returns (ghost rotations: nat)
    requires root.Holds() && root.tree == Plug(x, T(Leaf, entry, Red, Leaf)) && CtxRedBlack(x, 0)
    requires entry in root.nodes && Sorted(InOrder(root.tree), AddrsOf(root.nodes))
    modifies root`rb_node, root`tree, root.nodes`left, root.nodes`right, root.nodes`parent, root.nodes`color
    ensures Indexed(root) && rotations <= 2 && KidsOffTrail(root, old(Snap(root.nodes)), entry)
  {
    hide Plug, Spells, Valid, InOrder, Sorted, Trail, CtxRedBlack;
    ghost var a := AddrsOf(root.nodes);
    rotations := InsertColor(entry, root, x);
    assert AddrsOf(root.nodes) == a;
  }

  /** Links at the place found and rebalances. */
  method InsertAt(entry: Node, parent: Node?, side: Side, root: Root, ghost x: Ctx) returns (ghost rotations: nat)
    requires Indexed(root) && entry !in root.nodes && root.tree == Plug(x, Leaf) && parent == HoleParent(x)
    requires x.In? ==> side == x.d
    requires Narrowed(x, AddrsOf(root.nodes), entry.address)
    modifies root, root.nodes`left, root.nodes`right, root.nodes`parent, root.nodes`color
    modifies entry`left, entry`right, entry`parent, entry`color
    ensures Indexed(root) && rotations <= 2 && root.nodes == old(root.nodes) + {entry}
    ensures KidsOffTrail(root, old(Snap(root.nodes)), entry)
  {
    hide Plug, Spells, Valid, InOrder, Narrowed, Sorted, Trail, CtxRedBlack;
    ghost var h0 := Snap(root.nodes);
    LinkSorted(entry, parent, side, root, x);
    ghost var h1 := Snap(root.nodes);
    rotations := RebalanceSorted(entry, root, x);
    OffTrailSinceLink(root, h0, h1, entry, HoleParent(x));
  }

  /** breakpoint_rb_insert_internal. */
  method InsertInternal(entry: Node, root: Root) returns (ret: int, ghost rotations: nat)
    requires Indexed(root) && entry.parent == entry
    modifies root, root.nodes`left, root.nodes`right, root.nodes`parent, root.nodes`color
    modifies entry`left, entry`right, entry`parent, entry`color
    ensures ret == if old(HasAddress(root.nodes, entry.address)) then -1 else 0
    ensures ret == -1 ==> unchanged(root) && unchanged(root.nodes) && unchanged(entry)
    ensures Indexed(root) && rotations <= 2
    ensures ret == 0 ==> entry !in old(root.nodes) && root.nodes == old(root.nodes) + {entry}
    ensures ret == 0 ==> KidsOffTrail(root, old(Snap(root.nodes)), entry)
  {
    hide Plug, Spells, Valid, InOrder, Narrowed, Sorted, Trail;
    var found, parent, side;
    ghost var x;
    found, parent, side, x := Search(entry.address, root);
    if found {
      ret, rotations := -1, 0;
      return;
    }
    if entry in root.nodes {
      LinkedNotEmpty(root, entry);
    }
    rotations := InsertAt(entry, parent, side, root, x);
    ret := 0;
  }

  lemma OffTrailSinceLink(root: Root, h0: Fields, h1: Fields, z: Node, p: Node?)
    requires root.Holds() && KidsOffTrail(root, h1, z)
    requires forall k :: k in h0 ==> k in h1 && (k != p ==> h1[k].left == h0[k].left && h1[k].right == h0[k].right)
    requires p != null ==> p in root.nodes && p in h1 && (h1[p].left == z || h1[p].right == z)
    ensures KidsOffTrail(root, h0, z)
  {
    hide Trail, Spells;
    if p != null && p !in Trail(root.tree, StartOf(z)) {
      KidOnTrail(root, p, z);
    }
  }

  // ---- the index as a finite map ----

  ghost function Map(root: Root): map<nat, Node>
    requires Indexed(root)
    reads root, root.nodes
  {
    NodesAre(root);
    SortedInjective(root.tree, AddrsOf(root.nodes));
    Entries(AddrsOf(root.nodes))
  }

  lemma EntriesAt(a: Addrs, n: Node)
    requires Injective(a) && n in a
    ensures a[n] in Entries(a) && Entries(a)[a[n]] == n
  {
    var m := Entries(a)[a[n]];
    assert m in a && a[m] == a[n];
  }

  lemma MapHas(root: Root, addr: nat)
    requires Indexed(root)
    ensures addr in Map(root) <==> HasAddress(root.nodes, addr)
    ensures forall n :: n in root.nodes ==> n.address in Map(root) && Map(root)[n.address] == n
  {
    hide Spells, Valid, Sorted;
    var a := AddrsOf(root.nodes);
    NodesAre(root);
    SortedInjective(root.tree, a);
    forall n | n in root.nodes
      ensures n.address in Map(root) && Map(root)[n.address] == n
    {
      assert a[n] == n.address;
      EntriesAt(a, n);
    }
  }

  /** breakpoint_rb_find. */
  method FindEntry(addr: nat, root: Root) returns (bp: Node?)
    requires Indexed(root)
    ensures bp == if addr in Map(root) then Map(root)[addr] else null
  {
    ghost var visited;
    bp, visited := Find(addr, root);
    MapHas(root, addr);
  }

  /** `m` maps the addresses of exactly the nodes `s`. */
  ghost predicate Maps(m: map<nat, Node>, s: set<Node>)
    reads s
  {
    && (forall n :: n in s ==> n.address in m && m[n.address] == n)
    && (forall k :: k in m ==> m[k] in s && m[k].address == k)
  }

  lemma MapMaps(root: Root)
    requires Indexed(root)
    ensures Maps(Map(root), root.nodes)
  {
    MapHas(root, 0);
    forall k | k in Map(root)
      ensures Map(root)[k] in root.nodes && Map(root)[k].address == k
    {
      MapHas(root, k);
    }
  }

  lemma MapsUnique(m: map<nat, Node>, m': map<nat, Node>, s: set<Node>)
    requires Maps(m, s) && Maps(m', s)
    ensures m == m'
  {
    assert forall k :: k in m ==> k in m' && m'[k] == m[k];
    assert forall k :: k in m' ==> k in m;
  }

  /** breakpoint_rb_search_insert. */
  method SearchInsert(entry: Node, root: Root) returns (ret: int)
    requires Indexed(root) && (entry.address !in Map(root) ==> entry.parent == entry)
    modifies root, root.nodes`left, root.nodes`right, root.nodes`parent, root.nodes`color
    modifies entry`left, entry`right, entry`parent, entry`color
    ensures Indexed(root)
    ensures ret == if entry.address in old(Map(root)) then -1 else 0
    ensures ret == -1 ==> unchanged(root) && unchanged(root.nodes) && unchanged(entry)
    ensures ret == 0 ==> Map(root) == old(Map(root))[entry.address := entry]
    ensures ret == 0 ==> root.nodes == old(root.nodes) + {entry}
  {
    hide Indexed, KidsOffTrail, Map;
    ghost var m := Map(root);
    MapMaps(root);
    MapHas(root, entry.address);
    var exist := FindEntry(entry.address, root);
    if exist != null {
      return -1;
    }
    ghost var rotations;
    ret, rotations := InsertInternal(entry, root);
    MapMaps(root);
    assert Maps(m[entry.address := entry], root.nodes);
    MapsUnique(Map(root), m[entry.address := entry], root.nodes);
  }

  // ---- deletion ----

  lemma SortedPart(s: seq<Node>, a: Addrs, w: seq<Node>)
    requires Sorted(s, a) && s != [] && Sorted(w, a) && forall i :: 0 <= i < |w| ==> w[i] in s[1..]
    ensures Sorted([s[0]] + w, a)
    ensures forall i :: 0 <= i < |w| ==> w[i] in s
  {
    var t, r := s[1..], [s[0]] + w;
    assert forall i :: 0 <= i < |t| ==> t[i] == s[i + 1];
    forall i | 0 <= i < |w|
      ensures s[0] in a && w[i] in a && a[s[0]] < a[w[i]] && w[i] in s
    {
      assert w[i] in t;
    }
    assert forall i :: 0 < i < |r| ==> r[i] == w[i - 1];
  }

  lemma {:induction false} SortedWithout(s: seq<Node>, a: Addrs, n: Node)
    requires Sorted(s, a)
    ensures Sorted(Without(s, n), a)
    ensures forall i :: 0 <= i < |Without(s, n)| ==> Without(s, n)[i] in s
  {
    if s == [] {
    } else {
      var t := s[1..];
      assert forall i :: 0 <= i < |t| ==> t[i] == s[i + 1];
      SortedWithout(t, a, n);
      var w := Without(t, n);
      assert Without(s, n) == if s[0] == n then w else [s[0]] + w;
      hide Without;
      SortedPart(s, a, w);
    }
  }

  lemma SortedRestrict(s: seq<Node>, a: Addrs, a': Addrs)
    requires Sorted(s, a) && (forall i :: 0 <= i < |s| ==> s[i] in a')
    requires forall k :: k in a' ==> k in a && a'[k] == a[k]
    ensures Sorted(s, a')
  {
  }

  /** Walking the index meets every address once, in strictly increasing order. */
  method WalkAddresses(root: Root) returns (addrs: seq<nat>)
    requires Indexed(root)
    ensures forall i, j :: 0 <= i < j < |addrs| ==> addrs[i] < addrs[j]
    ensures forall a :: a in addrs <==> HasAddress(root.nodes, a)
  {
    hide Valid, InOrder, Spells;
    var visited := Walk(root);
    addrs := [];
    var i := 0;
    while i < |visited|
      invariant 0 <= i <= |visited| && |addrs| == i
      invariant forall k :: 0 <= k < i ==> addrs[k] == visited[k].address
    {
      addrs := addrs + [visited[i].address];
      i := i + 1;
    }
    assert forall i, j :: 0 <= i < j < |addrs| ==> AddrsOf(root.nodes)[visited[i]] < AddrsOf(root.nodes)[visited[j]];
    forall a
      ensures a in addrs <==> HasAddress(root.nodes, a)
    {
      if HasAddress(root.nodes, a) {
        var n :| n in root.nodes && n.address == a;
        var k :| 0 <= k < |visited| && visited[k] == n;
        assert addrs[k] == a;
      }
      if a in addrs {
        var k :| 0 <= k < |addrs| && addrs[k] == a;
        assert visited[k] in visited;
      }
    }
  }

  /** breakpoint_rb_delete_internal. */
  method DeleteInternal(addr: nat, root: Root) returns (bp: Node?)
    requires Indexed(root)
    modifies root, root.nodes`left, root.nodes`right, root.nodes`parent, root.nodes`color
    ensures Indexed(root)
    ensures bp == if addr in old(Map(root)) then old(Map(root))[addr] else null
    ensures bp == null ==> unchanged(root) && unchanged(old(root.nodes))
    ensures bp != null ==> bp.parent == bp && Map(root) == old(Map(root)) - {addr}
    ensures bp != null ==> root.nodes == old(root.nodes) - {bp}
  {
    hide Map, Indexed;
    ghost var m := Map(root);
    MapMaps(root);
    bp := FindEntry(addr, root);
    if bp == null {
      return;
    }
    EraseIndexed(bp, root);
    MapMaps(root);
    ClearNode(bp, root);
    assert Maps(m - {addr}, root.nodes);
    MapsUnique(Map(root), m - {addr}, root.nodes);
  }

  /** rb_erase keeps the index. */
  method EraseIndexed(node: Node, root: Root)
    requires Indexed(root) && node in root.nodes
    modifies root, root.nodes`left, root.nodes`right, root.nodes`parent, root.nodes`color
    ensures Indexed(root) && root.nodes == old(root.nodes) - {node}
  {
    hide Plug, Spells, Valid, InOrder, Without, Trail, Sorted, DeepestAt;
    ghost var a, s := AddrsOf(root.nodes), InOrder(root.tree);
    NodesAre(root);
    ghost var x, t := Locate(root.tree, Top, node);
    StartSearch(root.tree, a, 0);
    ghost var rotations := Erase(node, root, x, t);
    SortedWithout(s, a, node);
    NodesAre(root);
    InOrderNodes(root.tree);
    SortedRestrict(InOrder(root.tree), a, AddrsOf(root.nodes));
  }

  /** RB_CLEAR_NODE on a node that has left the tree. */
  method ClearNode(node: Node, root: Root)
    requires Indexed(root) && node !in root.nodes
    modifies node`parent
    ensures node.parent == node && Indexed(root) && Map(root) == old(Map(root))
  {
    node.parent := node;
    assert Snap(root.nodes) == old(Snap(root.nodes));
    assert AddrsOf(root.nodes) == old(AddrsOf(root.nodes));
  }

  // ---- sequences of calls ----

  /** A call on the index; `addr` is the address of the entry to be inserted. */
  datatype Op = FindOp(addr: nat) | InsertOp(entry: Node, addr: nat) | DeleteOp(addr: nat)

  /** What it returns. */
  datatype Reply = Entry(n: Node?) | Code(ret: int)

  function Lookup(m: map<nat, Node>, addr: nat): Node? {
    if addr in m then m[addr] else null
  }

  /** What the call does to a finite map. */
  function Effect(m: map<nat, Node>, op: Op): (map<nat, Node>, Reply) {
    match op
    case FindOp(addr) => (m, Entry(Lookup(m, addr)))
    case InsertOp(entry, addr) => if addr in m then (m, Code(-1)) else (m[addr := entry], Code(0))
    case DeleteOp(addr) => (m - {addr}, Entry(Lookup(m, addr)))
  }

  /** The map after the first `n` calls, and their replies. */
  function Effects(m: map<nat, Node>, ops: seq<Op>, n: nat): (map<nat, Node>, seq<Reply>)
    requires n <= |ops|
  {
    if n == 0 then (m, [])
    else
      var (before, replies) := Effects(m, ops, n - 1);
      var (after, reply) := Effect(before, ops[n - 1]);
      (after, replies + [reply])
  }

  /** The entries that the calls may insert. */
  function Inserted(ops: seq<Op>): set<Node> {
    set i | 0 <= i < |ops| && ops[i].InsertOp? :: ops[i].entry
  }

  /** An entry is in the tree, or RB_EMPTY_NODE holds of it. */
  ghost predicate Ready(root: Root, e: Node)
    reads root, e
  {
    e in root.nodes || e.parent == e
  }

  /** One call. */
  method Do(op: Op, root: Root, ghost others: set<Node>) returns (reply: Reply)
    requires Indexed(root) && (op.InsertOp? ==> op.entry in others && op.entry.address == op.addr)
    requires forall e :: e in others ==> Ready(root, e)
    modifies root, (root.nodes + others)`left, (root.nodes + others)`right, (root.nodes + others)`parent
    modifies (root.nodes + others)`color
    ensures Indexed(root) && (Map(root), reply) == Effect(old(Map(root)), op)
    ensures root.nodes <= old(root.nodes) + others
    ensures forall e :: e in others + old(root.nodes) ==> Ready(root, e)
  {
    hide Indexed, Map;
    match op
    case FindOp(addr) =>
      var n := FindEntry(addr, root);
      reply := Entry(n);
    case InsertOp(entry, addr) =>
      if entry in root.nodes {
        MapMaps(root);
      }
      var ret := SearchInsert(entry, root);
      reply := Code(ret);
    case DeleteOp(addr) =>
      var n := DeleteInternal(addr, root);
      if n == null {
        assert Map(root) - {addr} == Map(root);
      }
      reply := Entry(n);
  }

  /** Any sequence of find, insert and delete calls does what it does to a finite map, entries that were deleted
      being inserted again or not. */
  method DoAll(ops: seq<Op>, root: Root) returns (replies: seq<Reply>)
    requires Indexed(root)
    requires forall i :: 0 <= i < |ops| && ops[i].InsertOp? ==> ops[i].entry.address == ops[i].addr
    requires forall e :: e in Inserted(ops) ==> Ready(root, e)
    modifies root, (root.nodes + Inserted(ops))`left, (root.nodes + Inserted(ops))`right
    modifies (root.nodes + Inserted(ops))`parent, (root.nodes + Inserted(ops))`color
    ensures Indexed(root) && (Map(root), replies) == Effects(old(Map(root)), ops, |ops|)
  {
    hide Indexed, Map;
    ghost var others := Inserted(ops) + root.nodes;
    var i := 0;
    replies := [];
    while i < |ops|
      invariant 0 <= i <= |ops| && Indexed(root) && root.nodes <= others
      invariant forall e :: e in others ==> Ready(root, e)
      invariant (Map(root), replies) == Effects(old(Map(root)), ops, i)
    {
      assert ops[i].InsertOp? ==> ops[i].entry in Inserted(ops);
      var reply := Do(ops[i], root, others);
      replies := replies + [reply];
      i := i + 1;
    }
  }
}
