/** The circular doubly linked lists of list.h. */
module List {
  import opened Common

  class Link {
    var next: Link
    var prev: Link

    /** INIT_LIST_HEAD on a new entry */
    constructor ()
      ensures next == this && prev == this
    {
      next, prev := this, this;
    }
  }

  predicate Apart(a: seq<Link>, b: seq<Link>) {
    forall i, j :: 0 <= i < |a| && 0 <= j < |b| ==> a[i] != b[j]
  }

  lemma NoDupCat(a: seq<Link>, b: seq<Link>)
    ensures NoDup(a + b) <==> NoDup(a) && NoDup(b) && Apart(a, b)
  {
    var s := a + b;
    if NoDup(s) {
      forall i, j | 0 <= i < |a| && 0 <= j < |b| ensures a[i] != b[j] {
        assert s[i] == a[i] && s[|a| + j] == b[j];
      }
      forall i, j | 0 <= i < j < |b| ensures b[i] != b[j] {
        assert s[|a| + i] == b[i] && s[|a| + j] == b[j];
      }
      forall i, j | 0 <= i < j < |a| ensures a[i] != a[j] {
        assert s[i] == a[i] && s[j] == a[j];
      }
    }
  }

  lemma ApartCat(a: seq<Link>, b: seq<Link>, c: seq<Link>)
    ensures Apart(a + b, c) <==> Apart(a, c) && Apart(b, c)
    ensures Apart(c, a + b) <==> Apart(c, a) && Apart(c, b)
  {
    var s := a + b;
    assert forall i :: 0 <= i < |a| ==> s[i] == a[i];
    assert forall i :: 0 <= i < |b| ==> s[|a| + i] == b[i];
  }

  lemma HeadNotIn(head: Link, es: seq<Link>)
    requires NoDup([head] + es)
    ensures head !in es
  {
    var s := [head] + es;
    assert s[0] == head && forall i :: 0 <= i < |es| ==> s[i + 1] == es[i];
  }

  lemma NotInApart(head: Link, es: seq<Link>, other: seq<Link>)
    requires Apart([head] + es, other)
    ensures head !in other
  {
    assert ([head] + es)[0] == head;
  }

  /** The middle part may be left out or moved in front. */
  lemma NoDupShuffle(a: seq<Link>, m: seq<Link>, b: seq<Link>)
    requires NoDup(a + m + b)
    ensures NoDup(a + b) && NoDup(m + (a + b)) && NoDup(m)
  {
    NoDupCat(a + m, b);
    NoDupCat(a, m);
    NoDupCat(a, b);
    NoDupCat(m, a + b);
    ApartCat(a, m, b);
    ApartCat(a, b, m);
  }

  function After(s: seq<Link>, i: nat): Link
    requires i < |s|
  {
    if i + 1 == |s| then s[0] else s[i + 1]
  }

  function Before(s: seq<Link>, i: nat): Link
    requires i < |s|
  {
    if i == 0 then s[|s| - 1] else s[i - 1]
  }

  /** The links of entry `i` lead to its neighbours. */
  predicate Joined(s: seq<Link>, i: nat)
    requires i < |s|
    reads s[i]
  {
    s[i].next == After(s, i) && s[i].prev == Before(s, i)
  }

  /** The entries of `s` form a ring, in this order; a list with head `h` and elements `es` is Ring([h] + es). */
  predicate Ring(s: seq<Link>)
    reads s
  {
    && NoDup(s)
    && forall i :: 0 <= i < |s| ==> Joined(s, i)
  }

  /** A ring may be read from any of its entries. */
  lemma Turn(a: seq<Link>, b: seq<Link>)
    requires Ring(a + b)
    ensures Ring(b + a)
  {
    assert NoDup(b + a) by {
      NoDupCat(a, b);
      NoDupCat(b, a);
    }
    var s, t := a + b, b + a;
    forall i | 0 <= i < |t| ensures Joined(t, i) {
      var k := if i < |b| then i + |a| else i - |b|;
      assert t[i] == s[k] && Joined(s, k);
    }
  }

  // ---- the internal functions: only the fields they write ----

  /** __list_add */
  method AddBetween(x: Link, prev: Link, next: Link)
    requires x != prev && x != next
    modifies x, prev, next
    ensures x.next == next && x.prev == prev && prev.next == x && next.prev == x
    ensures prev != next ==> prev.prev == old(prev.prev) && next.next == old(next.next)
  {
    next.prev := x;
    x.next := next;
    x.prev := prev;
    prev.next := x;
  }

  /** __list_del */
  method Bypass(prev: Link, next: Link)
    modifies prev, next
    ensures next.prev == prev && prev.next == next
    ensures prev != next ==> prev.prev == old(prev.prev) && next.next == old(next.next)
  {
    next.prev := prev;
    prev.next := next;
  }

  /** INIT_LIST_HEAD */
  method Init(x: Link)
    modifies x
    ensures Ring([x])
  {
    x.next := x;
    x.prev := x;
  }

  // ---- adding and deleting ----

  /** list_add */
  method Add(x: Link, head: Link, ghost es: seq<Link>)
    requires Ring([head] + es) && x !in [head] + es
    modifies x, head, head.next
    ensures Ring([head, x] + es)
  {
    ghost var s, t := [head] + es, [head, x] + es;
    assert Joined(s, 0);
    assert head.next == After(s, 0);
    AddBetween(x, head, head.next);
    assert NoDup(t) by {
      NoDupCat([head], es);
      NoDupCat([head, x], es);
    }
    forall i | 0 <= i < |t| ensures Joined(t, i) {
      assert i >= 2 ==> t[i] == s[i - 1] && old(Joined(s, i - 1));
    }
  }

  /** list_add_tail */
  method AddTail(x: Link, head: Link, ghost es: seq<Link>)
    requires Ring([head] + es) && x !in [head] + es
    modifies x, head, head.prev
    ensures Ring([head] + es + [x])
  {
    ghost var s, t := [head] + es, [head] + es + [x];
    assert Joined(s, 0);
    AddBetween(x, head.prev, head);
    NoDupCat(s, [x]);
    forall i | 0 <= i < |t| ensures Joined(t, i) {
      assert i < |s| ==> t[i] == s[i] && old(Joined(s, i));
    }
  }

  /** list_del and list_del_init */
  method Del(entry: Link, ghost a: seq<Link>, ghost b: seq<Link>)
    requires Ring(a + [entry] + b)
    modifies entry, entry.prev, entry.next
    ensures Ring(a + b) && Ring([entry])
  {
    Unlink(entry, a, b);
    EntryApart(entry, a, b);
    Init(entry);
  }

  /** The first step of list_del and list_move: the rest of the ring closes. */
  method Unlink(entry: Link, ghost a: seq<Link>, ghost b: seq<Link>)
    requires Ring(a + [entry] + b)
    modifies entry.prev, entry.next
    ensures Ring(a + b)
    ensures a + b == [] ==> Ring([entry])
  {
    ghost var s, t, k := a + [entry] + b, a + b, |a|;
    assert s[k] == entry && Joined(s, k);
    NoDupShuffle(a, [entry], b);
    Bypass(entry.prev, entry.next);
    forall i | 0 <= i < |t| ensures Joined(t, i) {
      var j := if i < k then i else i + 1;
      assert t[i] == s[j] && old(Joined(s, j));
    }
  }

  lemma EntryApart(entry: Link, a: seq<Link>, b: seq<Link>)
    requires NoDup(a + [entry] + b)
    ensures entry !in a + b
  {
    NoDupShuffle(a, [entry], b);
    assert ([entry] + (a + b))[0] == entry;
    assert forall i :: 0 <= i < |a + b| ==> ([entry] + (a + b))[i + 1] == (a + b)[i];
  }

  // ---- replacing ----

  /** list_replace, which also works for an empty head: that one ends up in a ring of its own */
  method Replace(old_: Link, new_: Link, ghost es: seq<Link>)
    requires Ring([old_] + es) && new_ !in [old_] + es
    modifies new_, old_.next, old_.prev
    ensures Ring([new_] + es)
    ensures es != [] ==> old_.next == old(old_.next) && old_.prev == old(old_.prev)
    ensures es == [] ==> old_.next == old_ && old_.prev == new_
  {
    ghost var s, t := [old_] + es, [new_] + es;
    assert Joined(s, 0);
    NoDupCat([old_], es);
    NoDupCat([new_], es);
    new_.next := old_.next;
    new_.next.prev := new_;
    new_.prev := old_.prev;
    new_.prev.next := new_;
    forall i | 0 <= i < |t| ensures Joined(t, i) {
      assert i > 0 ==> t[i] == s[i] && old(Joined(s, i));
    }
  }

  /** list_replace_init */
  method ReplaceInit(old_: Link, new_: Link, ghost es: seq<Link>)
    requires Ring([old_] + es) && new_ !in [old_] + es
    modifies old_, new_, old_.next, old_.prev
    ensures Ring([new_] + es) && Ring([old_])
  {
    ghost var t := [new_] + es;
    assert old_ !in t by { HeadNotIn(old_, es); }
    Replace(old_, new_, es);
    Init(old_);
  }

  // ---- moving ----

  /** list_move within one list: the head is followed by `a`, the entry and `b` */
  method Move(x: Link, head: Link, ghost a: seq<Link>, ghost b: seq<Link>)
    requires Ring([head] + a + [x] + b)
    modifies x, x.prev, x.next, head, head.next
    ensures Ring([head, x] + (a + b))
  {
    ghost var es, s := a + b, [head] + a + [x] + b;
    Unlink(x, [head] + a, b);
    EntryApart(x, [head] + a, b);
    assert [head] + a + b == [head] + es;
    assert head.next == old(head.next) || head.next == old(x.next) by {
      assert Joined([head] + es, 0) && old(Joined(s, 0)) && old(Joined(s, |a| + 1));
    }
    Add(x, head, es);
  }

  /** list_move from one list to another */
  method MoveAcross(x: Link, head: Link, ghost a: seq<Link>, ghost b: seq<Link>, ghost es: seq<Link>)
    requires Ring(a + [x] + b) && Ring([head] + es) && Apart(a + [x] + b, [head] + es)
    modifies x, x.prev, x.next, head, head.next
    ensures Ring(a + b) && Ring([head, x] + es)
  {
    Elsewhere(x, a, b, [head] + es);
    Unlink(x, a, b);
    EntryApart(x, a, b);
    assert Apart(a + b, [head] + es) by {
      ApartCat(a + [x], b, [head] + es);
      ApartCat(a, [x], [head] + es);
      ApartCat(a, b, [head] + es);
    }
    HeadElsewhere(head, es, a + b);
    Add(x, head, es);
  }

  /** The neighbours of an entry lie outside another list. */
  lemma Elsewhere(x: Link, a: seq<Link>, b: seq<Link>, other: seq<Link>)
    requires Ring(a + [x] + b) && Apart(a + [x] + b, other)
    ensures x !in other && x.prev !in other && x.next !in other
  {
    var s := a + [x] + b;
    assert s[|a|] == x && Joined(s, |a|);
  }

  lemma HeadElsewhere(head: Link, es: seq<Link>, other: seq<Link>)
    requires Ring([head] + es) && Apart(other, [head] + es)
    ensures head !in other && head.next !in other && head.prev !in other
  {
    var s := [head] + es;
    assert s[0] == head && Joined(s, 0);
  }

  /** list_move_tail within one list */
  method MoveTail(x: Link, head: Link, ghost a: seq<Link>, ghost b: seq<Link>)
    requires Ring([head] + a + [x] + b)
    modifies x, x.prev, x.next, head, head.prev, head.next
    ensures Ring([head] + (a + b) + [x])
  {
    ghost var es, s := a + b, [head] + a + [x] + b;
    Unlink(x, [head] + a, b);
    EntryApart(x, [head] + a, b);
    assert [head] + a + b == [head] + es;
    assert head.prev == old(head.prev) || head.prev == old(x.prev) by {
      assert Joined([head] + es, 0) && old(Joined(s, 0)) && old(Joined(s, |a| + 1));
    }
    AddTail(x, head, es);
  }

  /** list_move_tail from one list to another */
  method MoveTailAcross(x: Link, head: Link, ghost a: seq<Link>, ghost b: seq<Link>, ghost es: seq<Link>)
    requires Ring(a + [x] + b) && Ring([head] + es) && Apart(a + [x] + b, [head] + es)
    modifies x, x.prev, x.next, head, head.prev
    ensures Ring(a + b) && Ring([head] + es + [x])
  {
    Elsewhere(x, a, b, [head] + es);
    Unlink(x, a, b);
    EntryApart(x, a, b);
    assert Apart(a + b, [head] + es) by {
      ApartCat(a + [x], b, [head] + es);
      ApartCat(a, [x], [head] + es);
      ApartCat(a, b, [head] + es);
    }
    HeadElsewhere(head, es, a + b);
    AddTail(x, head, es);
  }

  // ---- tests ----

  /** list_empty */
  method Empty(head: Link, ghost es: seq<Link>) returns (r: bool)
    requires Ring([head] + es)
    ensures r <==> es == []
  {
    assert Joined([head] + es, 0);
    r := head.next == head;
  }

  /** list_empty_careful */
  method EmptyCareful(head: Link, ghost es: seq<Link>) returns (r: bool)
    requires Ring([head] + es)
    ensures r <==> es == []
  {
    assert Joined([head] + es, 0);
    var next := head.next;
    r := next == head && next == head.prev;
  }

  /** list_is_last */
  method IsLast(x: Link, head: Link, ghost a: seq<Link>, ghost b: seq<Link>) returns (r: bool)
    requires Ring([head] + a + [x] + b)
    ensures r <==> b == []
  {
    ghost var s := [head] + a + [x] + b;
    assert s[|a| + 1] == x && Joined(s, |a| + 1);
    assert b != [] ==> s[|a| + 2] == b[0] && s[0] != s[|a| + 2];
    r := x.next == head;
  }

  /** list_for_each: the entries in order, each once */
  method Walk(head: Link, ghost es: seq<Link>) returns (visited: seq<Link>)
    requires Ring([head] + es)
    ensures visited == es
  {
    ghost var s := [head] + es;
    assert Joined(s, 0);
    visited := [];
    var pos := head.next;
    while pos != head
      invariant |visited| <= |es| && visited == es[..|visited|]
      invariant pos == After(s, |visited|)
      decreases |es| - |visited|
    {
      assert Joined(s, |visited| + 1);
      visited := visited + [pos];
      pos := pos.next;
    }
    assert es[..|es|] == es;
  }

  // ---- splicing ----

  /** __list_splice of a list that is not empty */
  method SpliceLinks(list: Link, head: Link, ghost a: seq<Link>, ghost b: seq<Link>)
    requires Ring([list] + a) && Ring([head] + b) && Apart([list] + a, [head] + b) && a != []
    modifies list.next, list.prev, head, head.next
    ensures Ring([head] + a + b)
  {
    ghost var s, q, t := [list] + a, [head] + b, [head] + a + b;
    assert Joined(s, 0) && Joined(q, 0);
    SpliceNoDup(list, head, a, b);
    var first := list.next;
    var last := list.prev;
    var at := head.next;
    first.prev := head;
    head.next := first;
    last.next := at;
    at.prev := last;
    forall i | 0 <= i < |t| ensures Joined(t, i) {
      if 0 < i <= |a| {
        assert t[i] == s[i] && old(Joined(s, i));
      } else if i > |a| {
        assert t[i] == q[i - |a|] && old(Joined(q, i - |a|));
      }
    }
  }

  lemma SpliceNoDup(list: Link, head: Link, a: seq<Link>, b: seq<Link>)
    requires NoDup([list] + a) && NoDup([head] + b) && Apart([list] + a, [head] + b)
    ensures NoDup([head] + a + b) && list !in [head] + a + b
  {
    NotInApart(list, a, [head] + b);
    HeadNotIn(list, a);
    NoDupCat([list], a);
    NoDupCat([head], b);
    ApartCat([list], a, [head] + b);
    ApartCat([head], b, a);
    NoDupCat([head], a);
    NoDupCat([head] + a, b);
    ApartCat([head], a, b);
  }

  /** list_splice: the spliced elements come first, in their order */
  method Splice(list: Link, head: Link, ghost a: seq<Link>, ghost b: seq<Link>)
    requires Ring([list] + a) && Ring([head] + b) && Apart([list] + a, [head] + b)
    modifies list.next, list.prev, head, head.next
    ensures Ring([head] + a + b) && (a == [] ==> Ring([list]))
  {
    var empty := Empty(list, a);
    if !empty {
      SpliceLinks(list, head, a, b);
    } else {
      assert [head] + a + b == [head] + b;
      assert [list] + a == [list];
    }
  }

  /** list_splice_init */
  method SpliceInit(list: Link, head: Link, ghost a: seq<Link>, ghost b: seq<Link>)
    requires Ring([list] + a) && Ring([head] + b) && Apart([list] + a, [head] + b)
    modifies list, list.next, list.prev, head, head.next
    ensures Ring([head] + a + b) && Ring([list])
  {
    var empty := Empty(list, a);
    if !empty {
      assert list !in [head] + a + b by { SpliceNoDup(list, head, a, b); }
      SpliceLinks(list, head, a, b);
      Init(list);
    } else {
      assert [head] + a + b == [head] + b;
      assert [list] + a == [list];
    }
  }
}
