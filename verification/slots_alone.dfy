/** slot_alloc by one thread while no other call is under way: the steps of the concurrent allocator run through and do
    what the sequential one does. */
module SlotsAlone {
  import opened Common
  import opened Slots
  import opened SlotsConcurrent
  import L = Lifecycle

  /** A run of `t` alone from `s` to `s'`. */
  ghost predicate Alone(tr: seq<State>, t: Tid, s: State, s': State) {
    |tr| > 0 && tr[0] == s && tr[|tr| - 1] == s' && forall i :: 0 <= i < |tr| - 1 ==> Step(tr[i], t, tr[i + 1])
  }

  lemma AloneJoins(a: seq<State>, b: seq<State>, t: Tid, s: State, m: State, s': State) returns (tr: seq<State>)
    requires Alone(a, t, s, m) && Alone(b, t, m, s')
    ensures Alone(tr, t, s, s')
  {
    hide Step;
    tr := a + b[1..];
    forall i | 0 <= i < |tr| - 1
      ensures Step(tr[i], t, tr[i + 1])
    {
      if i < |a| - 1 {
        assert tr[i] == a[i] && tr[i + 1] == a[i + 1];
      } else {
        assert tr[i] == b[i - (|a| - 1)] && tr[i + 1] == b[i + 1 - (|a| - 1)];
      }
    }
  }

  lemma AloneOne(t: Tid, s: State, s': State) returns (tr: seq<State>)
    requires Step(s, t, s')
    ensures Alone(tr, t, s, s')
  {
    tr := [s, s'];
  }

  lemma AloneThree(t: Tid, s: State, s1: State, s2: State, s3: State) returns (tr: seq<State>)
    requires Step(s, t, s1) && Step(s1, t, s2) && Step(s2, t, s3)
    ensures Alone(tr, t, s, s3)
  {
    hide Step;
    tr := [s, s1, s2, s3];
  }

  /** No call is under way but that of `t`. */
  predicate Quiet(s: State, t: Tid) {
    && t in s.pc && s.writer.None? && s.readers <= {t}
    && (forall p :: p in s.pages ==> s.pages[p].holder.None?)
    && (forall i :: 0 <= i < |s.list| ==> s.list[i] in s.pages)
  }

  /** A full set is passed and left as it was. */
  lemma PassOne(s: State, t: Tid, i: nat) returns (tr: seq<State>)
    requires Quiet(s, t) && s.pc[t] == Walk(i) && i < |s.list| && s.pages[s.list[i]].used == SLOT_NUM
    ensures Alone(tr, t, s, Goto(s, t, Walk(i + 1)))
  {
    var p := s.list[i];
    var s1 := Goto(SetPage(s, p, s.pages[p].(holder := Some(t))), t, Locked(i, p));
    var s2 := Goto(SetPage(s1, p, s1.pages[p].(holder := None)), t, Walk(i + 1));
    assert TakeMutex(s, t, s1) && SkipFull(s1, t, s2);
    assert s2.pages == s.pages && s2.pc == s.pc[t := Walk(i + 1)];
    tr := [s, s1, s2];
  }

  lemma {:induction false} PassFull(s: State, t: Tid, i: nat, n: nat) returns (tr: seq<State>)
    requires Quiet(s, t) && s.pc[t] == Walk(i) && i <= n <= |s.list|
    requires forall j :: i <= j < n ==> s.pages[s.list[j]].used == SLOT_NUM
    ensures Alone(tr, t, s, Goto(s, t, Walk(n)))
    decreases n - i
  {
    if i == n {
      assert Goto(s, t, Walk(n)) == s;
      tr := [s];
    } else {
      var a := PassOne(s, t, i);
      var m := Goto(s, t, Walk(i + 1));
      var b := PassFull(m, t, i + 1, n);
      assert Goto(m, t, Walk(n)) == Goto(s, t, Walk(n));
      hide Alone;
      tr := AloneJoins(a, b, t, s, m, Goto(s, t, Walk(n)));
    }
  }

  /** The state once slot `k` of set `p` is handed out to `t`. */
  function Given(s: State, t: Tid, p: PageId, k: nat): State
    requires p in s.pages
  {
    State(s.pages[p := Page(s.pages[p].free - {k}, s.pages[p].used + 1, None)], s.list, s.readers - {t}, s.writer,
          s.pc[t := Idle], s.place[(p, k) := HandedOut], s.log + [Alloc((p, k))])
  }

  /** The lowest slot of a set that is not full is found. */
  lemma FindOne(s: State, t: Tid, i: nat, k: nat) returns (tr: seq<State>)
    requires Quiet(s, t) && s.pc[t] == Walk(i) && i < |s.list| && s.pages[s.list[i]].used != SLOT_NUM
    requires IsMin(s.pages[s.list[i]].free, k)
    ensures var p := s.list[i];
      Alone(tr, t, s, s.(pages := s.pages[p := s.pages[p].(holder := Some(t))], pc := s.pc[t := Claim(p, k)],
                         readers := s.readers - {t}))
  {
    hide IsMin;
    var p := s.list[i];
    var s1 := Goto(SetPage(s, p, s.pages[p].(holder := Some(t))), t, Locked(i, p));
    var s2 := Goto(s1, t, Found(p, k));
    var s3 := Goto(s2, t, Claim(p, k)).(readers := s2.readers - {t});
    assert TakeMutex(s, t, s1) && FindSlot(s1, t, s2) && DropReadLock(s2, t, s3);
    assert s3.pc == s.pc[t := Claim(p, k)];
    tr := AloneThree(t, s, s1, s2, s3);
  }

  /** It is cleared in the bitmap, counted and returned. */
  lemma TakeOne(s: State, t: Tid, p: PageId, k: nat) returns (tr: seq<State>)
    requires t in s.pc && s.pc[t] == Claim(p, k) && p in s.pages
    ensures Alone(tr, t, s, Given(s, t, p, k).(readers := s.readers))
  {
    var g := s.pages[p];
    var s1 := Goto(SetPage(s, p, g.(free := g.free - {k})), t, Count(p, k)).(place := s.place[(p, k) := Moving(t)]);
    var s2 := Goto(SetPage(s1, p, s1.pages[p].(used := g.used + 1)), t, Release(p, k));
    var s3 := Goto(SetPage(s2, p, s2.pages[p].(holder := None)), t, Idle)
      .(place := s2.place[(p, k) := HandedOut], log := s2.log + [Alloc((p, k))]);
    assert ClearSlot(s, t, s1) && CountUp(s1, t, s2) && Return(s2, t, s3);
    assert s3.pages == Given(s, t, p, k).pages && s3.pc == s.pc[t := Idle];
    assert s3.place == s.place[(p, k) := HandedOut];
    tr := AloneThree(t, s, s1, s2, s3);
  }

  lemma TakeFrom(s: State, t: Tid, i: nat, k: nat) returns (tr: seq<State>)
    requires Quiet(s, t) && s.pc[t] == Walk(i) && i < |s.list| && s.pages[s.list[i]].used != SLOT_NUM
    requires IsMin(s.pages[s.list[i]].free, k)
    ensures Alone(tr, t, s, Given(s, t, s.list[i], k))
  {
    hide IsMin;
    var p := s.list[i];
    var a := FindOne(s, t, i, k);
    hide Alone;
    var m := s.(pages := s.pages[p := s.pages[p].(holder := Some(t))], pc := s.pc[t := Claim(p, k)],
                readers := s.readers - {t});
    var b := TakeOne(m, t, p, k);
    var last := Given(m, t, p, k).(readers := m.readers);
    assert last.pages == Given(s, t, p, k).pages && last.pc == Given(s, t, p, k).pc;
    tr := AloneJoins(a, b, t, s, m, last);
  }

  /** The state once `t` has added the set `p`. */
  function Grown(s: State, t: Tid, p: PageId): State {
    s.(pages := s.pages[p := Page(Upto(SLOT_NUM), 0, None)], list := [p] + s.list, readers := {t},
       pc := s.pc[t := Walk(0)], place := s.place + NewPlaces(p))
  }

  lemma GiveUpThen(s: State, t: Tid, p: PageId) returns (tr: seq<State>)
    requires Quiet(s, t) && s.pc[t] == Walk(|s.list|) && p !in s.pages
    ensures Alone(tr, t, s, s.(pc := s.pc[t := Link(p)], readers := {}, writer := Some(t)))
  {
    var s1 := Goto(s, t, Full);
    var s2 := Goto(s1, t, Grow).(readers := s1.readers - {t});
    var s3 := Goto(s2, t, Link(p)).(writer := Some(t));
    assert s2.readers == {};
    assert ReachEnd(s, t, s1) && GiveUp(s1, t, s2) && TakeWriteLock(s2, t, s3);
    assert s3.pc == s.pc[t := Link(p)];
    tr := AloneThree(t, s, s1, s2, s3);
  }

  lemma LinkThen(s: State, t: Tid, p: PageId) returns (tr: seq<State>)
    requires t in s.pc && s.pc[t] == Link(p) && s.readers == {} && s.writer == Some(t)
    ensures Alone(tr, t, s, Grown(s, t, p).(writer := None))
  {
    hide Upto, NewPlaces;
    var s1 := Goto(SetPage(s, p, Page(Upto(SLOT_NUM), 0, None)), t, Linked)
      .(list := [p] + s.list, place := s.place + NewPlaces(p));
    var s2 := Goto(s1, t, Retry).(writer := None);
    var s3 := Goto(s2, t, Walk(0)).(readers := s2.readers + {t});
    assert AddSet(s, t, s1) && DropWriteLock(s1, t, s2) && TakeReadLock(s2, t, s3);
    assert s3.pc == s.pc[t := Walk(0)] && s3.readers == {t};
    tr := AloneThree(t, s, s1, s2, s3);
  }

  /** If all sets are full a new one is linked and the scan starts again. */
  lemma Grows(s: State, t: Tid, p: PageId) returns (tr: seq<State>)
    requires Quiet(s, t) && s.pc[t] == Walk(|s.list|) && p !in s.pages
    ensures Alone(tr, t, s, Grown(s, t, p)) && Quiet(Grown(s, t, p), t)
  {
    hide Upto, NewPlaces;
    var a := GiveUpThen(s, t, p);
    var m := s.(pc := s.pc[t := Link(p)], readers := {}, writer := Some(t));
    var b := LinkThen(m, t, p);
    assert Grown(m, t, p).(writer := None) == Grown(s, t, p);
    hide Alone;
    tr := AloneJoins(a, b, t, s, m, Grown(s, t, p));
  }

  /** The sets as the sequential allocator sees them, if mmap put them at `base`. */
  ghost function Pool(s: State, base: PageId -> nat): L.Pool
    requires forall i :: 0 <= i < |s.list| ==> s.list[i] in s.pages
  {
    seq(|s.list|, i requires 0 <= i < |s.list| => L.Page(base(s.list[i]), s.pages[s.list[i]].free))
  }

  /** Full sets are those without a free slot. */
  lemma FullOrFree(s: State)
    requires Inv(s) && (forall p :: p in s.pages ==> s.pages[p].holder.None?)
    ensures forall p :: p in s.pages ==> (s.pages[p].used == SLOT_NUM <==> s.pages[p].free == {})
  {
    hide SlotOk, Upto;
    forall p | p in s.pages
      ensures s.pages[p].used == SLOT_NUM <==> s.pages[p].free == {}
    {
      assert PageOk(s, p);
    }
  }

  /** A call begins and takes the read lock. */
  lemma Begins(s: State, t: Tid) returns (tr: seq<State>)
    requires t in s.pc && s.pc[t].Idle? && s.readers == {} && s.writer.None?
    ensures Alone(tr, t, s, s.(pc := s.pc[t := Walk(0)], readers := {t}))
  {
    var s1 := Goto(s, t, Retry);
    var s2 := Goto(s1, t, Walk(0)).(readers := s1.readers + {t});
    assert CallAlloc(s, t, s1) && TakeReadLock(s1, t, s2);
    assert s2 == s.(pc := s.pc[t := Walk(0)], readers := {t});
    tr := [s, s1, s2];
  }

  /** It passes the first `n` sets, which are full. */
  lemma ComesTo(s: State, t: Tid, n: nat) returns (tr: seq<State>)
    requires Quiet(s, t) && s.pc[t].Idle? && s.readers == {} && n <= |s.list|
    requires forall j :: 0 <= j < n ==> s.pages[s.list[j]].used == SLOT_NUM
    ensures Alone(tr, t, s, s.(pc := s.pc[t := Walk(n)], readers := {t}))
  {
    var m := s.(pc := s.pc[t := Walk(0)], readers := {t});
    var a := Begins(s, t);
    var b := PassFull(m, t, 0, n);
    hide Alone;
    assert Goto(m, t, Walk(n)) == s.(pc := s.pc[t := Walk(n)], readers := {t});
    tr := AloneJoins(a, b, t, s, m, Goto(m, t, Walk(n)));
  }

  /** What the call leaves and returns. */
  ghost predicate Served(s: State, t: Tid, s': State, q: Slot, fresh_set: PageId, base: PageId -> nat)
    requires forall i :: 0 <= i < |s.list| ==> s.list[i] in s.pages
  {
    && t in s'.pc && s'.pc[t].Idle? && s'.log == s.log + [Alloc(q)] && Has(s', q, HandedOut)
    && (forall i :: 0 <= i < |s'.list| ==> s'.list[i] in s'.pages)
    && (Pool(s', base), SlotAddress(base(q.0), q.1)) == L.Allocate(Pool(s, base), base(fresh_set))
  }

  lemma FromOpen(s: State, t: Tid, n: nat, fresh_set: PageId, base: PageId -> nat)
    returns (tr: seq<State>, s': State, q: Slot)
    requires Quiet(s, t) && s.pc[t].Idle? && s.readers == {} && NoDup(s.list)
    requires forall p :: p in s.pages ==> (s.pages[p].used == SLOT_NUM <==> s.pages[p].free == {})
    requires n == L.FirstOpen(Pool(s, base)) && n < |s.list|
    ensures Alone(tr, t, s, s') && Served(s, t, s', q, fresh_set, base)
  {
    hide SlotAddress, L.FirstOpen, Alone;
    var k := LeastOf(s.pages[s.list[n]].free);
    var m := s.(pc := s.pc[t := Walk(n)], readers := {t});
    forall j | 0 <= j < n
      ensures s.pages[s.list[j]].used == SLOT_NUM
    {
      assert Pool(s, base)[j].free == {};
    }
    var a := ComesTo(s, t, n);
    var b := TakeFrom(m, t, n, k);
    q, s' := (s.list[n], k), Given(m, t, s.list[n], k);
    tr := AloneJoins(a, b, t, s, m, s');
    PoolTaken(s, s', n, k, base);
  }

  lemma FromFull(s: State, t: Tid, fresh_set: PageId, base: PageId -> nat) returns (tr: seq<State>, s': State, q: Slot)
    requires Quiet(s, t) && s.pc[t].Idle? && s.readers == {} && fresh_set !in s.pages
    requires forall p :: p in s.pages ==> (s.pages[p].used == SLOT_NUM <==> s.pages[p].free == {})
    requires L.FirstOpen(Pool(s, base)) == |s.list|
    ensures Alone(tr, t, s, s') && Served(s, t, s', q, fresh_set, base)
  {
    hide SlotAddress, L.FirstOpen, Alone, Upto, NewPlaces;
    var n := |s.list|;
    var m := s.(pc := s.pc[t := Walk(n)], readers := {t});
    forall j | 0 <= j < n
      ensures s.pages[s.list[j]].used == SLOT_NUM
    {
      assert Pool(s, base)[j].free == {};
    }
    var a := ComesTo(s, t, n);
    var b := Grows(m, t, fresh_set);
    var g := Grown(m, t, fresh_set);
    tr := AloneJoins(a, b, t, s, m, g);
    ZeroFirst();
    var c := TakeFrom(g, t, 0, 0);
    q, s' := (fresh_set, 0), Given(g, t, fresh_set, 0);
    tr := AloneJoins(tr, c, t, s, g, s');
    PoolGrown(s, s', fresh_set, base);
  }

  lemma ZeroFirst()
    ensures IsMin(Upto(SLOT_NUM), 0)
  {
  }

  /** In every run the list names no set twice. */
  lemma {:induction false} ListDistinct(tr: seq<State>, who: seq<Tid>, i: nat)
    requires Run(tr, who) && i < |tr|
    ensures NoDup(tr[i].list)
  {
    hide Step, Inv;
    if i == 0 {
    } else {
      ListDistinct(tr, who, i - 1);
      RunsAreSafe(tr, who, i - 1);
      assert Step(tr[i - 1], who[i - 1], tr[i]);
      StepDistinct(tr[i - 1], who[i - 1], tr[i]);
    }
  }

  lemma StepDistinct(s: State, t: Tid, s': State)
    requires Inv(s) && NoDup(s.list) && Step(s, t, s')
    ensures NoDup(s'.list)
  {
    hide PageOk, SlotOk, NoDup, Upto, NewPlaces, IsMin;
    if AddSet(s, t, s') {
      assert ThreadOk(s, t);
      HeadNew(s.pc[t].p, s.list);
    } else {
      hide AddSet, Inv;
      assert s'.list == s.list;
    }
  }

  lemma HeadNew(p: PageId, list: seq<PageId>)
    requires NoDup(list) && p !in list
    ensures NoDup([p] + list)
  {
  }

  lemma IdleIsQuiet(s: State, t: Tid)
    requires Inv(s) && t in s.pc && forall u :: u in s.pc ==> s.pc[u].Idle?
    ensures Quiet(s, t) && s.readers == {}
  {
    hide SlotOk;
    forall u | u in s.pc
      ensures u !in s.readers && s.writer != Some(u)
    {
      assert ThreadOk(s, u);
    }
    forall p | p in s.pages
      ensures s.pages[p].holder.None?
    {
      assert PageOk(s, p);
    }
  }

  /** In every reachable state with no call under way, a call of slot_alloc left to itself runs through, and leaves the
      sets and returns the slot that the sequential allocator does; `fresh_set` is the set that would be added. */
  lemma AllocAlone(tr0: seq<State>, who: seq<Tid>, i: nat, t: Tid, fresh_set: PageId, base: PageId -> nat)
    returns (tr: seq<State>, s': State, q: Slot)
    requires Run(tr0, who) && i < |tr0| && t in tr0[i].pc && fresh_set !in tr0[i].pages
    requires forall u :: u in tr0[i].pc ==> tr0[i].pc[u].Idle?
    ensures forall i' :: 0 <= i' < |tr0[i].list| ==> tr0[i].list[i'] in tr0[i].pages
    ensures Alone(tr, t, tr0[i], s') && Served(tr0[i], t, s', q, fresh_set, base)
  {
    var s := tr0[i];
    RunsAreSafe(tr0, who, i);
    ListDistinct(tr0, who, i);
    hide Run;
    IdleIsQuiet(s, t);
    FullOrFree(s);
    hide Inv, Served, Alone, L.FirstOpen;
    var n := L.FirstOpen(Pool(s, base));
    if n < |s.list| {
      tr, s', q := FromOpen(s, t, n, fresh_set, base);
    } else {
      tr, s', q := FromFull(s, t, fresh_set, base);
    }
  }

  lemma PoolTaken(s: State, s': State, n: nat, k: nat, base: PageId -> nat)
    requires NoDup(s.list) && n < |s.list| && s'.list == s.list
    requires forall i :: 0 <= i < |s.list| ==> s.list[i] in s.pages
    requires s'.pages == s.pages[s.list[n] := Page(s.pages[s.list[n]].free - {k}, s.pages[s.list[n]].used + 1, None)]
    ensures forall i :: 0 <= i < |s'.list| ==> s'.list[i] in s'.pages
    ensures Pool(s', base) == Pool(s, base)[n := L.Page(base(s.list[n]), s.pages[s.list[n]].free - {k})]
  {
  }

  lemma PoolGrown(s: State, s': State, p: PageId, base: PageId -> nat)
    requires p !in s.pages && s'.list == [p] + s.list && p in s'.pages
    requires s'.pages[p].free == Upto(SLOT_NUM) - {0}
    requires forall i :: 0 <= i < |s.list| ==> s.list[i] in s.pages
    requires forall c :: c in s.pages ==> c in s'.pages && s'.pages[c] == s.pages[c]
    ensures forall i :: 0 <= i < |s'.list| ==> s'.list[i] in s'.pages
    ensures Pool(s', base) == [L.Page(base(p), Upto(SLOT_NUM) - {0})] + Pool(s, base)
  {
    hide Upto;
  }
}
