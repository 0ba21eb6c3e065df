/** Runs in which a breakpoint at the end of a text range does damage. */
module LifecycleRuns {
  import opened Common
  import opened Slots
  import opened Lifecycle

  /** The first slot of a first set. */
  lemma FirstSlot(b: Addr)
    ensures Allocate([], b) == ([Page(b, Upto(SLOT_NUM) - {0})], b)
  {
    var p := Page(b, Upto(SLOT_NUM) - {0});
    hide Upto;
    assert [p] + [] == [p];
  }

  /** The next slot of a set behind full ones. */
  lemma SlotFrom(before: Pool, b: Addr, free: set<nat>, k: nat, after: Pool, base: Addr)
    requires |before| <= 1 && (before != [] ==> before[0].free == {}) && IsMin(free, k)
    ensures Allocate(before + [Page(b, free)] + after, base) ==
            (before + [Page(b, free - {k})] + after, b + 8 * k)
  {
    var pool := before + [Page(b, free)] + after;
    assert before != [] ==> pool[1..] == [Page(b, free)] + after;
    assert FirstOpen(pool) == |before|;
    assert LeastOf(free) == k;
    assert pool[|before| := Page(b, free - {k})] == before + [Page(b, free - {k})] + after;
  }

  lemma AddStep(w: World, s: State, id: Id, base: Addr, slot: Addr, pool: Pool)
    requires AddReady(w, s, id, base) && !s.bkpts[id].no_slot && AddCode(w, s, s.bkpts[id].enter) == 0
    requires Allocate(s.pool, base) == (pool, slot)
    ensures Step(w, s, AddCall(id, base), WithSlot(w, s, id, slot, pool))
  {
  }

  /** One object whose text is followed by a page that mmap gives out. */
  const Objects := [Object(0x1000, 0x2000, false)]
  const Bases: set<Addr> := {0x2000, 0x4000, 0x6000}

  lemma ObjectFound()
    ensures Geometry(Objects, Bases)
    ensures GetByAddress(Objects, 0x1000) == Some(0) && GetByAddress(Objects, 0x2000) == Some(0)
  {
  }

  // ---- enabling at the end of the text ----

  const Bare := World(Objects, Bases, map[0x1000 := 7], {})

  lemma BareAligned()
    ensures Aligned(Bare.orig) && NoBrk(Bare)
  {
  }

  /** A breakpoint whose slot is at the end of the text. */
  lemma OneAdded() returns (s0: State, s1: State, s2: State)
    ensures s0 == State(Bare.orig, map[], map[], [])
    ensures Step(Bare, s0, NewCall(1, 0x1000, false), s1) && Step(Bare, s1, AddCall(1, 0x2000), s2)
    ensures s2.bkpts == map[1 := Bkpt(0x1000, false, false, Some(0x2000), Some(0))] && 0x2000 !in s2.index
    ensures s2.pool == [Page(0x2000, Upto(SLOT_NUM) - {0})] && 0x1000 in s2.mem && 0x2000 in s2.mem
  {
    ObjectFound();
    FirstSlot(0x2000);
    var w, p1 := Bare, [Page(0x2000, Upto(SLOT_NUM) - {0})];
    hide Upto, Geometry, Allocate, GetByAddress, SlotAddress;
    s0 := State(w.orig, map[], map[], []);
    s1 := s0.(bkpts := s0.bkpts[1 := Bkpt(0x1000, false, false, None, None)]);
    s2 := WithSlot(w, s1, 1, 0x2000, p1);
    AddStep(w, s1, 1, 0x2000, 0x2000, p1);
  }

  /** Another one on that slot. */
  lemma OneOnTheOther(s2: State) returns (s3: State, s4: State)
    requires s2.bkpts == map[1 := Bkpt(0x1000, false, false, Some(0x2000), Some(0))] && 0x2000 !in s2.index
    requires s2.pool == [Page(0x2000, Upto(SLOT_NUM) - {0})] && 0x1000 in s2.mem && 0x2000 in s2.mem
    ensures Step(Bare, s2, NewCall(2, 0x2000, false), s3) && Step(Bare, s3, AddCall(2, 0x4000), s4)
    ensures s4.bkpts == map[1 := Bkpt(0x1000, false, false, Some(0x2000), Some(0)),
                            2 := Bkpt(0x2000, false, false, Some(0x2008), Some(0))]
    ensures |s4.pool| == 1 && s4.pool[0].base == 0x2000 && 0x1000 in s4.mem && 0x2000 in s4.mem
  {
    ObjectFound();
    var w, all := Bare, Upto(SLOT_NUM);
    hide Upto;
    var p2 := [Page(0x2000, all - {0} - {1})];
    assert [] + s2.pool + [] == s2.pool && [] + p2 + [] == p2;
    SlotFrom([], 0x2000, all - {0}, 1, [], 0x4000);
    hide Geometry, Allocate, GetByAddress, SlotAddress, IsMin;
    s3 := s2.(bkpts := s2.bkpts[2 := Bkpt(0x2000, false, false, None, None)]);
    s4 := WithSlot(w, s3, 2, 0x2008, p2);
    AddStep(w, s3, 2, 0x4000, 0x2008, p2);
  }

  lemma ThenPatched(s4: State) returns (s5: State, s6: State, s7: State)
    requires s4.bkpts == map[1 := Bkpt(0x1000, false, false, Some(0x2000), Some(0)),
                             2 := Bkpt(0x2000, false, false, Some(0x2008), Some(0))]
    requires |s4.pool| == 1 && s4.pool[0].base == 0x2000 && 0x1000 in s4.mem && 0x2000 in s4.mem
    ensures Step(Bare, s4, EnableCall(2), s5) && Step(Bare, s5, EnableCall(1), s6) && Step(Bare, s6, DisableCall(1), s7)
    ensures !CallSound(Bare, s4, EnableCall(2))
    ensures 1 in s7.bkpts && s7.bkpts[1].enter == 0x1000 && !s7.bkpts[1].enable
    ensures 0x1000 in s7.mem && s7.mem[0x1000] == BRK
  {
    ObjectFound();
    hide GetByAddress;
    assert s4.bkpts[1].slot == Some(s4.bkpts[2].enter);
    assert InPool(s4.pool, 0x2000) && Covered(Bare, 0x1000);
    s5 := AfterEnable(s4, 2);
    s6 := AfterEnable(s5, 1);
    s7 := AfterDisable(s6, 1);
    hide InPool, Covered;
  }

  /** From an empty allocator: a breakpoint at the end of the text patches another one's slot; when that one is
      disabled, its text word becomes a brk that no breakpoint accounts for. */
  lemma EnablingSpoilsASlot() returns (tr: seq<State>, calls: seq<Call>)
    ensures Run(Bare, tr, calls) && |calls| == 7 && tr[0].pool == []
    ensures calls[4] == EnableCall(2) && !CallSound(Bare, tr[4], calls[4])
    ensures 1 in tr[7].bkpts && tr[7].bkpts[1].enter == 0x1000 && !tr[7].bkpts[1].enable
    ensures 0x1000 in tr[7].mem && tr[7].mem[0x1000] == BRK != Bare.orig[0x1000]
  {
    ObjectFound();
    BareAligned();
    hide Geometry, GetByAddress, Step, Aligned, CallSound;
    var s0, s1, s2 := OneAdded();
    var s3, s4 := OneOnTheOther(s2);
    var s5, s6, s7 := ThenPatched(s4);
    tr := [s0, s1, s2, s3, s4, s5, s6, s7];
    calls := [NewCall(1, 0x1000, false), AddCall(1, 0x2000), NewCall(2, 0x2000, false), AddCall(2, 0x4000),
              EnableCall(2), EnableCall(1), DisableCall(1)];
  }

  // ---- adding under an enabled breakpoint ----

  /** The page behind the text is mapped, zeroed, by a set that was added before. */
  const Raced := World(Objects, Bases, map[0x1000 := 7, 0x2000 := 0], {})

  lemma RacedAligned()
    ensures Aligned(Raced.orig) && NoBrk(Raced)
  {
  }

  /** What two threads that both added a set leave, once the set at the head has one slot left. */
  function TwoSets(): Pool {
    [Page(0x4000, {1023}), Page(0x2000, Upto(SLOT_NUM))]
  }

  lemma TwoSetsOk()
    ensures PoolOk(Bases, TwoSets()) && NewBase(Bases, TwoSets(), 0x6000)
  {
    hide Upto;
    assert TwoSets()[0].base == 0x4000 && TwoSets()[1].base == 0x2000;
  }

  lemma LastOfTheFirst()
    ensures Allocate(TwoSets(), 0x6000) == ([Page(0x4000, {}), Page(0x2000, Upto(SLOT_NUM))], 0x5ff8)
  {
    var second := Page(0x2000, Upto(SLOT_NUM));
    hide Upto;
    var one: set<nat> := {1023};
    assert IsMin(one, 1023) && one - {1023} == {};
    FrontSlot(0x4000, one, 1023, second);
  }

  lemma FrontSlot(b: Addr, free: set<nat>, k: nat, second: Page)
    requires IsMin(free, k)
    ensures Allocate([Page(b, free), second], 0x6000) == ([Page(b, free - {k}), second], b + 8 * k)
  {
    SlotFrom([], b, free, k, [second], 0x6000);
    hide Allocate;
    assert [] + [Page(b, free)] + [second] == [Page(b, free), second];
    assert [] + [Page(b, free - {k})] + [second] == [Page(b, free - {k}), second];
  }

  lemma FirstOfTheSecond()
    ensures Allocate([Page(0x4000, {}), Page(0x2000, Upto(SLOT_NUM))], 0x6000) ==
            ([Page(0x4000, {}), Page(0x2000, Upto(SLOT_NUM) - {0})], 0x2000)
  {
    var all, full := Upto(SLOT_NUM), Page(0x4000, {});
    hide Upto;
    SlotFrom([full], 0x2000, all, 0, [], 0x6000);
    assert [full] + [Page(0x2000, all)] + [] == [full, Page(0x2000, all)];
    assert [full] + [Page(0x2000, all - {0})] + [] == [full, Page(0x2000, all - {0})];
  }

  /** A breakpoint at the end of the text takes the last slot of the first set. */
  lemma EndAdded() returns (s0: State, s1: State, s2: State)
    ensures s0 == State(Raced.orig, map[], map[], TwoSets()) && PoolOk(Bases, s0.pool)
    ensures Step(Raced, s0, NewCall(1, 0x2000, false), s1) && Step(Raced, s1, AddCall(1, 0x6000), s2)
    ensures s2.bkpts == map[1 := Bkpt(0x2000, false, false, Some(0x5ff8), Some(0))] && 0x1000 !in s2.index
    ensures s2.pool == [Page(0x4000, {}), Page(0x2000, Upto(SLOT_NUM))] && s2.mem == EndMem()
  {
    var p1 := [Page(0x4000, {}), Page(0x2000, Upto(SLOT_NUM))];
    LastOfTheFirst();
    TwoSetsOk();
    hide Allocate, Upto, TwoSets, PoolOk, NewBase;
    s0 := State(Raced.orig, map[], map[], TwoSets());
    s1 := s0.(bkpts := map[1 := Bkpt(0x2000, false, false, None, None)]);
    EndReady(s1);
    s2 := WithSlot(Raced, s1, 1, 0x5ff8, p1);
    AddStep(Raced, s1, 1, 0x6000, 0x5ff8, p1);
  }

  lemma EndReady(s1: State)
    requires s1 == State(Raced.orig, map[], map[1 := Bkpt(0x2000, false, false, None, None)], s1.pool)
    requires NewBase(Bases, s1.pool, 0x6000)
    ensures AddReady(Raced, s1, 1, 0x6000) && AddCode(Raced, s1, 0x2000) == 0
    ensures forall p :: var s2 := WithSlot(Raced, s1, 1, 0x5ff8, p);
      && s2.bkpts == map[1 := Bkpt(0x2000, false, false, Some(0x5ff8), Some(0))] && 0x1000 !in s2.index
      && s2.pool == p && s2.mem == EndMem()
  {
    ObjectFound();
    hide GetByAddress, NewBase;
  }

  function EndMem(): map<Addr, Instr> {
    Raced.orig[0x5ff8 := 0][0x5ffc := BRK]
  }

  /** It is enabled. */
  lemma EndEnabled(s2: State) returns (s3: State, s4: State)
    requires s2.bkpts == map[1 := Bkpt(0x2000, false, false, Some(0x5ff8), Some(0))] && 0x1000 !in s2.index
    requires s2.pool == [Page(0x4000, {}), Page(0x2000, Upto(SLOT_NUM))] && s2.mem == EndMem()
    ensures CallSound(Raced, s2, EnableCall(1))
    ensures Step(Raced, s2, EnableCall(1), s3) && Step(Raced, s3, NewCall(2, 0x1000, false), s4)
    ensures s4.bkpts == map[1 := Bkpt(0x2000, true, false, Some(0x5ff8), Some(0)),
                            2 := Bkpt(0x1000, false, false, None, None)]
    ensures s4.pool == s2.pool && s4.index == s2.index && s4.mem == EndMem()[0x2000 := BRK]
  {
    hide Upto;
    assert InPool(s2.pool, 0x2000) by { assert s2.pool[1].base == 0x2000; }
    hide InPool, Covered;
    s3 := AfterEnable(s2, 1);
    s4 := s3.(bkpts := s3.bkpts[2 := Bkpt(0x1000, false, false, None, None)]);
  }

  /** The next breakpoint gets the slot under it. */
  lemma SlotUnderIt(s4: State) returns (s5: State)
    requires s4.bkpts == map[1 := Bkpt(0x2000, true, false, Some(0x5ff8), Some(0)),
                             2 := Bkpt(0x1000, false, false, None, None)]
    requires s4.pool == [Page(0x4000, {}), Page(0x2000, Upto(SLOT_NUM))] && 0x1000 !in s4.index
    requires s4.mem == EndMem()[0x2000 := BRK]
    ensures !CallSound(Raced, s4, AddCall(2, 0x6000)) && Step(Raced, s4, AddCall(2, 0x6000), s5)
    ensures 1 in s5.bkpts && s5.bkpts[1] == Bkpt(0x2000, true, false, Some(0x5ff8), Some(0))
    ensures 2 in s5.bkpts && s5.bkpts[2] == Bkpt(0x1000, false, false, Some(0x2000), Some(0))
    ensures s5.mem == EndMem()[0x2000 := BRK][0x2000 := 7][0x2004 := BRK]
  {
    ObjectFound();
    FirstOfTheSecond();
    var w, p2 := Raced, [Page(0x4000, {}), Page(0x2000, Upto(SLOT_NUM) - {0})];
    hide Geometry, Allocate, GetByAddress, Upto;
    s5 := WithSlot(w, s4, 2, 0x2000, p2);
    AddStep(w, s4, 2, 0x6000, 0x2000, p2);
    assert s4.bkpts[1].enter == NextSlot(s4, 0x6000);
  }

  lemma ThenDisabled(s5: State) returns (s6: State)
    requires 1 in s5.bkpts && s5.bkpts[1] == Bkpt(0x2000, true, false, Some(0x5ff8), Some(0))
    requires 2 in s5.bkpts && s5.bkpts[2] == Bkpt(0x1000, false, false, Some(0x2000), Some(0))
    requires s5.mem == EndMem()[0x2000 := BRK][0x2000 := 7][0x2004 := BRK]
    ensures !Armed(s5, 1) && SlotIntact(Raced, s5, 2) && Step(Raced, s5, DisableCall(1), s6)
    ensures 2 in s6.bkpts && !SlotIntact(Raced, s6, 2)
  {
    s6 := AfterDisable(s5, 1);
  }

  /** A new slot that starts under an enabled breakpoint at the end of the text overwrites its brk; disabling that
      breakpoint then spoils the slot, although each enable met its condition. */
  lemma AddingUnderABreakpoint() returns (tr: seq<State>, calls: seq<Call>)
    ensures Run(Raced, tr, calls) && |calls| == 6 && tr[0].pool == TwoSets()
    ensures calls[2] == EnableCall(1) && CallSound(Raced, tr[2], calls[2])
    ensures calls[4].AddCall? && !CallSound(Raced, tr[4], calls[4])
    ensures 1 in tr[5].bkpts && 2 in tr[5].bkpts && !Armed(tr[5], 1) && SlotIntact(Raced, tr[5], 2)
    ensures calls[5] == DisableCall(1) && 2 in tr[6].bkpts && !SlotIntact(Raced, tr[6], 2)
  {
    ObjectFound();
    RacedAligned();
    hide Geometry, GetByAddress, Step, Aligned, CallSound, Armed, SlotIntact, NoBrk, TwoSets;
    var s0, s1, s2 := EndAdded();
    var s3, s4 := EndEnabled(s2);
    var s5 := SlotUnderIt(s4);
    var s6 := ThenDisabled(s5);
    tr := [s0, s1, s2, s3, s4, s5, s6];
    calls := [NewCall(1, 0x2000, false), AddCall(1, 0x6000), EnableCall(1), NewCall(2, 0x1000, false),
              AddCall(2, 0x6000), DisableCall(1)];
  }
}
