/** The calls of the breakpoint life cycle as methods on the engine's state, with the slot sets as objects. */
module LifecycleEngine {
  import opened Common
  import opened Slots
  import opened Lifecycle

  /** The sets as objects hold what the value says. */
  ghost predicate Views(sets: seq<SlotSet>, pool: Pool)
    reads sets, set s | s in sets :: s.free_slot
  {
    && |pool| == |sets|
    && forall i :: 0 <= i < |sets| ==> pool[i].base == sets[i].slots && pool[i].free == sets[i].Free()
  }

  /** What slot_alloc leaves if it added a set. */
  lemma AddedView(sets: seq<SlotSet>, pool: Pool, base: Addr, sets': seq<SlotSet>)
    requires |sets'| == |sets| + 1 && sets'[1..] == sets && |pool| == |sets|
    requires forall j :: 0 <= j < |pool| ==> pool[j].free == {}
    requires forall j :: 0 <= j < |sets| ==> pool[j].base == sets[j].slots && pool[j].free == sets[j].Free()
    requires sets'[0].slots == base && sets'[0].Free() == Upto(SLOT_NUM) - {0}
    ensures Views(sets', Allocate(pool, base).0) && Allocate(pool, base).1 == SlotAddress(base, 0)
  {
    hide Upto, SlotSet.Free, SlotAddress, Allocate;
    assert Views(sets, pool);
    hide Views;
    AllFull(pool, base);
    ViewsGrown(sets, pool, sets', Allocate(pool, base).0);
  }

  /** And if it did not. */
  lemma TakenView(sets: seq<SlotSet>, pool: Pool, base: Addr, i: nat, k: nat)
    requires i < |sets| && |pool| == |sets| && (forall j :: 0 <= j < i ==> pool[j].free == {}) && IsMin(pool[i].free, k)
    requires pool[i].base == sets[i].slots && sets[i].Free() == pool[i].free - {k}
    requires forall j :: 0 <= j < |sets| && j != i ==> pool[j].base == sets[j].slots && pool[j].free == sets[j].Free()
    ensures Views(sets, Allocate(pool, base).0) && Allocate(pool, base).1 == SlotAddress(sets[i].slots, k)
  {
    hide SlotSet.Free, SlotAddress, Allocate, Views;
    OpenAt(pool, base, i, k);
    ViewsTaken(sets, pool, i, Allocate(pool, base).0);
  }

  /** What the value says about a list that is held by objects. */
  lemma BeforeAlloc(list: SlotList, pool: Pool)
    requires list.Valid() && Views(list.sets, pool)
    ensures |pool| == |list.sets| && NoDup(list.sets)
    ensures forall i :: 0 <= i < |list.sets| ==>
      && pool[i].base == list.sets[i].slots && pool[i].free == list.sets[i].Free()
      && (pool[i].free == {} <==> list.sets[i].used_slot_count == SLOT_NUM)
  {
    hide SlotSet.Free;
    forall i | 0 <= i < |list.sets|
      ensures pool[i].free == {} <==> list.sets[i].used_slot_count == SLOT_NUM
    {
      FullIsEmpty(list.sets[i]);
    }
  }

  /** slot_alloc on the objects does what Allocate does to the value. */
  method AllocSlot(list: SlotList, base: Addr, ghost pool: Pool) returns (slot: Addr, ghost pool': Pool)
    requires list.Valid() && Views(list.sets, pool)
    modifies list, list.sets, set s | s in list.sets :: s.free_slot
    ensures list.Valid() && Views(list.sets, pool') && (pool', slot) == Allocate(pool, base)
  {
    BeforeAlloc(list, pool);
    hide Upto, SlotSet.Free, SlotAddress, IsMin, Allocate, SlotSet.Valid, SlotList.Valid, Views;
    ghost var sets := list.sets;
    var curr, index;
    ghost var first, added;
    curr, index, first, added := list.SlotAlloc(base);
    slot := SlotAddress(curr.slots, index);
    pool' := Allocate(pool, base).0;
    if added {
      AddedView(sets, pool, base, list.sets);
    } else {
      forall j | 0 <= j < |sets| && j != first
        ensures pool[j].base == sets[j].slots && pool[j].free == sets[j].Free()
      {
        assert sets[j] in sets && sets[j] != curr;
      }
      TakenView(sets, pool, base, first, index);
    }
  }

  lemma ViewsTaken(sets: seq<SlotSet>, pool: Pool, k: nat, pool': Pool)
    requires k < |sets| && |pool| == |sets| && |pool'| == |pool|
    requires pool'[k].base == sets[k].slots && pool'[k].free == sets[k].Free()
    requires forall i :: 0 <= i < |sets| && i != k ==>
      pool'[i] == pool[i] && pool[i].base == sets[i].slots && pool[i].free == sets[i].Free()
    ensures Views(sets, pool')
  {
    hide SlotSet.Free;
  }

  lemma ViewsGrown(sets: seq<SlotSet>, pool: Pool, sets': seq<SlotSet>, pool': Pool)
    requires |sets'| == |sets| + 1 && sets'[1..] == sets && |pool'| == |pool| + 1 && pool'[1..] == pool
    requires Views(sets, pool) && pool'[0].base == sets'[0].slots && pool'[0].free == sets'[0].Free()
    ensures Views(sets', pool')
  {
    forall i | 0 <= i < |sets'|
      ensures pool'[i].base == sets'[i].slots && pool'[i].free == sets'[i].Free()
    {
      if i > 0 {
        assert sets'[i] == sets'[1..][i - 1] == sets[i - 1] && pool'[i] == pool'[1..][i - 1] == pool[i - 1];
      }
    }
  }

  lemma FullIsEmpty(s: SlotSet)
    requires s.Valid()
    ensures s.Free() == {} <==> s.used_slot_count == SLOT_NUM
  {
  }

  lemma OpenAt(pool: Pool, base: Addr, i: nat, k: nat)
    requires i < |pool| && (forall j :: 0 <= j < i ==> pool[j].free == {}) && IsMin(pool[i].free, k)
    ensures Allocate(pool, base) ==
            (pool[i := Page(pool[i].base, pool[i].free - {k})], SlotAddress(pool[i].base, k))
  {
    assert FirstOpen(pool) == i;
    assert LeastOf(pool[i].free) == k;
  }

  lemma AllFull(pool: Pool, base: Addr)
    requires forall j :: 0 <= j < |pool| ==> pool[j].free == {}
    ensures Allocate(pool, base) == ([Page(base, Upto(SLOT_NUM) - {0})] + pool, SlotAddress(base, 0))
  {
    hide Upto;
    assert FirstOpen(pool) == |pool|;
  }

  class Engine {
    const objects: seq<Object>
    const list: SlotList
    ghost const bases: set<Addr>
    ghost const orig: map<Addr, Instr>
    const writable: set<Addr>
    var mem: map<Addr, Instr>
    var index: map<Addr, Id>
    var bkpts: map<Id, Bkpt>
    ghost var pool: Pool

    constructor (objects: seq<Object>, ghost bases: set<Addr>, mem: map<Addr, Instr>, writable: set<Addr>)
      requires Geometry(objects, bases) && Aligned(mem)
      ensures Valid() && Sound(W(), S()) && bkpts == map[] && this.mem == mem
      ensures W() == World(objects, bases, mem, writable)
      ensures fresh(list)
    {
      this.objects, this.bases, this.orig, this.mem, this.writable := objects, bases, mem, mem, writable;
      index, bkpts, pool := map[], map[], [];
      list := new SlotList();
      new;
      StartSound(W(), S());
    }

    ghost function W(): World {
      World(objects, bases, orig, writable)
    }

    ghost function S(): State
      reads this
    {
      State(mem, index, bkpts, pool)
    }

    ghost predicate Valid()
      reads this, list, list.sets, set s | s in list.sets :: s.free_slot
    {
      IndexInv(W(), S()) && list.Valid() && Views(list.sets, pool)
    }

    /** breakpoint_new, with the address its caller stores. */
    method New(id: Id, enter: Addr, no_slot: bool)
      requires Valid() && id !in bkpts
      modifies this`bkpts
      ensures Valid() && S() == old(S()).(bkpts := old(bkpts)[id := Bkpt(enter, false, no_slot, None, None)])
      ensures old(Sound(W(), S())) ==> Sound(W(), S())
    {
      hide IndexInv, Sound, Views;
      bkpts := bkpts[id := Bkpt(enter, false, no_slot, None, None)];
      NewKeepsIndex(W(), old(S()), id, bkpts[id]);
      if old(Sound(W(), S())) {
        NewKeepsSound(W(), old(S()), id, bkpts[id]);
      }
    }

    /** object_get_by_address */
    method ObjectAt(addr: Addr) returns (r: Option<nat>)
      ensures r == GetByAddress(objects, addr)
    {
      var i := 0;
      while i < |objects|
        invariant 0 <= i <= |objects|
        invariant forall k :: 0 <= k < i ==> !(objects[k].text_start <= addr <= objects[k].text_end)
      {
        if objects[i].text_start <= addr <= objects[i].text_end {
          return Some(i);
        }
        i := i + 1;
      }
      r := None;
    }

    /** The part of breakpoint_add that gives the breakpoint a slot. */
    method GiveSlot(id: Id, base: Addr) returns (slot: Addr)
      requires list.Valid() && Views(list.sets, pool) && id in bkpts && bkpts[id].enter in mem
      requires NextSlot(S(), base) + 4 !in index
      modifies this`mem, this`index, this`bkpts, this`pool, list, list.sets, set s | s in list.sets :: s.free_slot
      ensures list.Valid() && Views(list.sets, pool) && (pool, slot) == Allocate(old(pool), base)
      ensures mem == old(mem)[slot := old(mem[bkpts[id].enter])][slot + 4 := BRK]
      ensures index == old(index)[slot + 4 := id]
      ensures bkpts == old(bkpts)[id := old(bkpts[id]).(slot := Some(slot))]
    {
      hide Allocate;
      ghost var p;
      slot, p := AllocSlot(list, base, pool);
      pool := p;
      mem := mem[slot := mem[bkpts[id].enter]];
      mem := mem[slot + 4 := BRK];
      if slot + 4 in index {
        assert false;
      }
      index := index[slot + 4 := id];
      bkpts := bkpts[id := bkpts[id].(slot := Some(slot))];
    }

    /** The part of breakpoint_add behind the checks. */
    method Link(id: Id, base: Addr, obj: Option<nat>)
      requires list.Valid() && Views(list.sets, pool) && id in bkpts && (!bkpts[id].no_slot ==> bkpts[id].enter in mem)
      requires NextSlot(S(), base) + 4 !in index && NextSlot(S(), base) + 4 != bkpts[id].enter
      requires obj == GetByAddress(objects, bkpts[id].enter)
      modifies this`mem, this`index, this`bkpts, this`pool, list, list.sets, set s | s in list.sets :: s.free_slot
      ensures list.Valid() && Views(list.sets, pool) && S() == AfterAdd(W(), old(S()), id, base)
    {
      hide Views, Allocate, GetByAddress;
      index := index[bkpts[id].enter := id];
      if !bkpts[id].no_slot {
        var _ := GiveSlot(id, base);
      }
      bkpts := bkpts[id := bkpts[id].(obj := obj)];
    }

    /** breakpoint_add; `base` is what mmap returns if slot_alloc has to add a set. */
    method Add(id: Id, base: Addr) returns (ret: int)
      requires Valid() && AddReady(W(), S(), id, base)
      modifies this, list, list.sets, set s | s in list.sets :: s.free_slot
      ensures Valid() && S() == if ret == 0 then AfterAdd(W(), old(S()), id, base) else old(S())
      ensures ret == 0 <==> Accepts(objects, old(index), old(bkpts[id].enter))
      ensures ret == -1 <==> forall i :: 0 <= i < |objects| ==>
        !(objects[i].text_start <= old(bkpts[id].enter) <= objects[i].text_end)
      ensures ret == -2 <==> exists i :: FirstHolding(objects, old(bkpts[id].enter), i) && objects[i].no_bkpt
      ensures ret == -3 <==>
        && old(bkpts[id].enter in index)
        && exists i :: FirstHolding(objects, old(bkpts[id].enter), i) && !objects[i].no_bkpt
      ensures ret == 0 ==> Entered(objects, old(S()), id, S())
      ensures NoBrk(W()) && old(Sound(W(), S())) ==> (Sound(W(), S()) <==> old(CallSound(W(), S(), AddCall(id, base))))
    {
      hide IndexInv, Sound, Views, NoBrk, Allocate, NewBase, AddCode, CallSound, AfterAdd;
      hide FirstHolding, Accepts, Entered;
      ghost var s := S();
      AddsWell(W(), s, id, base);
      CodeMeans(W(), s, bkpts[id].enter);
      var obj;
      ret, obj := Check(bkpts[id].enter);
      if ret == 0 {
        AddedState(W(), s, id, base);
        Link(id, base, obj);
      }
    }

    /** The checks that breakpoint_add starts with. */
    method Check(enter: Addr) returns (ret: int, obj: Option<nat>)
      ensures ret == AddCode(W(), S(), enter) && obj == GetByAddress(objects, enter)
    {
      hide GetByAddress;
      obj := ObjectAt(enter);
      ret := 0;
      if obj.None? {
        ret := -1;
      } else if objects[obj.value].no_bkpt {
        ret := -2;
      } else if enter in index {
        ret := -3;
      }
    }

    /** Whether the store at `addr` goes through once the protection of its object is removed. */
    method StoreWorks(addr: Addr) returns (ok: bool)
      requires Valid()
      ensures ok == CanStore(W(), S(), addr)
    {
      var obj := ObjectAt(addr);
      if obj.Some? && addr < objects[obj.value].text_end {
        return true;
      }
      if addr in writable {
        return true;
      }
      hide IndexInv;
      var sets := list.sets;
      var i := 0;
      while i < |sets|
        invariant 0 <= i <= |sets|
        invariant forall k :: 0 <= k < i ==> !(pool[k].base <= addr < pool[k].base + SLOT_NUM * SLOT_SIZE)
      {
        if sets[i].slots <= addr < sets[i].slots + SLOT_NUM * SLOT_SIZE {
          assert pool[i].base == sets[i].slots;
          return true;
        }
        assert pool[i].base == sets[i].slots;
        i := i + 1;
      }
      ok := false;
    }

    /** breakpoint_enable; `crashed` means that the store faulted. */
    method Enable(id: Id) returns (crashed: bool)
      requires Valid() && Added(S(), id) && bkpts[id].enter in mem
      modifies this`mem, this`bkpts
      ensures var a := old(bkpts[id].enter);
        crashed <==>
          && !old(bkpts[id].enable) && a !in writable
          && (exists i :: FirstHolding(objects, a, i) && a == objects[i].text_end)
          && forall i :: 0 <= i < |list.sets| ==>
               !(list.sets[i].slots <= a < list.sets[i].slots + SLOT_NUM * SLOT_SIZE)
      ensures !crashed ==> Valid() && S() == AfterEnable(old(S()), id)
      ensures !crashed ==>
        && index == old(index) && bkpts == old(bkpts)[id := old(bkpts[id]).(enable := true)]
        && mem == if old(bkpts[id].enable) then old(mem) else old(mem)[bkpts[id].enter := 0xD420_0060]
      ensures !crashed && NoBrk(W()) && old(Sound(W(), S())) ==>
        (Sound(W(), S()) <==> old(CallSound(W(), S(), EnableCall(id))))
    {
      hide IndexInv, Sound, Views, NoBrk, CallSound, Covered, InPool, FirstHolding;
      ghost var s := S();
      WhereStored(W(), s, id, list.sets);
      assert bkpts == bkpts[id := bkpts[id]];
      crashed := false;
      if !bkpts[id].enable {
        var ok := StoreWorks(bkpts[id].enter);
        bkpts := bkpts[id := bkpts[id].(enable := true)];
        if !ok {
          return true;
        }
        mem := mem[bkpts[id].enter := BRK];
      }
      assert Step(W(), s, EnableCall(id), S());
      CallKeepsIndex(W(), s, EnableCall(id), S());
      if NoBrk(W()) && Sound(W(), s) {
        CallKeepsSound(W(), s, EnableCall(id), S());
      }
    }

    /** breakpoint_disable; an enabled breakpoint without a slot makes it read through a null pointer. */
    method Disable(id: Id) returns (crashed: bool)
      requires Valid() && Added(S(), id) && bkpts[id].enter in mem
      modifies this`mem, this`bkpts
      ensures crashed <==> old(bkpts[id].enable && bkpts[id].no_slot)
      ensures !crashed ==> Valid() && S() == AfterDisable(old(S()), id)
      ensures !crashed ==>
        && index == old(index) && bkpts == old(bkpts)[id := old(bkpts[id]).(enable := false)]
      ensures !crashed && !old(bkpts[id].enable) ==> mem == old(mem)
      ensures !crashed && old(bkpts[id].enable) ==>
        && bkpts[id].slot.Some? && bkpts[id].slot.value in old(mem)
        && mem == old(mem)[bkpts[id].enter := old(mem)[bkpts[id].slot.value]]
        && (old(Sound(W(), S())) ==> bkpts[id].enter in orig && mem[bkpts[id].enter] == orig[bkpts[id].enter])
      ensures !crashed && old(bkpts[id].enable && MemoryInv(W(), S())) ==>
        (MemoryInv(W(), S()) <==> old(SpoilsNoSlot(W(), S(), id)))
      ensures !crashed && NoBrk(W()) && old(Sound(W(), S())) ==> Sound(W(), S())
    {
      hide MemoryInv, Views, NoBrk, SpoilsNoSlot, ArmedInv, CanStore;
      ghost var s := S();
      SlotInMemory(W(), s, id);
      assert bkpts == bkpts[id := bkpts[id]];
      if MemoryInv(W(), s) && bkpts[id].slot.Some? {
        IntactSlot(W(), s, id);
      }
      hide IndexInv;
      crashed := false;
      if bkpts[id].enable {
        if bkpts[id].slot.None? {
          return true;
        }
        bkpts := bkpts[id := bkpts[id].(enable := false)];
        mem := mem[bkpts[id].enter := mem[bkpts[id].slot.value]];
        if MemoryInv(W(), s) {
          DisableKeepsMemory(W(), s, id);
        }
      }
      assert Step(W(), s, DisableCall(id), S());
      CallKeepsIndex(W(), s, DisableCall(id), S());
      if NoBrk(W()) && Sound(W(), s) {
        CallKeepsSound(W(), s, DisableCall(id), S());
      }
    }
  }

  /** What breakpoint_add does if its checks succeed, and what holds if they do not. */
  lemma AddsWell(w: World, s: State, id: Id, base: Addr)
    requires IndexInv(w, s) && AddReady(w, s, id, base)
    ensures AddCode(w, s, s.bkpts[id].enter) == 0 ==>
      && IndexInv(w, AfterAdd(w, s, id, base))
      && NextSlot(s, base) + 4 !in s.index && NextSlot(s, base) + 4 != s.bkpts[id].enter
    ensures NoBrk(w) && Sound(w, s) ==>
      (CallSound(w, s, AddCall(id, base)) <==>
       AddCode(w, s, s.bkpts[id].enter) != 0 || Sound(w, AfterAdd(w, s, id, base)))
  {
    if AddCode(w, s, s.bkpts[id].enter) == 0 {
      NoCollision(w, s, id, base);
      hide IndexInv, Sound, NoBrk, AddCode, AfterAdd, NextSlot, NewBase;
      AddKeepsIndex(w, s, id, base);
      if NoBrk(w) && Sound(w, s) {
        AddKeepsSound(w, s, id, base);
      }
    }
  }

  /** A successful add leaves what it should. */
  lemma AddedState(w: World, s: State, id: Id, base: Addr)
    requires IndexInv(w, s) && AddReady(w, s, id, base) && AddCode(w, s, s.bkpts[id].enter) == 0
    ensures Entered(w.objects, s, id, AfterAdd(w, s, id, base))
  {
    hide FirstHolding, AddCode, GetByAddress, NewBase, NextSlot, Allocate, Unused, IsSlot, PoolOk, TreeInv, Taken;
    hide WithSlot, WithoutSlot;
    FirstFound(w, s, s.bkpts[id].enter);
    if s.bkpts[id].no_slot {
      hide IndexInv, Entered;
      EnteredWithout(w, s, id);
    } else {
      NextSlotUnused(w, s, base);
      NoCollision(w, s, id, base);
      hide IndexInv, Entered;
      EnteredWith(w, s, id, NextSlot(s, base), Allocate(s.pool, base).0);
    }
  }

  lemma FirstFound(w: World, s: State, a: Addr)
    requires AddCode(w, s, a) == 0
    ensures var o := GetByAddress(w.objects, a); o.Some? && FirstHolding(w.objects, a, o.value)
  {
    CodeMeans(w, s, a);
    hide GetByAddress, FirstHolding;
  }

  lemma EnteredWithout(w: World, s: State, id: Id)
    requires id in s.bkpts && s.bkpts[id].no_slot
    requires var o := GetByAddress(w.objects, s.bkpts[id].enter);
      o.Some? && FirstHolding(w.objects, s.bkpts[id].enter, o.value)
    ensures Entered(w.objects, s, id, WithoutSlot(w, s, id))
  {
    hide GetByAddress, FirstHolding, Unused;
  }

  lemma EnteredWith(w: World, s: State, id: Id, slot: Addr, pool: Pool)
    requires id in s.bkpts && !s.bkpts[id].no_slot && s.bkpts[id].enter in s.mem
    requires var o := GetByAddress(w.objects, s.bkpts[id].enter);
      o.Some? && FirstHolding(w.objects, s.bkpts[id].enter, o.value)
    requires Unused(s, slot) && slot + 4 !in s.index
    ensures Entered(w.objects, s, id, WithSlot(w, s, id, slot, pool))
  {
    hide GetByAddress, FirstHolding, Unused;
  }

  /** Whether the store of breakpoint_enable faults, in terms of the objects and the slot sets. */
  lemma WhereStored(w: World, s: State, id: Id, sets: seq<SlotSet>)
    requires IndexInv(w, s) && Added(s, id) && Views(sets, s.pool)
    ensures var a := s.bkpts[id].enter;
      !CanStore(w, s, a) <==>
        && a !in w.writable && (exists i :: FirstHolding(w.objects, a, i) && a == w.objects[i].text_end)
        && forall i :: 0 <= i < |sets| ==> !(sets[i].slots <= a < sets[i].slots + SLOT_NUM * SLOT_SIZE)
  {
    var a := s.bkpts[id].enter;
    assert GetByAddress(w.objects, a).Some? by { assert BkptOk(w, s, id); }
    hide IndexInv;
    CanStoreExactly(w, s, a);
    CodeMeans(w, s, a);
    hide GetByAddress, CanStore;
    assert forall i :: 0 <= i < |sets| ==> s.pool[i].base == sets[i].slots;
  }

  lemma IntactSlot(w: World, s: State, id: Id)
    requires MemoryInv(w, s) && id in s.bkpts && s.bkpts[id].slot.Some?
    ensures s.bkpts[id].enter in w.orig && s.bkpts[id].slot.value in s.mem
    ensures s.mem[s.bkpts[id].slot.value] == w.orig[s.bkpts[id].enter]
  {
    assert SlotIntact(w, s, id);
  }

  lemma SlotInMemory(w: World, s: State, id: Id)
    requires IndexInv(w, s) && Added(s, id)
    ensures s.bkpts[id].slot.None? <==> s.bkpts[id].no_slot
    ensures s.bkpts[id].slot.Some? ==> s.bkpts[id].slot.value in s.mem
  {
    hide Geometry, PoolOk, KeyOk, PairOk, Untouched, Taken, IsSlot, Aligned, GetByAddress, CanStore;
    assert BkptOk(w, s, id) && PlaceOk(w, s, id);
  }
}
