/** breakpoint_add, breakpoint_enable and breakpoint_disable, one call at a time, with the object lookup
    that decides where a breakpoint may go and the allocator that gives it a slot. */
module Lifecycle {
  import opened Common
  import opened Slots

  type Addr = nat
  type Instr = nat
  type Id = nat

  const BRK: Instr := 0xD4200060
  const PAGE: nat := 4096

  datatype Object = Object(text_start: Addr, text_end: Addr, no_bkpt: bool)

  /** object_get_by_address: the first object with the address in its range, both ends included. */
  function GetByAddress(objects: seq<Object>, addr: Addr): (r: Option<nat>)
    ensures r.Some? ==> r.value < |objects| && objects[r.value].text_start <= addr <= objects[r.value].text_end
    ensures r.Some? ==> forall i :: 0 <= i < r.value ==> !(objects[i].text_start <= addr <= objects[i].text_end)
    ensures r.None? ==> forall i :: 0 <= i < |objects| ==> !(objects[i].text_start <= addr <= objects[i].text_end)
  {
    if objects == [] then None
    else if objects[0].text_start <= addr <= objects[0].text_end then Some(0)
    else
      var r := GetByAddress(objects[1..], addr);
      if r.Some? then Some(r.value + 1) else None
  }

  /** struct breakpoint; `obj` is set once breakpoint_add has succeeded. */
  datatype Bkpt = Bkpt(enter: Addr, enable: bool, no_slot: bool, slot: Option<Addr>, obj: Option<nat>)

  // ---- where slots may lie ----

  /** A slot region apart from an object's text, the end excluded. */
  predicate Apart(o: Object, base: Addr) {
    base + SLOT_NUM * SLOT_SIZE <= o.text_start || o.text_end <= base
  }

  /** `bases` are the addresses that mmap hands out: whole pages, apart from each other and from all text. */
  predicate Geometry(objects: seq<Object>, bases: set<Addr>) {
    && (forall i :: 0 <= i < |objects| ==> objects[i].text_start % PAGE == 0 && objects[i].text_end % PAGE == 0)
    && (forall b :: b in bases ==> b % PAGE == 0)
    && (forall i, b :: 0 <= i < |objects| && b in bases ==> Apart(objects[i], b))
    && (forall b, c :: b in bases && c in bases && b != c ==> RegionsApart(b, c))
  }

  predicate IsSlot(bases: set<Addr>, slot: Addr) {
    exists b, k: nat :: b in bases && k < SLOT_NUM && slot == SlotAddress(b, k)
  }

  predicate InRegion(bases: set<Addr>, a: Addr) {
    exists b :: b in bases && b <= a < b + SLOT_NUM * SLOT_SIZE
  }

  lemma SlotWords(objects: seq<Object>, bases: set<Addr>, slot: Addr)
    requires Geometry(objects, bases) && IsSlot(bases, slot)
    ensures InRegion(bases, slot) && InRegion(bases, slot + 4) && slot % 8 == 0
  {
    var b, k: nat :| b in bases && k < SLOT_NUM && slot == SlotAddress(b, k);
    assert b % PAGE == 0;
    hide Geometry, IsSlot;
    SlotAligned(b, k);
    assert b <= slot < slot + 4 < b + SLOT_NUM * SLOT_SIZE;
  }

  lemma SlotAligned(b: Addr, k: nat)
    requires b % PAGE == 0
    ensures SlotAddress(b, k) % 8 == 0
  {
    var p := b / PAGE;
    assert SlotAddress(b, k) == 8 * (512 * p + k);
  }

  /** A return address is never an address that breakpoint_add accepts, not even the end of a text range. */
  lemma ReturnNotAccepted(objects: seq<Object>, bases: set<Addr>, slot: Addr, enter: Addr)
    requires Geometry(objects, bases) && IsSlot(bases, slot) && GetByAddress(objects, enter).Some?
    ensures enter != slot + 4
  {
    var b, k: nat :| b in bases && k < SLOT_NUM && slot == SlotAddress(b, k);
    var o := objects[GetByAddress(objects, enter).value];
    assert Apart(o, b);
  }

  /** The end of a text range is accepted, and can be the first word of a slot. */
  lemma EndCanBeASlot()
    ensures var objects, bases := [Object(0x1000, 0x2000, false)], {0x2000};
      Geometry(objects, bases) && GetByAddress(objects, 0x2000) == Some(0) && IsSlot(bases, 0x2000)
  {
    var objects, bases := [Object(0x1000, 0x2000, false)], {0x2000};
    assert 0x2000 in bases && SlotAddress(0x2000, 0) == 0x2000;
  }

  /** An accepted address below the end of its text range is never in a slot region. */
  lemma BelowEndIsClean(w: World, enter: Addr)
    requires Geometry(w.objects, w.bases) && GetByAddress(w.objects, enter).Some?
    requires enter < w.objects[GetByAddress(w.objects, enter).value].text_end
    ensures !InRegion(w.bases, enter)
  {
    forall b | b in w.bases
      ensures !(b <= enter < b + SLOT_NUM * SLOT_SIZE)
    {
      assert Apart(w.objects[GetByAddress(w.objects, enter).value], b);
    }
  }

  // ---- the slot allocator as a value ----

  /** A slot set: where its slots are and which are free. */
  datatype Page = Page(base: Addr, free: set<nat>)

  type Pool = seq<Page>

  /** The first set that is not full. */
  function FirstOpen(pool: Pool): (i: nat)
    ensures i <= |pool| && (forall j :: 0 <= j < i ==> pool[j].free == {}) && (i < |pool| ==> pool[i].free != {})
  {
    if pool == [] || pool[0].free != {} then 0 else 1 + FirstOpen(pool[1..])
  }

  /** slot_alloc: the sets afterwards and the slot; `base` is what mmap gives if a set has to be added. */
  ghost function Allocate(pool: Pool, base: Addr): (Pool, Addr) {
    var i := FirstOpen(pool);
    if i < |pool| then
      var k := LeastOf(pool[i].free);
      (pool[i := Page(pool[i].base, pool[i].free - {k})], SlotAddress(pool[i].base, k))
    else
      ([Page(base, Upto(SLOT_NUM) - {0})] + pool, SlotAddress(base, 0))
  }

  /** Sets lie at different addresses that mmap gave. */
  predicate PoolOk(bases: set<Addr>, pool: Pool) {
    && (forall i :: 0 <= i < |pool| ==> pool[i].base in bases && forall k :: k in pool[i].free ==> 0 <= k < SLOT_NUM)
    && (forall i, j :: 0 <= i < j < |pool| ==> pool[i].base != pool[j].base)
  }

  /** mmap gives a region that no set has. */
  predicate NewBase(bases: set<Addr>, pool: Pool, base: Addr) {
    base in bases && forall i :: 0 <= i < |pool| ==> pool[i].base != base
  }

  predicate TakenAt(pool: Pool, slot: Addr, i: nat, k: nat) {
    i < |pool| && k < SLOT_NUM && k !in pool[i].free && slot == SlotAddress(pool[i].base, k)
  }

  ghost predicate Taken(pool: Pool, slot: Addr) {
    exists i: nat, k: nat :: TakenAt(pool, slot, i, k)
  }

  /** A slot of an added set is not one of another set. */
  lemma NewSetApart(bases: set<Addr>, pool: Pool, base: Addr, i: nat, k: nat)
    requires (forall b, c :: b in bases && c in bases && b != c ==> RegionsApart(b, c))
    requires PoolOk(bases, pool) && NewBase(bases, pool, base) && i < |pool| && k < SLOT_NUM
    ensures SlotAddress(pool[i].base, k) != SlotAddress(base, 0)
  {
    SlotsApart(pool[i].base, k, base, 0);
  }

  /** The slot that slot_alloc returns was taken by nobody, is taken now, and the others stay taken. */
  lemma AllocateFresh(objects: seq<Object>, bases: set<Addr>, pool: Pool, base: Addr)
    requires Geometry(objects, bases) && PoolOk(bases, pool) && NewBase(bases, pool, base)
    ensures var (pool', slot) := Allocate(pool, base);
      && PoolOk(bases, pool') && IsSlot(bases, slot) && !Taken(pool, slot) && Taken(pool', slot)
      && forall x :: Taken(pool, x) ==> Taken(pool', x)
  {
    var i := FirstOpen(pool);
    if i < |pool| {
      FromOpenSet(objects, bases, pool, base, i);
    } else {
      FromNewSet(objects, bases, pool, base);
    }
  }

  lemma FromOpenSet(objects: seq<Object>, bases: set<Addr>, pool: Pool, base: Addr, i: nat)
    requires Geometry(objects, bases) && PoolOk(bases, pool) && NewBase(bases, pool, base)
    requires i == FirstOpen(pool) && i < |pool|
    ensures var (pool', slot) := Allocate(pool, base);
      && PoolOk(bases, pool') && IsSlot(bases, slot) && !Taken(pool, slot) && Taken(pool', slot)
      && forall x :: Taken(pool, x) ==> Taken(pool', x)
  {
    var k := LeastOf(pool[i].free);
    var (pool', slot) := Allocate(pool, base);
    GeometryApart(objects, bases);
    assert IsSlot(bases, slot);
    hide Geometry, SlotAddress, LeastOf, FirstOpen, Allocate, IsSlot;
    ShrunkPool(bases, pool, i, k);
    OneMoreTaken(pool, i, k);
    hide PoolOk;
    NotTakenYet(bases, pool, i, k);
  }

  lemma ShrunkPool(bases: set<Addr>, pool: Pool, i: nat, k: nat)
    requires PoolOk(bases, pool) && i < |pool|
    ensures PoolOk(bases, pool[i := Page(pool[i].base, pool[i].free - {k})])
  {
  }

  lemma OneMoreTaken(pool: Pool, i: nat, k: nat)
    requires i < |pool| && k < SLOT_NUM
    ensures var pool' := pool[i := Page(pool[i].base, pool[i].free - {k})];
      Taken(pool', SlotAddress(pool[i].base, k)) && forall x :: Taken(pool, x) ==> Taken(pool', x)
  {
    hide SlotAddress;
    var pool' := pool[i := Page(pool[i].base, pool[i].free - {k})];
    assert TakenAt(pool', SlotAddress(pool[i].base, k), i, k);
    forall x | Taken(pool, x)
      ensures Taken(pool', x)
    {
      var j: nat, m: nat :| TakenAt(pool, x, j, m);
      assert TakenAt(pool', x, j, m);
    }
  }

  lemma NotTakenYet(bases: set<Addr>, pool: Pool, i: nat, k: nat)
    requires (forall b, c :: b in bases && c in bases && b != c ==> RegionsApart(b, c)) && PoolOk(bases, pool)
    requires i < |pool| && k in pool[i].free
    ensures !Taken(pool, SlotAddress(pool[i].base, k))
  {
    hide SlotAddress;
    assert k < SLOT_NUM;
    forall j: nat, m: nat | j < |pool| && m < SLOT_NUM && m !in pool[j].free
      ensures SlotAddress(pool[i].base, k) != SlotAddress(pool[j].base, m)
    {
      OtherAddress(bases, pool, i, k, j, m);
    }
  }

  lemma OtherAddress(bases: set<Addr>, pool: Pool, i: nat, k: nat, j: nat, m: nat)
    requires (forall b, c :: b in bases && c in bases && b != c ==> RegionsApart(b, c)) && PoolOk(bases, pool)
    requires i < |pool| && j < |pool| && k < SLOT_NUM && m < SLOT_NUM && (i != j || k != m)
    ensures SlotAddress(pool[i].base, k) != SlotAddress(pool[j].base, m)
  {
    SlotsApart(pool[i].base, k, pool[j].base, m);
  }

  lemma GeometryApart(objects: seq<Object>, bases: set<Addr>)
    requires Geometry(objects, bases)
    ensures forall b, c :: b in bases && c in bases && b != c ==> RegionsApart(b, c)
  {
  }

  lemma GrownPool(bases: set<Addr>, pool: Pool, page: Page)
    requires PoolOk(bases, pool) && NewBase(bases, pool, page.base)
    requires forall k :: k in page.free ==> 0 <= k < SLOT_NUM
    ensures PoolOk(bases, [page] + pool)
  {
  }

  lemma FromNewSet(objects: seq<Object>, bases: set<Addr>, pool: Pool, base: Addr)
    requires Geometry(objects, bases) && PoolOk(bases, pool) && NewBase(bases, pool, base)
    requires FirstOpen(pool) == |pool|
    ensures var (pool', slot) := Allocate(pool, base);
      && PoolOk(bases, pool') && IsSlot(bases, slot) && !Taken(pool, slot) && Taken(pool', slot)
      && forall x :: Taken(pool, x) ==> Taken(pool', x)
  {
    var (pool', slot) := Allocate(pool, base);
    GeometryApart(objects, bases);
    hide Geometry, SlotAddress, FirstOpen;
    assert IsSlot(bases, slot);
    assert TakenAt(pool', slot, 0, 0);
    assert pool'[1..] == pool;
    hide Allocate, Upto;
    assert PoolOk(bases, pool') by { GrownPool(bases, pool, pool'[0]); }
    forall j: nat, m: nat | j < |pool| && m < SLOT_NUM
      ensures slot != SlotAddress(pool[j].base, m)
    {
      NewSetApart(bases, pool, base, j, m);
    }
    forall x | Taken(pool, x)
      ensures Taken(pool', x)
    {
      var j: nat, m: nat :| TakenAt(pool, x, j, m);
      assert TakenAt(pool', x, j + 1, m);
    }
  }

  // ---- the state and what each call does to it ----

  /** The process: its objects, the addresses that mmap will give, the words in memory at the start, and which of
      these can be written without removing any protection. */
  datatype World = World(objects: seq<Object>, bases: set<Addr>, orig: map<Addr, Instr>, writable: set<Addr>)

  datatype State = State(mem: map<Addr, Instr>, index: map<Addr, Id>, bkpts: map<Id, Bkpt>, pool: Pool)

  /** Memory is modelled word by word, so addresses in use are multiples of 4. */
  predicate Aligned(mem: map<Addr, Instr>) {
    forall a :: a in mem ==> WordAt(a)
  }

  predicate WordAt(a: Addr) {
    a % 4 == 0
  }

  /** The address lies in a region of the pool, which is mapped writable. */
  predicate InPool(pool: Pool, a: Addr) {
    exists i :: 0 <= i < |pool| && pool[i].base <= a < pool[i].base + SLOT_NUM * SLOT_SIZE
  }

  /** object_memory_unlock removes the protection of an object's text up to its end, the end excluded. */
  predicate Covered(w: World, a: Addr) {
    var o := GetByAddress(w.objects, a);
    o.Some? && a < w.objects[o.value].text_end
  }

  /** A store at `a` by breakpoint_enable or breakpoint_disable does not fault. */
  predicate CanStore(w: World, s: State, a: Addr) {
    Covered(w, a) || a in w.writable || InPool(s.pool, a)
  }

  predicate Added(s: State, id: Id) {
    id in s.bkpts && s.bkpts[id].obj.Some?
  }

  /** `s'` is what a successful breakpoint_add leaves of `s`: the object and the keys are entered, and if the
      breakpoint is to have a slot, it is one that nobody had and holds the displaced word and brk. */
  ghost predicate Entered(objects: seq<Object>, s: State, id: Id, s': State)
    requires id in s.bkpts && (!s.bkpts[id].no_slot ==> s.bkpts[id].enter in s.mem)
  {
    var b := s.bkpts[id];
    && id in s'.bkpts && s'.bkpts == s.bkpts[id := s'.bkpts[id]]
    && var b' := s'.bkpts[id];
    && b' == Bkpt(b.enter, b.enable, b.no_slot, b'.slot, b'.obj)
    && b'.obj.Some? && FirstHolding(objects, b.enter, b'.obj.value)
    && if b.no_slot then b'.slot == b.slot && s' == s.(bkpts := s'.bkpts, index := s.index[b.enter := id])
       else
         && b'.slot.Some?
         && var slot := b'.slot.value;
         && Unused(s, slot) && slot + 4 !in s.index
         && s'.mem == s.mem[slot := s.mem[b.enter]][slot + 4 := 0xD420_0060]
         && s'.index == s.index[b.enter := id][slot + 4 := id]
  }

  /** The return code that the checks before any change give. */
  function AddCode(w: World, s: State, enter: Addr): int {
    var o := GetByAddress(w.objects, enter);
    if o.None? then -1 else if w.objects[o.value].no_bkpt then -2 else if enter in s.index then -3 else 0
  }

  /** Object `i` is the first whose range holds `a`, both ends included. */
  predicate FirstHolding(objects: seq<Object>, a: Addr, i: int) {
    && 0 <= i < |objects| && objects[i].text_start <= a <= objects[i].text_end
    && forall j :: 0 <= j < i ==> !(objects[j].text_start <= a <= objects[j].text_end)
  }

  /** The first object that holds `a` may have breakpoints, and `a` is no key yet. */
  ghost predicate Accepts(objects: seq<Object>, index: map<Addr, Id>, a: Addr) {
    a !in index && exists i :: FirstHolding(objects, a, i) && !objects[i].no_bkpt
  }

  lemma FirstIs(objects: seq<Object>, a: Addr, i: nat)
    ensures FirstHolding(objects, a, i) <==> GetByAddress(objects, a) == Some(i)
  {
  }

  /** What each return code means. */
  lemma CodeMeans(w: World, s: State, a: Addr)
    ensures AddCode(w, s, a) == 0 <==> Accepts(w.objects, s.index, a)
    ensures AddCode(w, s, a) == -1 <==> forall i :: 0 <= i < |w.objects| ==>
      !(w.objects[i].text_start <= a <= w.objects[i].text_end)
    ensures AddCode(w, s, a) == -2 <==> exists i :: FirstHolding(w.objects, a, i) && w.objects[i].no_bkpt
    ensures AddCode(w, s, a) == -3 <==>
      a in s.index && exists i :: FirstHolding(w.objects, a, i) && !w.objects[i].no_bkpt
    ensures forall i :: FirstHolding(w.objects, a, i) ==> GetByAddress(w.objects, a) == Some(i)
  {
    var o := GetByAddress(w.objects, a);
    forall i: nat
      ensures FirstHolding(w.objects, a, i) <==> o == Some(i)
    {
      FirstIs(w.objects, a, i);
    }
    hide GetByAddress;
    if o.Some? {
      assert FirstHolding(w.objects, a, o.value);
    } else {
      forall i | 0 <= i < |w.objects|
        ensures !(w.objects[i].text_start <= a <= w.objects[i].text_end)
      {
        NoneHolds(w.objects, a, i);
      }
    }
  }

  lemma NoneHolds(objects: seq<Object>, a: Addr, i: nat)
    requires GetByAddress(objects, a).None? && i < |objects|
    ensures !(objects[i].text_start <= a <= objects[i].text_end)
  {
  }

  /** A store by breakpoint_enable at an accepted address faults exactly if that is the end of the first range that
      holds it and the word is not writable anyway. */
  lemma CanStoreExactly(w: World, s: State, a: Addr)
    requires GetByAddress(w.objects, a).Some?
    ensures CanStore(w, s, a) <==>
      || a in w.writable || (exists i :: FirstHolding(w.objects, a, i) && a < w.objects[i].text_end)
      || exists i :: 0 <= i < |s.pool| && s.pool[i].base <= a < s.pool[i].base + SLOT_NUM * SLOT_SIZE
  {
    FirstIs(w.objects, a, GetByAddress(w.objects, a).value);
    forall i | FirstHolding(w.objects, a, i)
      ensures GetByAddress(w.objects, a) == Some(i)
    {
      FirstIs(w.objects, a, i);
    }
  }

  /** What breakpoint_add asks of its caller, and of mmap. */
  predicate AddReady(w: World, s: State, id: Id, base: Addr) {
    && id in s.bkpts && s.bkpts[id].obj.None? && (!s.bkpts[id].no_slot ==> s.bkpts[id].enter in s.mem)
    && NewBase(w.bases, s.pool, base)
  }

  /** The slot that breakpoint_add would get. */
  ghost function NextSlot(s: State, base: Addr): Addr {
    Allocate(s.pool, base).1
  }

  /** The state after a successful breakpoint_add with the slot `slot`, leaving the sets `pool`. */
  function WithSlot(w: World, s: State, id: Id, slot: Addr, pool: Pool): State
    requires id in s.bkpts && s.bkpts[id].enter in s.mem
  {
    var b := s.bkpts[id];
    State(s.mem[slot := s.mem[b.enter]][slot + 4 := BRK], s.index[b.enter := id][slot + 4 := id],
          s.bkpts[id := b.(obj := GetByAddress(w.objects, b.enter), slot := Some(slot))], pool)
  }

  function WithoutSlot(w: World, s: State, id: Id): State
    requires id in s.bkpts
  {
    var b := s.bkpts[id];
    s.(index := s.index[b.enter := id], bkpts := s.bkpts[id := b.(obj := GetByAddress(w.objects, b.enter))])
  }

  ghost function AfterAdd(w: World, s: State, id: Id, base: Addr): State
    requires id in s.bkpts && (!s.bkpts[id].no_slot ==> s.bkpts[id].enter in s.mem)
  {
    if s.bkpts[id].no_slot then WithoutSlot(w, s, id)
    else WithSlot(w, s, id, NextSlot(s, base), Allocate(s.pool, base).0)
  }

  function AfterEnable(s: State, id: Id): State
    requires id in s.bkpts
  {
    var b := s.bkpts[id];
    if b.enable then s else s.(mem := s.mem[b.enter := BRK], bkpts := s.bkpts[id := b.(enable := true)])
  }

  function AfterDisable(s: State, id: Id): State
    requires id in s.bkpts
  {
    var b := s.bkpts[id];
    if !b.enable || b.slot.None? || b.slot.value !in s.mem then s
    else s.(mem := s.mem[b.enter := s.mem[b.slot.value]], bkpts := s.bkpts[id := b.(enable := false)])
  }

  // ---- the invariant of the index ----

  /** A key of the tree is the enter or the return address of the breakpoint it leads to. */
  predicate KeyOk(s: State, a: Addr) {
    a in s.index ==>
      Added(s, s.index[a]) && (a == s.bkpts[s.index[a]].enter || s.bkpts[s.index[a]].slot == Some(a - 4))
  }

  ghost predicate BkptOk(w: World, s: State, id: Id)
    requires id in s.bkpts
  {
    var b := s.bkpts[id];
    && (b.obj.None? ==> !b.enable && b.slot.None?)
    && (b.obj.Some? ==>
          && GetByAddress(w.objects, b.enter).Some? && b.enter in s.index && s.index[b.enter] == id
          && (b.slot.None? <==> b.no_slot))
    && (b.slot.Some? ==>
          && IsSlot(w.bases, b.slot.value) && Taken(s.pool, b.slot.value)
          && b.slot.value + 4 in s.index && s.index[b.slot.value + 4] == id)
  }

  predicate PairOk(s: State, id: Id, c: Id) {
    id in s.bkpts && c in s.bkpts && id != c && s.bkpts[id].slot.Some? ==> s.bkpts[id].slot != s.bkpts[c].slot
  }

  /** A slot is in memory, and an enabled breakpoint stands where stores do not fault. */
  predicate PlaceOk(w: World, s: State, id: Id)
    requires id in s.bkpts
  {
    var b := s.bkpts[id];
    (b.slot.Some? ==> b.slot.value in s.mem) && (b.enable ==> CanStore(w, s, b.enter))
  }

  /** No breakpoint has the slot. */
  ghost predicate Unused(s: State, slot: Addr) {
    forall c :: c in s.bkpts ==> s.bkpts[c].slot != Some(slot)
  }

  /** A word that is no key and starts no slot in use is still the original one. */
  ghost predicate Untouched(w: World, s: State, a: Addr) {
    a in w.orig && a !in s.index && Unused(s, a) ==> a in s.mem && s.mem[a] == w.orig[a]
  }

  ghost predicate TreeInv(w: World, s: State) {
    && Geometry(w.objects, w.bases) && PoolOk(w.bases, s.pool) && Aligned(s.mem)
    && (forall a :: KeyOk(s, a)) && (forall id :: id in s.bkpts ==> BkptOk(w, s, id))
    && (forall id, c :: PairOk(s, id, c))
  }

  ghost predicate IndexInv(w: World, s: State) {
    TreeInv(w, s) && (forall id :: id in s.bkpts ==> PlaceOk(w, s, id)) && (forall a :: Untouched(w, s, a))
  }

  /** The slot that slot_alloc returns belongs to no breakpoint. */
  lemma NextSlotUnused(w: World, s: State, base: Addr)
    requires TreeInv(w, s) && NewBase(w.bases, s.pool, base)
    ensures Unused(s, NextSlot(s, base)) && IsSlot(w.bases, NextSlot(s, base))
    ensures var pool := Allocate(s.pool, base).0;
      && PoolOk(w.bases, pool) && Taken(pool, NextSlot(s, base)) && forall x :: Taken(s.pool, x) ==> Taken(pool, x)
  {
    hide Geometry, PoolOk, Taken, Allocate, IsSlot, KeyOk, PairOk;
    AllocateFresh(w.objects, w.bases, s.pool, base);
    forall c | c in s.bkpts
      ensures s.bkpts[c].slot != Some(NextSlot(s, base))
    {
      assert BkptOk(w, s, c);
    }
  }

  /** The return address is not a key when it is inserted: the -4 exit is not taken. */
  lemma NoCollision(w: World, s: State, id: Id, base: Addr)
    requires TreeInv(w, s) && AddReady(w, s, id, base) && AddCode(w, s, s.bkpts[id].enter) == 0
    ensures NextSlot(s, base) + 4 !in s.index && NextSlot(s, base) + 4 != s.bkpts[id].enter
  {
    var slot := NextSlot(s, base);
    NextSlotUnused(w, s, base);
    hide Geometry, PoolOk, Taken, NextSlot, IsSlot, PairOk;
    ReturnNotAccepted(w.objects, w.bases, slot, s.bkpts[id].enter);
    forall a | a in s.index
      ensures a != slot + 4
    {
      KeyIsNoReturn(w, s, slot, a);
    }
  }

  lemma KeyIsNoReturn(w: World, s: State, slot: Addr, a: Addr)
    requires TreeInv(w, s) && IsSlot(w.bases, slot) && Unused(s, slot) && a in s.index
    ensures a != slot + 4
  {
    hide Geometry, PoolOk, Taken, IsSlot, PairOk;
    assert KeyOk(s, a) && BkptOk(w, s, s.index[a]);
    ReturnNotAccepted(w.objects, w.bases, slot, s.bkpts[s.index[a]].enter);
  }

  lemma WithSlotLocal(w: World, s: State, id: Id, slot: Addr, pool: Pool, a: Addr, c: Id)
    requires id in s.bkpts && s.bkpts[id].obj.None? && s.bkpts[id].enter in s.mem && !s.bkpts[id].no_slot
    requires AddCode(w, s, s.bkpts[id].enter) == 0 && IsSlot(w.bases, slot) && Unused(s, slot)
    requires Taken(pool, slot) && forall x :: Taken(s.pool, x) ==> Taken(pool, x)
    requires slot + 4 !in s.index && slot + 4 != s.bkpts[id].enter
    requires BkptOk(w, s, id) && KeyOk(s, a) && (c in s.bkpts ==> BkptOk(w, s, c))
    ensures var s' := WithSlot(w, s, id, slot, pool);
      KeyOk(s', a) && (c in s'.bkpts ==> BkptOk(w, s', c)) && PairOk(s', id, c) && PairOk(s', c, id)
  {
    hide Taken, IsSlot, GetByAddress;
  }

  lemma WithoutSlotLocal(w: World, s: State, id: Id, a: Addr, c: Id)
    requires id in s.bkpts && s.bkpts[id].obj.None? && s.bkpts[id].no_slot
    requires AddCode(w, s, s.bkpts[id].enter) == 0
    requires BkptOk(w, s, id) && KeyOk(s, a) && (c in s.bkpts ==> BkptOk(w, s, c))
    requires PairOk(s, id, c) && PairOk(s, c, id)
    ensures var s' := WithoutSlot(w, s, id);
      KeyOk(s', a) && (c in s'.bkpts ==> BkptOk(w, s', c)) && PairOk(s', id, c) && PairOk(s', c, id)
  {
    hide Taken, IsSlot, GetByAddress;
  }

  /** Facts about one key and one breakpoint. */
  ghost predicate LocalOk(w: World, s: State, a: Addr, c: Id) {
    KeyOk(s, a) && (c in s.bkpts ==> BkptOk(w, s, c))
  }

  lemma AddLocal(w: World, s: State, id: Id, base: Addr, s': State, a: Addr, c: Id)
    requires TreeInv(w, s) && AddReady(w, s, id, base) && AddCode(w, s, s.bkpts[id].enter) == 0
    requires s' == AfterAdd(w, s, id, base)
    ensures LocalOk(w, s', a, c) && PairOk(s', id, c) && PairOk(s', c, id)
  {
    assert KeyOk(s, a) && PairOk(s, id, c) && PairOk(s, c, id);
    if s.bkpts[id].no_slot {
      hide Geometry, PoolOk, Taken, IsSlot, AddCode, KeyOk, PairOk, BkptOk, WithoutSlot;
      WithoutSlotLocal(w, s, id, a, c);
    } else {
      NextSlotUnused(w, s, base);
      NoCollision(w, s, id, base);
      hide Geometry, PoolOk, Taken, IsSlot, AddCode, KeyOk, PairOk, BkptOk, WithSlot, NextSlot, Unused;
      WithSlotLocal(w, s, id, NextSlot(s, base), Allocate(s.pool, base).0, a, c);
    }
  }

  lemma AddFrame(w: World, s: State, id: Id, base: Addr, s': State)
    requires TreeInv(w, s) && AddReady(w, s, id, base) && s' == AfterAdd(w, s, id, base)
    ensures PoolOk(w.bases, s'.pool) && Aligned(s'.mem)
    ensures s'.bkpts.Keys == s.bkpts.Keys && forall c :: c in s.bkpts && c != id ==> s'.bkpts[c] == s.bkpts[c]
  {
    NextSlotUnused(w, s, base);
    assert Geometry(w.objects, w.bases) && Aligned(s.mem);
    hide TreeInv, PoolOk, Taken, IsSlot, NextSlot, Unused, Allocate, InRegion, GetByAddress, Geometry, NewBase, Aligned;
    if !s.bkpts[id].no_slot {
      SlotWords(w.objects, w.bases, NextSlot(s, base));
      AlignedWrites(s.mem, NextSlot(s, base), s.mem[s.bkpts[id].enter], BRK);
    }
  }

  lemma AlignedWrites(mem: map<Addr, Instr>, slot: Addr, v: Instr, v': Instr)
    requires Aligned(mem) && slot % 8 == 0
    ensures Aligned(mem[slot := v][slot + 4 := v'])
  {
    TwoWords(slot);
    hide WordAt;
  }

  lemma TwoWords(slot: Addr)
    requires slot % 8 == 0
    ensures WordAt(slot) && WordAt(slot + 4)
  {
    var h := slot / 8;
    assert slot == 4 * (2 * h) && slot + 4 == 4 * (2 * h + 1);
  }

  /** breakpoint_add keeps the keys equal to the enter and return addresses, and the slots apart. */
  lemma AddKeepsTree(w: World, s: State, id: Id, base: Addr)
    requires TreeInv(w, s) && AddReady(w, s, id, base) && AddCode(w, s, s.bkpts[id].enter) == 0
    ensures TreeInv(w, AfterAdd(w, s, id, base))
  {
    var s' := AfterAdd(w, s, id, base);
    AddFrame(w, s, id, base, s');
    hide KeyOk, BkptOk, Geometry, AddCode, PoolOk, AfterAdd;
    forall a
      ensures KeyOk(s', a)
    {
      AddLocal(w, s, id, base, s', a, id);
    }
    forall c | c in s'.bkpts
      ensures BkptOk(w, s', c)
    {
      AddLocal(w, s, id, base, s', 0, c);
    }
    forall c, d
      ensures PairOk(s', c, d)
    {
      if c == id {
        AddLocal(w, s, id, base, s', 0, d);
      } else if d == id {
        AddLocal(w, s, id, base, s', 0, c);
      } else {
        assert PairOk(s, c, d);
      }
    }
  }

  lemma WithSlotPlaces(w: World, s: State, id: Id, slot: Addr, pool: Pool, a: Addr, c: Id)
    requires id in s.bkpts && s.bkpts[id].slot.None? && !s.bkpts[id].enable && s.bkpts[id].enter in s.mem
    requires c in s.bkpts && PlaceOk(w, s, c) && Untouched(w, s, a) && forall x: Addr :: InPool(s.pool, x) ==>
      InPool(pool, x)
    ensures var s' := WithSlot(w, s, id, slot, pool); c in s'.bkpts && PlaceOk(w, s', c) && Untouched(w, s', a)
  {
    hide InPool, GetByAddress;
    var s' := WithSlot(w, s, id, slot, pool);
    assert forall d :: d in s.bkpts && d != id ==> s'.bkpts[d] == s.bkpts[d];
    assert id in s'.bkpts && s'.bkpts[id].slot == Some(slot);
  }

  lemma WithoutSlotPlaces(w: World, s: State, id: Id, a: Addr, c: Id)
    requires id in s.bkpts && s.bkpts[id].slot.None? && !s.bkpts[id].enable
    requires c in s.bkpts && PlaceOk(w, s, c) && Untouched(w, s, a)
    ensures var s' := WithoutSlot(w, s, id); c in s'.bkpts && PlaceOk(w, s', c) && Untouched(w, s', a)
  {
    hide InPool, GetByAddress;
    var s' := WithoutSlot(w, s, id);
    assert forall d :: d in s.bkpts ==> s'.bkpts[d].slot == s.bkpts[d].slot;
  }

  lemma AddPlaces(w: World, s: State, id: Id, base: Addr, s': State, a: Addr, c: Id)
    requires TreeInv(w, s) && AddReady(w, s, id, base) && s' == AfterAdd(w, s, id, base)
    requires c in s.bkpts && PlaceOk(w, s, c) && Untouched(w, s, a)
    ensures c in s'.bkpts && PlaceOk(w, s', c) && Untouched(w, s', a)
  {
    assert BkptOk(w, s, id);
    hide TreeInv, BkptOk, PlaceOk, Untouched, WithSlot, WithoutSlot, NextSlot;
    if s.bkpts[id].no_slot {
      WithoutSlotPlaces(w, s, id, a, c);
    } else {
      PoolGrows(s.pool, base);
      hide Allocate;
      WithSlotPlaces(w, s, id, NextSlot(s, base), Allocate(s.pool, base).0, a, c);
    }
  }

  /** No set is ever dropped from the pool. */
  lemma PoolGrows(pool: Pool, base: Addr)
    ensures forall x: Addr :: InPool(pool, x) ==> InPool(Allocate(pool, base).0, x)
  {
    var pool' := Allocate(pool, base).0;
    hide LeastOf, FirstOpen;
    forall x: Addr | InPool(pool, x)
      ensures InPool(pool', x)
    {
      var i :| 0 <= i < |pool| && pool[i].base <= x < pool[i].base + SLOT_NUM * SLOT_SIZE;
      var k := if |pool'| == |pool| then i else i + 1;
      assert pool'[k].base == pool[i].base;
    }
  }

  /** breakpoint_add keeps the invariant. */
  lemma AddKeepsIndex(w: World, s: State, id: Id, base: Addr)
    requires IndexInv(w, s) && AddReady(w, s, id, base) && AddCode(w, s, s.bkpts[id].enter) == 0
    ensures IndexInv(w, AfterAdd(w, s, id, base))
  {
    var s' := AfterAdd(w, s, id, base);
    AddKeepsTree(w, s, id, base);
    assert s'.bkpts.Keys == s.bkpts.Keys by { AddFrame(w, s, id, base, s'); }
    hide TreeInv, PlaceOk, Untouched, AfterAdd, AddCode, NewBase;
    forall c | c in s'.bkpts
      ensures PlaceOk(w, s', c)
    {
      AddPlaces(w, s, id, base, s', 0, c);
    }
    forall a
      ensures Untouched(w, s', a)
    {
      AddPlaces(w, s, id, base, s', a, id);
    }
  }

  /** What enabling and disabling may change: flags, and words that are keys. */
  ghost predicate PatchOnly(w: World, s: State, s': State) {
    && s'.index == s.index && s'.pool == s.pool && s'.bkpts.Keys == s.bkpts.Keys && Aligned(s'.mem)
    && (forall id :: id in s.bkpts ==> s'.bkpts[id] == s.bkpts[id].(enable := s'.bkpts[id].enable))
    && (forall id :: id in s.bkpts && s'.bkpts[id].enable && !s.bkpts[id].enable ==>
          s.bkpts[id].obj.Some? && CanStore(w, s, s.bkpts[id].enter))
    && (forall a :: a in s.mem ==> a in s'.mem && (a !in s.index ==> s'.mem[a] == s.mem[a]))
  }

  lemma PatchKeepsTree(w: World, s: State, s': State)
    requires TreeInv(w, s) && PatchOnly(w, s, s')
    ensures TreeInv(w, s')
  {
    hide Geometry, PoolOk, Taken, IsSlot, CanStore, Aligned, GetByAddress;
    forall a
      ensures KeyOk(s', a)
    {
      assert KeyOk(s, a);
    }
    forall id | id in s'.bkpts
      ensures BkptOk(w, s', id)
    {
      assert BkptOk(w, s, id);
    }
    forall id, c
      ensures PairOk(s', id, c)
    {
      assert PairOk(s, id, c);
    }
  }

  /** Enabling and disabling keep the invariant. */
  lemma PatchKeepsIndex(w: World, s: State, s': State)
    requires IndexInv(w, s) && PatchOnly(w, s, s')
    ensures IndexInv(w, s')
  {
    PatchKeepsTree(w, s, s');
    hide TreeInv, Aligned, Covered, InPool;
    forall id | id in s'.bkpts
      ensures PlaceOk(w, s', id)
    {
      assert PlaceOk(w, s, id);
    }
    forall a
      ensures Untouched(w, s', a)
    {
      assert Untouched(w, s, a);
    }
  }

  lemma NewKeepsTree(w: World, s: State, id: Id, b: Bkpt)
    requires TreeInv(w, s) && id !in s.bkpts && b.obj.None? && b.slot.None? && !b.enable
    ensures TreeInv(w, s.(bkpts := s.bkpts[id := b]))
  {
    hide Geometry, PoolOk, Taken, IsSlot, Aligned;
    var s' := s.(bkpts := s.bkpts[id := b]);
    forall a
      ensures KeyOk(s', a)
    {
      assert KeyOk(s, a);
    }
    forall c | c in s'.bkpts
      ensures BkptOk(w, s', c)
    {
      if c != id { assert BkptOk(w, s, c); }
    }
    forall c, d
      ensures PairOk(s', c, d)
    {
      assert PairOk(s, c, d);
    }
  }

  lemma NewKeepsIndex(w: World, s: State, id: Id, b: Bkpt)
    requires IndexInv(w, s) && id !in s.bkpts && b.obj.None? && b.slot.None? && !b.enable
    ensures IndexInv(w, s.(bkpts := s.bkpts[id := b]))
  {
    NewKeepsTree(w, s, id, b);
    hide TreeInv, Covered, InPool;
    var s' := s.(bkpts := s.bkpts[id := b]);
    forall c | c in s'.bkpts
      ensures PlaceOk(w, s', c)
    {
      if c != id { assert PlaceOk(w, s, c); }
    }
    forall a
      ensures Untouched(w, s', a)
    {
      assert Untouched(w, s, a);
      assert forall c :: c in s.bkpts ==> s'.bkpts[c] == s.bkpts[c];
    }
  }

  // ---- what memory should hold ----

  /** The slot holds the displaced instruction followed by brk. */
  predicate SlotIntact(w: World, s: State, id: Id)
    requires id in s.bkpts
  {
    var b := s.bkpts[id];
    b.slot.Some? ==>
      && b.enter in w.orig && b.slot.value in s.mem && s.mem[b.slot.value] == w.orig[b.enter]
      && b.slot.value + 4 in s.mem && s.mem[b.slot.value + 4] == BRK
  }

  predicate EnabledAt(s: State, a: Addr) {
    a in s.index && s.index[a] in s.bkpts && s.bkpts[s.index[a]].enter == a && s.bkpts[s.index[a]].enable
  }

  /** Outside the slot regions: brk at exactly the enabled breakpoints, else the original word. */
  predicate CellOk(w: World, s: State, a: Addr) {
    !InRegion(w.bases, a) ==>
      (a in s.mem <==> a in w.orig) && (a in w.orig ==> s.mem[a] == if EnabledAt(s, a) then BRK else w.orig[a])
  }

  ghost predicate MemoryInv(w: World, s: State) {
    (forall id :: id in s.bkpts ==> SlotIntact(w, s, id)) && (forall a :: CellOk(w, s, a))
  }

  /** Every enabled breakpoint stands on a brk, inside the slot regions too. */
  predicate Armed(s: State, id: Id)
    requires id in s.bkpts
  {
    s.bkpts[id].enable ==> s.bkpts[id].enter in s.mem && s.mem[s.bkpts[id].enter] == BRK
  }

  ghost predicate ArmedInv(s: State) {
    forall id :: id in s.bkpts ==> Armed(s, id)
  }

  /** The program has no brk of its own. */
  predicate NoBrk(w: World) {
    forall a :: a in w.orig ==> w.orig[a] != BRK
  }

  // ---- adding ----

  /** What breakpoint_add copies into the slot is the original word. */
  predicate ReadsOriginal(w: World, s: State, id: Id) {
    id in s.bkpts && s.bkpts[id].enter in w.orig && s.bkpts[id].enter in s.mem
    && s.mem[s.bkpts[id].enter] == w.orig[s.bkpts[id].enter]
  }

  /** The original word at the address of a breakpoint is also what a slot in use at that address should hold. */
  ghost predicate SpoilsNoSlot(w: World, s: State, id: Id)
    requires id in s.bkpts
  {
    forall c :: c in s.bkpts && s.bkpts[c].slot == Some(s.bkpts[id].enter) ==>
      && s.bkpts[c].enter in w.orig && s.bkpts[id].enter in w.orig
      && w.orig[s.bkpts[c].enter] == w.orig[s.bkpts[id].enter]
  }

  /** Before an add: the address held a word at the start, and a slot in use there should hold that word. */
  lemma ReadsOriginalIff(w: World, s: State, id: Id)
    requires IndexInv(w, s) && MemoryInv(w, s) && id in s.bkpts
    requires s.bkpts[id].enter in s.mem && s.bkpts[id].enter !in s.index
    ensures ReadsOriginal(w, s, id) <==> s.bkpts[id].enter in w.orig && SpoilsNoSlot(w, s, id)
  {
    var a := s.bkpts[id].enter;
    assert Untouched(w, s, a);
    hide TreeInv, PlaceOk, CellOk;
    if Unused(s, a) {
    } else {
      var c :| c in s.bkpts && s.bkpts[c].slot == Some(a);
      assert SlotIntact(w, s, c);
      forall d | d in s.bkpts && s.bkpts[d].slot == Some(a)
        ensures d == c || (SlotIntact(w, s, d) && s.mem[a] == w.orig[s.bkpts[d].enter])
      {
        assert SlotIntact(w, s, d);
      }
    }
  }

  lemma WithSlotMemory(w: World, s: State, id: Id, slot: Addr, pool: Pool, a: Addr, c: Id)
    requires id in s.bkpts && s.bkpts[id].obj.None? && s.bkpts[id].enter in s.mem && !s.bkpts[id].enable
    requires s.bkpts[id].enter !in s.index && KeyOk(s, a) && CellOk(w, s, a)
    requires GoodSlot(w, s, id, slot) && Unused(s, slot)
    requires c in s.bkpts && SlotIntact(w, s, c) && (s.bkpts[c].slot.Some? ==> s.bkpts[c].slot.value % 8 == 0)
    ensures var s' := WithSlot(w, s, id, slot, pool);
      CellOk(w, s', a) && (c in s'.bkpts && SlotIntact(w, s', c) <==> c != id || ReadsOriginal(w, s, id))
  {
    hide InRegion, GetByAddress;
    if s.bkpts[c].slot.Some? {
      NotTheNextWord(slot, s.bkpts[c].slot.value);
    }
  }

  lemma NotTheNextWord(slot: Addr, other: Addr)
    requires slot % 8 == 0 && other % 8 == 0
    ensures other != slot + 4 && slot != other + 4
  {
  }

  lemma WithoutSlotMemory(w: World, s: State, id: Id, a: Addr, c: Id)
    requires id in s.bkpts && !s.bkpts[id].enable && s.bkpts[id].enter !in s.index && KeyOk(s, a) && CellOk(w, s, a)
    requires c in s.bkpts && SlotIntact(w, s, c)
    ensures var s' := WithoutSlot(w, s, id); CellOk(w, s', a) && c in s'.bkpts && SlotIntact(w, s', c)
  {
    hide InRegion, GetByAddress;
  }

  lemma SlotAlignment(w: World, s: State, c: Id)
    requires IndexInv(w, s) && c in s.bkpts && s.bkpts[c].slot.Some?
    ensures InRegion(w.bases, s.bkpts[c].slot.value) && s.bkpts[c].slot.value % 8 == 0
  {
    assert BkptOk(w, s, c);
    SlotWords(w.objects, w.bases, s.bkpts[c].slot.value);
  }

  /** What the slot of a new breakpoint is like. */
  predicate GoodSlot(w: World, s: State, id: Id, slot: Addr) {
    && slot % 8 == 0 && InRegion(w.bases, slot) && InRegion(w.bases, slot + 4) && slot + 4 !in s.index
    && id in s.bkpts && slot + 4 != s.bkpts[id].enter
  }

  lemma NextSlotGood(w: World, s: State, id: Id, base: Addr)
    requires TreeInv(w, s) && AddReady(w, s, id, base) && AddCode(w, s, s.bkpts[id].enter) == 0
    ensures GoodSlot(w, s, id, NextSlot(s, base)) && Unused(s, NextSlot(s, base))
  {
    NextSlotUnused(w, s, base);
    NoCollision(w, s, id, base);
    assert Geometry(w.objects, w.bases);
    hide TreeInv, NextSlot, Allocate, AddCode, Unused, InRegion, Geometry, IsSlot, PoolOk, Taken;
    SlotWords(w.objects, w.bases, NextSlot(s, base));
  }

  /** The facts about one cell and one slot that an add starts from. */
  lemma BeforeAdd(w: World, s: State, id: Id, a: Addr, c: Id)
    requires IndexInv(w, s) && MemoryInv(w, s) && id in s.bkpts && s.bkpts[id].obj.None? && c in s.bkpts
    ensures !s.bkpts[id].enable && KeyOk(s, a) && CellOk(w, s, a) && SlotIntact(w, s, c)
    ensures s.bkpts[c].slot.Some? ==> s.bkpts[c].slot.value % 8 == 0
  {
    assert BkptOk(w, s, id) && KeyOk(s, a);
    hide BkptOk, KeyOk, PairOk, Geometry, PoolOk, InRegion, CellOk, SlotIntact, PlaceOk, Untouched;
    if s.bkpts[c].slot.Some? {
      SlotAlignment(w, s, c);
    }
  }

  lemma AddMemoryLocal(w: World, s: State, id: Id, base: Addr, s': State, a: Addr, c: Id)
    requires IndexInv(w, s) && MemoryInv(w, s) && AddReady(w, s, id, base)
    requires AddCode(w, s, s.bkpts[id].enter) == 0 && s' == AfterAdd(w, s, id, base) && c in s.bkpts
    ensures CellOk(w, s', a) && c in s'.bkpts
    ensures SlotIntact(w, s', c) <==> c != id || s.bkpts[id].no_slot || ReadsOriginal(w, s, id)
  {
    BeforeAdd(w, s, id, a, c);
    NextSlotGood(w, s, id, base);
    assert s.bkpts[id].enter !in s.index by { hide IndexInv, MemoryInv, GetByAddress; }
    hide IndexInv, MemoryInv, AddCode, KeyOk, CellOk, SlotIntact, WithSlot, WithoutSlot, NextSlot, Allocate;
    hide GoodSlot, Unused, ReadsOriginal, NewBase;
    if s.bkpts[id].no_slot {
      WithoutSlotMemory(w, s, id, a, c);
    } else {
      WithSlotMemory(w, s, id, NextSlot(s, base), Allocate(s.pool, base).0, a, c);
    }
  }

  /** Adding a breakpoint keeps text and slots as they should be exactly if its address held a word at the start, and a
      slot in use that starts there should hold the same word. */
  lemma AddKeepsMemory(w: World, s: State, id: Id, base: Addr)
    requires IndexInv(w, s) && MemoryInv(w, s) && AddReady(w, s, id, base)
    requires AddCode(w, s, s.bkpts[id].enter) == 0
    ensures MemoryInv(w, AfterAdd(w, s, id, base)) <==>
      s.bkpts[id].no_slot || (s.bkpts[id].enter in w.orig && SpoilsNoSlot(w, s, id))
  {
    var s' := AfterAdd(w, s, id, base);
    assert s'.bkpts.Keys == s.bkpts.Keys by { AddFrame(w, s, id, base, s'); }
    if !s.bkpts[id].no_slot {
      assert s.bkpts[id].enter !in s.index by { hide IndexInv, MemoryInv, GetByAddress; }
      ReadsOriginalIff(w, s, id);
    }
    hide CellOk, SlotIntact, AddCode, AfterAdd, ReadsOriginal, IndexInv, NewBase, SpoilsNoSlot;
    forall c | c in s.bkpts
      ensures SlotIntact(w, s', c) <==> c != id || s.bkpts[id].no_slot || ReadsOriginal(w, s, id)
    {
      AddMemoryLocal(w, s, id, base, s', 0, c);
    }
    forall a
      ensures CellOk(w, s', a)
    {
      AddMemoryLocal(w, s, id, base, s', a, id);
    }
  }

  ghost predicate NoneArmedAt(s: State, a: Addr) {
    forall c :: c in s.bkpts && s.bkpts[c].enable ==> s.bkpts[c].enter != a
  }

  lemma AddArmedLocal(w: World, s: State, id: Id, base: Addr, s': State, c: Id)
    requires IndexInv(w, s) && ArmedInv(s) && AddReady(w, s, id, base) && !s.bkpts[id].no_slot
    requires s' == AfterAdd(w, s, id, base) && c in s.bkpts
    ensures c in s'.bkpts
    ensures Armed(s', c) <==>
      !s.bkpts[c].enable || s.mem[s.bkpts[id].enter] == BRK || s.bkpts[c].enter != NextSlot(s, base)
  {
    NextSlotOff(w, s, base, c);
    assert Armed(s, c) by { hide IndexInv; }
    assert !s.bkpts[id].enable by { NotYetEnabled(w, s, id); }
    hide IndexInv, ArmedInv, Armed, WithSlot, NextSlot, Allocate, NewBase;
    WithSlotArmed(w, s, id, NextSlot(s, base), Allocate(s.pool, base).0, c);
  }

  lemma NotYetEnabled(w: World, s: State, id: Id)
    requires IndexInv(w, s) && id in s.bkpts && s.bkpts[id].obj.None?
    ensures !s.bkpts[id].enable
  {
    assert BkptOk(w, s, id);
  }

  /** No enabled breakpoint stands on the return address of the next slot. */
  lemma NextSlotOff(w: World, s: State, base: Addr, c: Id)
    requires IndexInv(w, s) && NewBase(w.bases, s.pool, base) && c in s.bkpts
    ensures s.bkpts[c].enable ==> s.bkpts[c].enter != NextSlot(s, base) + 4
  {
    NextSlotUnused(w, s, base);
    hide NextSlot, Allocate, IsSlot, Taken, PoolOk, Unused, Geometry, KeyOk, PairOk, PlaceOk, Untouched;
    assert BkptOk(w, s, c);
    if s.bkpts[c].enable {
      ReturnNotAccepted(w.objects, w.bases, NextSlot(s, base), s.bkpts[c].enter);
    }
  }

  lemma WithSlotArmed(w: World, s: State, id: Id, slot: Addr, pool: Pool, c: Id)
    requires id in s.bkpts && c in s.bkpts && s.bkpts[id].enter in s.mem && Armed(s, c) && !s.bkpts[id].enable
    requires s.bkpts[c].enable ==> s.bkpts[c].enter != slot + 4
    ensures var s' := WithSlot(w, s, id, slot, pool);
      c in s'.bkpts &&
      (Armed(s', c) <==> !s.bkpts[c].enable || s.mem[s.bkpts[id].enter] == BRK || s.bkpts[c].enter != slot)
  {
    hide GetByAddress;
  }

  /** Adding overwrites the brk of an enabled breakpoint that stands on the first word of the new slot, and no other. */
  lemma AddKeepsArmed(w: World, s: State, id: Id, base: Addr)
    requires IndexInv(w, s) && ArmedInv(s) && AddReady(w, s, id, base)
    ensures ArmedInv(AfterAdd(w, s, id, base)) <==>
      s.bkpts[id].no_slot || s.mem[s.bkpts[id].enter] == BRK || NoneArmedAt(s, NextSlot(s, base))
  {
    var s' := AfterAdd(w, s, id, base);
    AddFrame(w, s, id, base, s');
    if s.bkpts[id].no_slot {
      hide IndexInv;
      assert forall c :: c in s.bkpts ==> Armed(s, c) && Armed(s', c);
    } else {
      hide IndexInv, AfterAdd, NextSlot, Armed;
      forall c | c in s.bkpts
        ensures Armed(s', c) <==>
          !s.bkpts[c].enable || s.mem[s.bkpts[id].enter] == BRK || s.bkpts[c].enter != NextSlot(s, base)
      {
        AddArmedLocal(w, s, id, base, s', c);
      }
    }
  }

  // ---- enabling ----

  lemma EnableCell(w: World, s: State, id: Id, a: Addr)
    requires Added(s, id) && BkptOk(w, s, id) && KeyOk(s, a) && (a in s.index ==> BkptOk(w, s, s.index[a]))
    requires CellOk(w, s, a) && s.bkpts[id].enter in s.mem && !s.bkpts[id].enable
    ensures CellOk(w, AfterEnable(s, id), a)
  {
    hide IsSlot, InRegion, Taken, GetByAddress;
  }

  lemma EnableSlot(w: World, s: State, id: Id, c: Id)
    requires Added(s, id) && BkptOk(w, s, id) && c in s.bkpts && BkptOk(w, s, c) && SlotIntact(w, s, c)
    requires !s.bkpts[id].enable && NoBrk(w)
    ensures SlotIntact(w, AfterEnable(s, id), c) <==> s.bkpts[c].slot != Some(s.bkpts[id].enter)
  {
    hide IsSlot, Taken, GetByAddress;
  }

  lemma PatchKeys(s: State, id: Id)
    requires id in s.bkpts
    ensures AfterEnable(s, id).bkpts.Keys == s.bkpts.Keys
    ensures AfterDisable(s, id).bkpts.Keys == s.bkpts.Keys
  {
  }

  lemma KeyLeadsToAdded(s: State, a: Addr)
    requires KeyOk(s, a)
    ensures a in s.index ==> s.index[a] in s.bkpts
  {
  }

  /** breakpoint_enable keeps text and slots as they should be exactly if it does not patch the start of a slot
      in use, which it can only do for a breakpoint at the very end of a text range. */
  lemma EnableKeepsMemory(w: World, s: State, id: Id)
    requires IndexInv(w, s) && MemoryInv(w, s) && NoBrk(w)
    requires Added(s, id) && !s.bkpts[id].enable && s.bkpts[id].enter in s.mem
    ensures MemoryInv(w, AfterEnable(s, id)) <==> Unused(s, s.bkpts[id].enter)
  {
    hide CellOk, SlotIntact, BkptOk, Geometry, AfterEnable, KeyOk, PairOk, PoolOk;
    var s' := AfterEnable(s, id);
    PatchKeys(s, id);
    forall a
      ensures CellOk(w, s', a)
    {
      KeyLeadsToAdded(s, a);
      EnableCell(w, s, id, a);
    }
    forall c | c in s.bkpts
      ensures SlotIntact(w, s', c) <==> s.bkpts[c].slot != Some(s.bkpts[id].enter)
    {
      EnableSlot(w, s, id, c);
    }
  }

  // ---- disabling ----

  lemma DisableCell(w: World, s: State, id: Id, a: Addr)
    requires Added(s, id) && BkptOk(w, s, id) && SlotIntact(w, s, id) && s.bkpts[id].slot.Some?
    requires KeyOk(s, a) && (a in s.index ==> BkptOk(w, s, s.index[a])) && CellOk(w, s, a)
    requires s.bkpts[id].enable && s.bkpts[id].enter in s.mem
    ensures CellOk(w, AfterDisable(s, id), a)
  {
    hide IsSlot, InRegion, Taken, GetByAddress;
  }

  lemma DisableSlot(w: World, s: State, id: Id, c: Id)
    requires Added(s, id) && SlotIntact(w, s, id) && s.bkpts[id].slot.Some? && s.bkpts[id].enable
    requires c in s.bkpts && SlotIntact(w, s, c)
    requires s.bkpts[c].slot.Some? ==> s.bkpts[id].enter != s.bkpts[c].slot.value + 4
    ensures c in AfterDisable(s, id).bkpts
    ensures SlotIntact(w, AfterDisable(s, id), c) <==>
      (s.bkpts[c].slot == Some(s.bkpts[id].enter) ==> w.orig[s.bkpts[c].enter] == w.orig[s.bkpts[id].enter])
  {
  }

  lemma EnterIsNoReturn(w: World, s: State, id: Id, c: Id)
    requires IndexInv(w, s) && Added(s, id) && c in s.bkpts
    ensures s.bkpts[c].slot.Some? ==> s.bkpts[id].enter != s.bkpts[c].slot.value + 4
  {
    if s.bkpts[c].slot.Some? {
      assert BkptOk(w, s, id) && BkptOk(w, s, c);
      ReturnNotAccepted(w.objects, w.bases, s.bkpts[c].slot.value, s.bkpts[id].enter);
    }
  }

  /** breakpoint_disable restores the original word from the slot; it keeps text and slots as they should be exactly
      if no slot in use starts at that address, unless that slot should hold the same word. */
  lemma DisableKeepsMemory(w: World, s: State, id: Id)
    requires IndexInv(w, s) && MemoryInv(w, s)
    requires Added(s, id) && s.bkpts[id].enable && s.bkpts[id].slot.Some? && s.bkpts[id].enter in s.mem
    ensures s.bkpts[id].slot.value in s.mem
    ensures MemoryInv(w, AfterDisable(s, id)) <==> SpoilsNoSlot(w, s, id)
  {
    assert SlotIntact(w, s, id);
    var s' := AfterDisable(s, id);
    PatchKeys(s, id);
    forall c | c in s.bkpts
      ensures c in s'.bkpts
      ensures SlotIntact(w, s', c) <==>
        (s.bkpts[c].slot == Some(s.bkpts[id].enter) ==> w.orig[s.bkpts[c].enter] == w.orig[s.bkpts[id].enter])
    {
      hide CellOk, BkptOk, Geometry, AfterDisable, KeyOk, PairOk, PoolOk;
      EnterIsNoReturn(w, s, id, c);
      DisableSlot(w, s, id, c);
    }
    forall a
      ensures CellOk(w, s', a)
    {
      hide CellOk, SlotIntact, BkptOk, Geometry, AfterDisable, KeyOk, PairOk, PoolOk;
      KeyLeadsToAdded(s, a);
      DisableCell(w, s, id, a);
    }
    hide CellOk, BkptOk, Geometry, AfterDisable, KeyOk, PairOk, PoolOk;
  }

  /** Enabling and disabling keep enabled breakpoints armed. */
  lemma PatchKeepsArmed(w: World, s: State, id: Id)
    requires IndexInv(w, s) && ArmedInv(s) && Added(s, id) && s.bkpts[id].enter in s.mem
    ensures ArmedInv(AfterEnable(s, id)) && ArmedInv(AfterDisable(s, id))
  {
    hide Geometry, PoolOk, KeyOk, PairOk, IsSlot, Taken, GetByAddress;
    assert BkptOk(w, s, id);
    forall c | c in s.bkpts
      ensures Armed(s, c) && (c != id && s.bkpts[c].enable ==> s.bkpts[c].enter != s.bkpts[id].enter)
    {
      assert BkptOk(w, s, c);
    }
  }

  /** While all enabled breakpoints are armed, none of them stands on a slot that is intact. */
  lemma ArmedOffSlots(w: World, s: State, id: Id)
    requires MemoryInv(w, s) && ArmedInv(s) && NoBrk(w) && id in s.bkpts && s.bkpts[id].enable
    ensures Unused(s, s.bkpts[id].enter)
  {
    hide CellOk;
    assert Armed(s, id);
    forall c | c in s.bkpts
      ensures s.bkpts[c].slot != Some(s.bkpts[id].enter)
    {
      assert SlotIntact(w, s, c);
    }
  }

  // ---- sequences of calls ----

  datatype Call = NewCall(id: Id, enter: Addr, no_slot: bool) | AddCall(id: Id, base: Addr) | EnableCall(id: Id)
    | DisableCall(id: Id)

  /** What the callers must see to, and what the call then does, if it returns: a store into protected text and a
      disable without a slot end the process. */
  ghost predicate Step(w: World, s: State, c: Call, s': State) {
    match c
    case NewCall(id, enter, no_slot) =>
      id !in s.bkpts && s' == s.(bkpts := s.bkpts[id := Bkpt(enter, false, no_slot, None, None)])
    case AddCall(id, base) =>
      AddReady(w, s, id, base) && s' == if AddCode(w, s, s.bkpts[id].enter) == 0 then AfterAdd(w, s, id, base) else s
    case EnableCall(id) =>
      && Added(s, id) && s.bkpts[id].enter in s.mem && (s.bkpts[id].enable || CanStore(w, s, s.bkpts[id].enter))
      && s' == AfterEnable(s, id)
    case DisableCall(id) =>
      && Added(s, id) && s.bkpts[id].enter in s.mem && (s.bkpts[id].enable ==> s.bkpts[id].slot.Some?)
      && s' == AfterDisable(s, id)
  }

  /** Text, slots and enabled breakpoints are all as they should be. */
  ghost predicate Sound(w: World, s: State) {
    MemoryInv(w, s) && ArmedInv(s)
  }

  /** What can be checked before a call: an add is at an address that held a word at the start and at which no slot in
      use should hold another one, and its own slot does not start under an enabled breakpoint; an enable is not at the
      start of a slot in use. */
  ghost predicate CallSound(w: World, s: State, c: Call) {
    match c
    case NewCall(_, _, _) => true
    case AddCall(id, base) =>
      id in s.bkpts &&
      (s.bkpts[id].no_slot || AddCode(w, s, s.bkpts[id].enter) != 0
       || (s.bkpts[id].enter in w.orig && SpoilsNoSlot(w, s, id) && NoneArmedAt(s, NextSlot(s, base))))
    case EnableCall(id) => id in s.bkpts && (s.bkpts[id].enable || Unused(s, s.bkpts[id].enter))
    case DisableCall(_) => true
  }

  lemma CallKeepsIndex(w: World, s: State, c: Call, s': State)
    requires IndexInv(w, s) && Step(w, s, c, s')
    ensures IndexInv(w, s')
  {
    hide AddCode, WordAt, Covered, InPool, NewBase;
    match c
    case NewCall(id, enter, no_slot) =>
      hide IndexInv;
      NewKeepsIndex(w, s, id, s'.bkpts[id]);
    case AddCall(id, base) =>
      hide IndexInv;
      if AddCode(w, s, s.bkpts[id].enter) == 0 {
        AddKeepsIndex(w, s, id, base);
      }
    case EnableCall(id) =>
      IsKey(w, s, id);
      hide IndexInv;
      PatchKeepsIndex(w, s, s');
    case DisableCall(id) =>
      IsKey(w, s, id);
      hide IndexInv;
      PatchKeepsIndex(w, s, s');
  }

  lemma IsKey(w: World, s: State, id: Id)
    requires IndexInv(w, s) && Added(s, id)
    ensures s.bkpts[id].enter in s.index && Aligned(s.mem)
  {
    hide Geometry, PoolOk, KeyOk, PairOk, PlaceOk, Untouched, Taken, IsSlot, Aligned, GetByAddress;
    assert BkptOk(w, s, id);
  }

  lemma NewKeepsSound(w: World, s: State, id: Id, b: Bkpt)
    requires IndexInv(w, s) && Sound(w, s) && id !in s.bkpts && b.slot.None? && !b.enable
    ensures Sound(w, s.(bkpts := s.bkpts[id := b]))
  {
    hide BkptOk, PairOk, Geometry, PoolOk, InRegion;
    var s' := s.(bkpts := s.bkpts[id := b]);
    forall a
      ensures CellOk(w, s', a)
    {
      assert CellOk(w, s, a) && KeyOk(s, a);
    }
    forall c | c in s'.bkpts
      ensures SlotIntact(w, s', c) && Armed(s', c)
    {
      if c != id { assert SlotIntact(w, s, c) && Armed(s, c); }
    }
  }

  lemma AddKeepsSound(w: World, s: State, id: Id, base: Addr)
    requires IndexInv(w, s) && Sound(w, s) && NoBrk(w) && AddReady(w, s, id, base)
    requires AddCode(w, s, s.bkpts[id].enter) == 0
    ensures Sound(w, AfterAdd(w, s, id, base)) <==> CallSound(w, s, AddCall(id, base))
  {
    AddKeepsMemory(w, s, id, base);
    AddKeepsArmed(w, s, id, base);
    if !s.bkpts[id].no_slot {
      assert s.bkpts[id].enter !in s.index by { hide IndexInv, MemoryInv, ArmedInv, GetByAddress; }
      ReadsOriginalIff(w, s, id);
    }
    hide IndexInv, MemoryInv, ArmedInv, AddCode, AfterAdd, NoneArmedAt, NextSlot, NewBase, SpoilsNoSlot;
  }

  /** A call keeps everything as it should be exactly if its condition holds. */
  lemma CallKeepsSound(w: World, s: State, c: Call, s': State)
    requires IndexInv(w, s) && Sound(w, s) && NoBrk(w) && Step(w, s, c, s')
    ensures Sound(w, s') <==> CallSound(w, s, c)
  {
    match c
    case NewCall(id, enter, no_slot) =>
      hide IndexInv, Sound;
      NewKeepsSound(w, s, id, s'.bkpts[id]);
    case AddCall(id, base) =>
      hide IndexInv, Sound, AddCode, AfterAdd, NewBase;
      if AddCode(w, s, s.bkpts[id].enter) == 0 {
        AddKeepsSound(w, s, id, base);
      }
    case EnableCall(id) =>
      hide IndexInv, MemoryInv, ArmedInv, Unused;
      PatchKeepsArmed(w, s, id);
      if !s.bkpts[id].enable {
        EnableKeepsMemory(w, s, id);
      }
    case DisableCall(id) =>
      hide IndexInv, MemoryInv, ArmedInv;
      PatchKeepsArmed(w, s, id);
      if s.bkpts[id].enable {
        ArmedOffSlots(w, s, id);
        DisableKeepsMemory(w, s, id);
      }
  }

  /** A run from the untouched program; slot sets may have been added before. */
  ghost predicate Run(w: World, tr: seq<State>, calls: seq<Call>) {
    && |tr| == |calls| + 1 && tr[0] == State(w.orig, map[], map[], tr[0].pool)
    && Geometry(w.objects, w.bases) && PoolOk(w.bases, tr[0].pool) && Aligned(w.orig)
    && forall i :: 0 <= i < |calls| ==> Step(w, tr[i], calls[i], tr[i + 1])
  }

  lemma {:induction false} RunKeepsIndex(w: World, tr: seq<State>, calls: seq<Call>, i: nat)
    requires Run(w, tr, calls) && i < |tr|
    ensures IndexInv(w, tr[i])
  {
    if i == 0 {
    } else {
      hide IndexInv, Step, Geometry;
      RunKeepsIndex(w, tr, calls, i - 1);
      assert Step(w, tr[i - 1], calls[i - 1], tr[i]);
      CallKeepsIndex(w, tr[i - 1], calls[i - 1], tr[i]);
    }
  }

  lemma StartSound(w: World, s: State)
    requires s == State(w.orig, map[], map[], s.pool)
    ensures Sound(w, s)
  {
    hide InRegion;
  }

  /** Memory is as it should be all along a run exactly if every call met its condition. */
  lemma {:induction false} SoundExactly(w: World, tr: seq<State>, calls: seq<Call>, i: nat)
    requires Run(w, tr, calls) && NoBrk(w) && i < |tr|
    ensures (forall k :: 0 <= k <= i ==> Sound(w, tr[k])) <==>
      (forall k :: 0 <= k < i ==> CallSound(w, tr[k], calls[k]))
  {
    hide IndexInv, Step, Geometry, Sound, CallSound, NoBrk, Aligned;
    if i == 0 {
      StartSound(w, tr[0]);
    } else {
      SoundExactly(w, tr, calls, i - 1);
      RunKeepsIndex(w, tr, calls, i - 1);
      assert Step(w, tr[i - 1], calls[i - 1], tr[i]);
      if Sound(w, tr[i - 1]) {
        CallKeepsSound(w, tr[i - 1], calls[i - 1], tr[i]);
      }
    }
  }

  /** After any sequence of calls that met their conditions a text word is brk exactly if an enabled breakpoint
      stands there, and else the original word; every slot holds its breakpoint's original word followed by brk. */
  lemma TextAndSlots(w: World, tr: seq<State>, calls: seq<Call>, i: nat, a: Addr)
    requires Run(w, tr, calls) && NoBrk(w) && i < |tr| && forall k :: 0 <= k < i ==> CallSound(w, tr[k], calls[k])
    requires a in w.orig && !InRegion(w.bases, a)
    ensures var s := tr[i];
      && a in s.mem
      && s.mem[a] == (if exists id :: Added(s, id) && s.bkpts[id].enter == a && s.bkpts[id].enable then BRK
                      else w.orig[a])
      && forall id :: Added(s, id) && s.bkpts[id].slot.Some? ==> SlotIntact(w, s, id)
  {
    SoundExactly(w, tr, calls, i);
    RunKeepsIndex(w, tr, calls, i);
    var s := tr[i];
    hide Run, Geometry, PoolOk, IsSlot, Taken;
    assert Sound(w, s);
    assert CellOk(w, s, a);
    if id :| Added(s, id) && s.bkpts[id].enter == a && s.bkpts[id].enable {
      assert BkptOk(w, s, id);
      assert EnabledAt(s, a);
    }
    if EnabledAt(s, a) {
      assert KeyOk(s, a);
    }
  }

  // ---- breakpoints below the end of the text ----

  /** A new breakpoint stays outside the slot regions, as it does below the end of a text range. */
  predicate Tidy(w: World, c: Call) {
    c.NewCall? ==> !InRegion(w.bases, c.enter)
  }

  ghost predicate Clean(w: World, s: State) {
    forall id :: id in s.bkpts ==> !InRegion(w.bases, s.bkpts[id].enter)
  }

  lemma CallKeepsClean(w: World, s: State, c: Call, s': State)
    requires Clean(w, s) && Tidy(w, c) && Step(w, s, c, s')
    ensures Clean(w, s')
  {
    hide InRegion, AddCode, NextSlot, Allocate, NewBase, GetByAddress;
  }

  lemma CleanIsSound(w: World, s: State, c: Call, s': State)
    requires IndexInv(w, s) && Sound(w, s) && Clean(w, s) && Step(w, s, c, s')
    ensures CallSound(w, s, c)
  {
    match c
    case NewCall(_, _, _) =>
    case DisableCall(_) =>
    case EnableCall(id) => CleanUnused(w, s, id);
    case AddCall(id, base) =>
      var enter := s.bkpts[id].enter;
      assert CellOk(w, s, enter);
      NextSlotUnused(w, s, base);
      SlotWords(w.objects, w.bases, NextSlot(s, base));
      hide IndexInv, Sound, NextSlot, InRegion, GetByAddress, Geometry, IsSlot, Unused;
      assert NoneArmedAt(s, NextSlot(s, base));
  }

  lemma CleanUnused(w: World, s: State, id: Id)
    requires IndexInv(w, s) && Clean(w, s) && id in s.bkpts
    ensures Unused(s, s.bkpts[id].enter)
  {
    hide Geometry, PoolOk, InRegion, KeyOk, BkptOk, PairOk;
    forall c | c in s.bkpts
      ensures s.bkpts[c].slot != Some(s.bkpts[id].enter)
    {
      if s.bkpts[c].slot.Some? {
        SlotAlignment(w, s, c);
      }
    }
  }

  /** With all breakpoints outside the slot regions every call meets its condition. */
  lemma {:induction false} TidyRuns(w: World, tr: seq<State>, calls: seq<Call>, i: nat)
    requires Run(w, tr, calls) && NoBrk(w) && i < |tr| && forall k :: 0 <= k < i ==> Tidy(w, calls[k])
    ensures Clean(w, tr[i]) && forall k :: 0 <= k < i ==> CallSound(w, tr[k], calls[k])
  {
    if i == 0 {
    } else {
      hide IndexInv, Step, Geometry, Sound, CallSound, NoBrk, Clean, Tidy;
      TidyRuns(w, tr, calls, i - 1);
      SoundExactly(w, tr, calls, i - 1);
      RunKeepsIndex(w, tr, calls, i - 1);
      assert Step(w, tr[i - 1], calls[i - 1], tr[i]);
      CleanIsSound(w, tr[i - 1], calls[i - 1], tr[i]);
      CallKeepsClean(w, tr[i - 1], calls[i - 1], tr[i]);
    }
  }

  /** In every reachable state the keys of the tree are exactly the enter addresses of added breakpoints and the
      return addresses behind their slots, and no address is both. */
  lemma KeysAreExact(w: World, tr: seq<State>, calls: seq<Call>, i: nat, a: Addr)
    requires Run(w, tr, calls) && i < |tr|
    ensures var s := tr[i];
      && (a in s.index <==> exists id :: Added(s, id) && (s.bkpts[id].enter == a || s.bkpts[id].slot == Some(a - 4)))
      && !(exists id, c :: Added(s, id) && Added(s, c) && s.bkpts[id].enter == a && s.bkpts[c].slot == Some(a - 4))
  {
    RunKeepsIndex(w, tr, calls, i);
    hide Run, IndexInv;
    KeysOf(w, tr[i], a);
  }

  lemma KeysOf(w: World, s: State, a: Addr)
    requires IndexInv(w, s)
    ensures a in s.index <==> exists id :: Added(s, id) && (s.bkpts[id].enter == a || s.bkpts[id].slot == Some(a - 4))
    ensures !(exists id, c :: Added(s, id) && Added(s, c) && s.bkpts[id].enter == a && s.bkpts[c].slot == Some(a - 4))
  {
    hide Geometry, IsSlot, PoolOk, Taken, PairOk, GetByAddress, Aligned;
    assert KeyOk(s, a);
    if id :| Added(s, id) && (s.bkpts[id].enter == a || s.bkpts[id].slot == Some(a - 4)) {
      assert BkptOk(w, s, id);
    }
    forall id, c | Added(s, id) && Added(s, c) && s.bkpts[c].slot == Some(a - 4)
      ensures s.bkpts[id].enter != a
    {
      hide BkptOk, KeyOk;
      EnterIsNoReturn(w, s, id, c);
    }
  }
}
