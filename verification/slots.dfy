/** The instruction-slot allocator, run by one thread: bitmap pages in a growing list. */
module Slots {
  import opened Common

  const SLOT_PAGE_SIZE: nat := 4096
  const SLOT_PAGE_NUM: nat := 2
  const SLOT_SIZE: nat := 8
  const SLOT_NUM: nat := (SLOT_PAGE_NUM * SLOT_PAGE_SIZE) / SLOT_SIZE
  const UINT_BIT_NUM: nat := 32
  const SLOT_MAP_LEN: nat := (SLOT_NUM + UINT_BIT_NUM - 1) / UINT_BIT_NUM

  /** An unsigned int, read bit by bit from the low end. */
  type Word = nat

  /** The bit at position `pos`. */
  predicate Bit(w: Word, pos: nat) {
    if pos == 0 then w % 2 == 1 else Bit(w / 2, pos - 1)
  }

  /** The word with that bit cleared. */
  function ClearBit(w: Word, pos: nat): Word {
    if pos == 0 then w - w % 2 else 2 * ClearBit(w / 2, pos - 1) + w % 2
  }

  /** The word with that bit set. */
  function SetBit(w: Word, pos: nat): Word {
    if pos == 0 then w - w % 2 + 1 else 2 * SetBit(w / 2, pos - 1) + w % 2
  }

  lemma {:induction false} BitUpdates(w: Word, pos: nat, j: nat)
    ensures Bit(ClearBit(w, pos), j) <==> j != pos && Bit(w, j)
    ensures Bit(SetBit(w, pos), j) <==> j == pos || Bit(w, j)
  {
    if pos > 0 && j > 0 {
      BitUpdates(w / 2, pos - 1, j - 1);
    }
  }

  lemma {:induction false} UpdatesFit(w: Word, pos: nat, n: nat)
    requires w < Pow2(n) && pos < n
    ensures ClearBit(w, pos) < Pow2(n) && SetBit(w, pos) < Pow2(n)
  {
    if pos == 0 {
    } else {
      UpdatesFit(w / 2, pos - 1, n - 1);
    }
  }

  /** Setting a bit undoes clearing it. */
  lemma {:induction false} ClearSet(w: Word, pos: nat)
    requires Bit(w, pos)
    ensures SetBit(ClearBit(w, pos), pos) == w
  {
    if pos == 0 {
    } else {
      ClearSet(w / 2, pos - 1);
    }
  }

  lemma {:induction false} AllOnes(n: nat, j: nat)
    requires j < n
    ensures Bit(Pow2(n) - 1, j)
  {
    if j == 0 {
    } else {
      assert (Pow2(n) - 1) / 2 == Pow2(n - 1) - 1;
      AllOnes(n - 1, j - 1);
    }
  }

  /** __builtin_ffs: one more than the position of the lowest set bit, or 0. */
  function Ffs(w: Word): nat {
    if w == 0 then 0 else if w % 2 == 1 then 1 else 1 + Ffs(w / 2)
  }

  lemma {:induction false} FfsLowest(w: Word, n: nat)
    requires 0 < w < Pow2(n)
    ensures 1 <= Ffs(w) <= n && Bit(w, Ffs(w) - 1)
    ensures forall j :: 0 <= j < Ffs(w) - 1 ==> !Bit(w, j)
  {
    if w % 2 == 0 {
      FfsLowest(w / 2, n - 1);
      forall j | 0 <= j < Ffs(w) - 1
        ensures !Bit(w, j)
      {
        if j > 0 { assert !Bit(w / 2, j - 1); }
      }
    }
  }

  lemma {:induction false} ZeroHasNoBit(j: nat)
    ensures !Bit(0, j)
  {
    if j == 0 {
    } else {
      ZeroHasNoBit(j - 1);
    }
  }

  // ---- one bitmap page ----

  type Bitmap = seq<Word>

  predicate IsBitmap(f: Bitmap) {
    |f| == SLOT_MAP_LEN && forall i :: 0 <= i < |f| ==> f[i] < Pow2(UINT_BIT_NUM)
  }

  predicate IsFree(f: Bitmap, k: nat)
    requires |f| == SLOT_MAP_LEN && k < SLOT_NUM
  {
    Bit(f[k / UINT_BIT_NUM], k % UINT_BIT_NUM)
  }

  /** The free slots of a page. */
  function FreeSet(f: Bitmap): set<nat>
    requires |f| == SLOT_MAP_LEN
  {
    set k: nat | k < SLOT_NUM && IsFree(f, k)
  }

  function Cleared(f: Bitmap, k: nat): Bitmap
    requires |f| == SLOT_MAP_LEN && k < SLOT_NUM
  {
    var i := k / UINT_BIT_NUM;
    f[i := ClearBit(f[i], k % UINT_BIT_NUM)]
  }

  function Restored(f: Bitmap, k: nat): Bitmap
    requires |f| == SLOT_MAP_LEN && k < SLOT_NUM
  {
    var i := k / UINT_BIT_NUM;
    f[i := SetBit(f[i], k % UINT_BIT_NUM)]
  }

  lemma UpdatedFree(f: Bitmap, k: nat, j: nat)
    requires |f| == SLOT_MAP_LEN && k < SLOT_NUM && j < SLOT_NUM
    ensures IsFree(Cleared(f, k), j) <==> j != k && IsFree(f, j)
    ensures IsFree(Restored(f, k), j) <==> j == k || IsFree(f, j)
  {
    hide Bit, ClearBit, SetBit;
    if j / UINT_BIT_NUM == k / UINT_BIT_NUM {
      BitUpdates(f[k / UINT_BIT_NUM], k % UINT_BIT_NUM, j % UINT_BIT_NUM);
    }
  }

  lemma UpdatedFreeSet(f: Bitmap, k: nat)
    requires IsBitmap(f) && k < SLOT_NUM
    ensures IsBitmap(Cleared(f, k)) && FreeSet(Cleared(f, k)) == FreeSet(f) - {k}
    ensures IsBitmap(Restored(f, k)) && FreeSet(Restored(f, k)) == FreeSet(f) + {k}
  {
    UpdatesFit(f[k / UINT_BIT_NUM], k % UINT_BIT_NUM, UINT_BIT_NUM);
    forall j: nat | j < SLOT_NUM
      ensures j in FreeSet(Cleared(f, k)) <==> j in FreeSet(f) - {k}
      ensures j in FreeSet(Restored(f, k)) <==> j in FreeSet(f) + {k}
    {
      UpdatedFree(f, k, j);
    }
  }

  predicate IsMin(s: set<nat>, k: nat) {
    k in s && forall j :: j in s ==> k <= j
  }

  lemma {:induction false} MinExists(f: set<nat>) returns (k: nat)
    requires f != {}
    ensures IsMin(f, k)
  {
    var j :| j in f;
    var g := f - {j};
    assert f == g + {j};
    if g == {} {
      k := j;
    } else {
      k := MinExists(g);
      if j < k { k := j; }
    }
  }

  ghost function LeastOf(s: set<nat>): (k: nat)
    requires s != {}
    ensures IsMin(s, k)
  {
    HasMin(s);
    var k :| IsMin(s, k);
    k
  }

  lemma HasMin(s: set<nat>)
    requires s != {}
    ensures exists k :: IsMin(s, k)
  {
    var k := MinExists(s);
  }

  /** The first non-zero word's lowest bit is the lowest free slot. */
  lemma LowestFree(f: Bitmap, idx: nat)
    requires IsBitmap(f) && idx < SLOT_MAP_LEN && f[idx] != 0 && forall i :: 0 <= i < idx ==> f[i] == 0
    ensures 1 <= Ffs(f[idx]) <= UINT_BIT_NUM && idx * UINT_BIT_NUM + Ffs(f[idx]) <= SLOT_NUM
    ensures IsMin(FreeSet(f), idx * UINT_BIT_NUM + Ffs(f[idx]) - 1)
  {
    hide Bit, Ffs, Pow2;
    FfsLowest(f[idx], UINT_BIT_NUM);
    var k := idx * UINT_BIT_NUM + Ffs(f[idx]) - 1;
    assert k / UINT_BIT_NUM == idx && k % UINT_BIT_NUM == Ffs(f[idx]) - 1;
    forall j | j in FreeSet(f)
      ensures k <= j
    {
      if j < k {
        if j / UINT_BIT_NUM < idx {
          ZeroHasNoBit(j % UINT_BIT_NUM);
        }
      }
    }
  }

  /** A bitmap of zeros has no free slot. */
  lemma AllZero(f: Bitmap)
    requires IsBitmap(f) && forall i :: 0 <= i < |f| ==> f[i] == 0
    ensures FreeSet(f) == {}
  {
    forall k | k in FreeSet(f)
      ensures false
    {
      ZeroHasNoBit(k % UINT_BIT_NUM);
    }
  }

  function Upto(n: nat): (s: set<nat>)
    ensures |s| == n && forall k :: k in s <==> 0 <= k < n
  {
    if n == 0 then {} else Upto(n - 1) + {n - 1}
  }

  /** All bits set: every slot is free. */
  lemma AllFree(f: Bitmap)
    requires |f| == SLOT_MAP_LEN && forall i :: 0 <= i < |f| ==> f[i] == Pow2(UINT_BIT_NUM) - 1
    ensures IsBitmap(f) && FreeSet(f) == Upto(SLOT_NUM)
  {
    hide Bit, Pow2;
    forall k: nat | k < SLOT_NUM
      ensures k in FreeSet(f)
    {
      AllOnes(UINT_BIT_NUM, k % UINT_BIT_NUM);
    }
    assert FreeSet(f) == Upto(SLOT_NUM);
  }

  // ---- struct slot_set and the list ----

  class SlotSet {
    const slots: nat
    const free_slot: array<Word>
    var used_slot_count: nat

    ghost predicate Valid()
      reads this, free_slot
    {
      && free_slot.Length == SLOT_MAP_LEN && IsBitmap(free_slot[..])
      && |FreeSet(free_slot[..])| + used_slot_count == SLOT_NUM
    }

    ghost function Free(): set<nat>
      reads this, free_slot
    {
      if free_slot.Length == SLOT_MAP_LEN then FreeSet(free_slot[..]) else {}
    }

    constructor (base: nat)
      ensures Valid() && fresh(free_slot) && slots == base
      ensures Free() == Upto(SLOT_NUM) && used_slot_count == 0
    {
      slots := base;
      used_slot_count := 0;
      free_slot := new Word[SLOT_MAP_LEN](_ => Pow2(UINT_BIT_NUM) - 1);
      new;
      AllFree(free_slot[..]);
    }

    /** The bitmap scan of a set that is not full. */
    method Scan() returns (idx: nat, pos: nat)
      requires Valid() && used_slot_count != SLOT_NUM
      ensures idx < SLOT_MAP_LEN && pos < UINT_BIT_NUM && IsMin(Free(), idx * UINT_BIT_NUM + pos)
    {
      hide Ffs;
      idx := 0;
      while idx < SLOT_MAP_LEN
        invariant idx <= SLOT_MAP_LEN && forall i :: 0 <= i < idx ==> free_slot[i] == 0
      {
        if free_slot[idx] == 0 {
          idx := idx + 1;
          continue;
        }
        LowestFree(free_slot[..], idx);
        pos := Ffs(free_slot[idx]);
        if pos + idx * UINT_BIT_NUM > SLOT_NUM {
          break;
        }
        pos := pos - 1;
        return;
      }
      AllZero(free_slot[..]);
      assert false;
    }

    /** The two writes after `found`. */
    method Take(idx: nat, pos: nat)
      requires Valid() && idx < SLOT_MAP_LEN && pos < UINT_BIT_NUM && idx * UINT_BIT_NUM + pos in Free()
      modifies this`used_slot_count, free_slot
      ensures Valid() && used_slot_count == old(used_slot_count) + 1
      ensures Free() == old(Free()) - {idx * UINT_BIT_NUM + pos}
      ensures free_slot[..] == Cleared(old(free_slot[..]), idx * UINT_BIT_NUM + pos)
    {
      ghost var f, k := free_slot[..], idx * UINT_BIT_NUM + pos;
      hide ClearBit, SetBit, Bit, Pow2, IsBitmap;
      IsFreeIn(f, k);
      UpdatedFreeSet(f, k);
      free_slot[idx] := ClearBit(free_slot[idx], pos);
      assert free_slot[..] == Cleared(f, k) by { Split(idx, pos); }
      hide FreeSet, Cleared;
      used_slot_count := used_slot_count + 1;
    }

    /** slot_free, with the assertion as written: `aborted` means that it failed. */
    method SlotFree(index: nat) returns (aborted: bool)
      requires Valid()
      modifies this`used_slot_count, free_slot
      ensures Valid() && (aborted <==> index >= UINT_BIT_NUM)
      ensures !aborted && index !in old(Free()) ==>
        && Free() == old(Free()) + {index} && used_slot_count == old(used_slot_count) - 1
        && free_slot[..] == Restored(old(free_slot[..]), index)
      ensures aborted || index in old(Free()) ==>
        free_slot[..] == old(free_slot[..]) && used_slot_count == old(used_slot_count)
    {
      if !(index < UINT_BIT_NUM) {
        return true;
      }
      ghost var f := free_slot[..];
      UpdatedFreeSet(f, index);
      aborted := false;
      var idx, pos := index / UINT_BIT_NUM, index % UINT_BIT_NUM;
      if Bit(free_slot[idx], pos) {
        return;
      }
      free_slot[idx] := SetBit(free_slot[idx], pos);
      assert free_slot[..] == Restored(f, index);
      UsedPositive(f, index);
      used_slot_count := used_slot_count - 1;
    }
  }

  lemma Split(idx: nat, pos: nat)
    requires pos < UINT_BIT_NUM
    ensures (idx * UINT_BIT_NUM + pos) / UINT_BIT_NUM == idx && (idx * UINT_BIT_NUM + pos) % UINT_BIT_NUM == pos
  {
  }

  lemma IsFreeIn(f: Bitmap, k: nat)
    requires |f| == SLOT_MAP_LEN && k in FreeSet(f)
    ensures k < SLOT_NUM
  {
  }

  lemma UsedPositive(f: Bitmap, k: nat)
    requires |f| == SLOT_MAP_LEN && k < SLOT_NUM && k !in FreeSet(f)
    ensures |FreeSet(f)| < SLOT_NUM
  {
    SubsetSize(FreeSet(f) + {k}, Upto(SLOT_NUM));
  }

  lemma {:induction false} SubsetSize(a: set<nat>, b: set<nat>)
    requires a <= b
    ensures |a| <= |b|
  {
    assert b == a + (b - a);
  }

  lemma MinUpto(n: nat)
    requires n > 0
    ensures forall k :: IsMin(Upto(n), k) ==> k == 0
  {
    assert 0 in Upto(n);
  }

  /** The list slot_sets, newest first. */
  class SlotList {
    var sets: seq<SlotSet>

    ghost predicate Valid()
      reads this, sets, set s | s in sets :: s.free_slot
    {
      && (forall s :: s in sets ==> s.Valid())
      && (forall i, j :: 0 <= i < j < |sets| ==> sets[i] != sets[j] && sets[i].free_slot != sets[j].free_slot)
    }

    constructor ()
      ensures Valid() && sets == []
    {
      sets := [];
    }

    /** slot_set_add: `base` is the page address that mmap returns. */
    method SlotSetAdd(base: nat) returns (slot: SlotSet)
      requires Valid()
      modifies this
      ensures Valid() && fresh(slot) && fresh(slot.free_slot) && slot.slots == base
      ensures sets == [slot] + old(sets)
      ensures slot.Free() == Upto(SLOT_NUM) && slot.used_slot_count == 0
    {
      slot := new SlotSet(base);
      sets := [slot] + sets;
    }

    /** One pass over the list: the lowest free slot of the first set that is not full. */
    method TryAlloc() returns (found: bool, slot: SlotSet?, index: nat, ghost first: nat)
      requires Valid()
      modifies sets, set s | s in sets :: s.free_slot
      ensures Valid() && first <= |sets| && (found <==> first < |sets|) && (!found ==> slot == null)
      ensures forall i :: 0 <= i < first ==> sets[i].used_slot_count == old(sets[i].used_slot_count) == SLOT_NUM
      ensures found ==> slot == sets[first] && index < SLOT_NUM && IsMin(old(sets[first].Free()), index)
      ensures found ==> sets[first].Free() == old(sets[first].Free()) - {index}
      ensures found ==> sets[first].used_slot_count == old(sets[first].used_slot_count) + 1 <= SLOT_NUM
      ensures forall s :: s in sets && s != slot ==>
        s.used_slot_count == old(s.used_slot_count) && s.free_slot[..] == old(s.free_slot[..])
    {
      hide FreeSet, IsBitmap, Upto;
      var i := 0;
      while i < |sets|
        invariant i <= |sets| && forall j :: 0 <= j < i ==> sets[j].used_slot_count == SLOT_NUM
      {
        var curr := sets[i];
        if curr.used_slot_count == SLOT_NUM {
          i := i + 1;
          continue;
        }
        var idx, pos := curr.Scan();
        curr.Take(idx, pos);
        return true, curr, idx * UINT_BIT_NUM + pos, i;
      }
      return false, null, 0, i;
    }

    /** The retry: a freshly added set yields its slot 0. */
    method AddAndAlloc(base: nat) returns (slot: SlotSet, index: nat)
      requires Valid()
      modifies this, sets, set s | s in sets :: s.free_slot
      ensures Valid() && fresh(slot) && slot.slots == base && sets == [slot] + old(sets)
      ensures index == 0 && slot.Free() == Upto(SLOT_NUM) - {0} && slot.used_slot_count == 1
      ensures forall s :: s in old(sets) ==>
        s.used_slot_count == old(s.used_slot_count) && s.free_slot[..] == old(s.free_slot[..])
    {
      hide FreeSet, IsBitmap, Upto;
      ghost var first;
      var found, curr, k;
      slot := SlotSetAdd(base);
      MinUpto(SLOT_NUM);
      assert sets[0] == slot && slot.used_slot_count != SLOT_NUM;
      found, curr, k, first := TryAlloc();
      assert first == 0;
      index := k;
    }

    /** slot_alloc: at most one retry, after adding an empty set at the head. */
    method SlotAlloc(base: nat) returns (slot: SlotSet, index: nat, ghost first: nat, ghost added: bool)
      requires Valid()
      modifies this, sets, set s | s in sets :: s.free_slot
      ensures Valid() && index < SLOT_NUM && first < |sets| && sets[first] == slot
      ensures added <==> forall s :: s in old(sets) ==> old(s.used_slot_count) == SLOT_NUM
      ensures added ==> fresh(slot) && slot.slots == base && sets == [slot] + old(sets)
      ensures added ==> index == 0 && slot.Free() == Upto(SLOT_NUM) - {0} && slot.used_slot_count == 1
      ensures !added ==> sets == old(sets) && slot.used_slot_count == old(sets[first].used_slot_count) + 1
      ensures !added ==> IsMin(old(sets[first].Free()), index) && slot.Free() == old(sets[first].Free()) - {index}
      ensures forall i :: 0 <= i < first ==> sets[i].used_slot_count == SLOT_NUM
      ensures forall s :: s in old(sets) && s != slot ==>
        s.used_slot_count == old(s.used_slot_count) && s.free_slot[..] == old(s.free_slot[..])
      ensures forall s :: s in old(sets) && s != slot ==> s.Free() == old(s.Free())
    {
      hide FreeSet, IsBitmap, IsMin, Upto;
      var found, curr, k;
      added := false;
      found, curr, k, first := TryAlloc();
      if found {
        slot, index := curr, k;
        assert slot in old(sets) && old(slot.used_slot_count) != SLOT_NUM;
      } else {
        added := true;
        assert forall s :: s in old(sets) ==> old(s.used_slot_count) == SLOT_NUM;
        slot, index := AddAndAlloc(base);
        first := 0;
      }
    }
  }

  // ---- slot addresses ----

  /** BP_GET_SLOT_OFFSET */
  function SlotAddress(base: nat, index: nat): nat {
    base + index * SLOT_SIZE
  }

  /** Two sets whose regions of SLOT_NUM slots do not overlap. */
  predicate RegionsApart(b: nat, b': nat) {
    b + SLOT_NUM * SLOT_SIZE <= b' || b' + SLOT_NUM * SLOT_SIZE <= b
  }

  /** Different slots are disjoint 8-byte ranges. */
  lemma SlotsApart(b: nat, k: nat, b': nat, k': nat)
    requires k < SLOT_NUM && k' < SLOT_NUM && (if b == b' then k != k' else RegionsApart(b, b'))
    ensures SlotAddress(b, k) + SLOT_SIZE <= SlotAddress(b', k') || SlotAddress(b', k') + SLOT_SIZE <= SlotAddress(b, k)
  {
  }

  /** A slot lies in the page that mmap mapped exactly if its index is below 512: half of the slots that
      the bitmap hands out do not. */
  lemma SlotMapped(b: nat, k: nat)
    requires k < SLOT_NUM
    ensures b <= SlotAddress(b, k) && SlotAddress(b, k) + SLOT_SIZE <= b + SLOT_NUM * SLOT_SIZE
    ensures SlotAddress(b, k) + SLOT_SIZE <= b + SLOT_PAGE_SIZE <==> k < SLOT_NUM / SLOT_PAGE_NUM
  {
  }

  /** Freeing the slot that was taken restores the page. */
  lemma FreeUndoesTake(f: Bitmap, k: nat)
    requires IsBitmap(f) && k in FreeSet(f)
    ensures Restored(Cleared(f, k), k) == f
  {
    ClearSet(f[k / UINT_BIT_NUM], k % UINT_BIT_NUM);
  }

  /** Once the first 32 slots of a page are taken, the next one allocated is one that slot_free aborts on. */
  lemma AllocatedButNotFreeable(f: Bitmap)
    requires IsBitmap(f) && f[0] == 0 && f[1] % 2 == 1
    ensures IsMin(FreeSet(f), UINT_BIT_NUM)
  {
    LowestFree(f, 1);
  }
}
