/** slot_alloc and slot_free run by any number of threads, one step per lock operation or shared write. */
module SlotsConcurrent {
  import opened Common
  import opened Slots

  type Tid = nat
  type PageId = nat
  type Slot = (PageId, nat)

  datatype Pc =
    | Idle
    | Retry                           // about to take the read lock
    | Walk(i: nat)                    // read lock held, about to look at the i-th set
    | Locked(i: nat, p: PageId)       // set mutex taken, about to test used_slot_count
    | Found(p: PageId, k: nat)        // scan done, about to release the read lock
    | Claim(p: PageId, k: nat)        // about to clear the bit
    | Count(p: PageId, k: nat)        // about to increment the count
    | Release(p: PageId, k: nat)      // about to release the mutex and return
    | Full                            // end of the list, about to release the read lock
    | Grow                            // about to take the write lock
    | Link(p: PageId)                 // write lock held, about to link the new set
    | Linked                          // about to release the write lock
    | FreeWait(p: PageId, k: nat)     // in slot_free, about to take the mutex
    | FreeMark(p: PageId, k: nat)     // about to set the bit
    | FreeCount(p: PageId, k: nat)    // about to decrement the count
    | FreeDone(p: PageId)             // about to release the mutex

  datatype Page = Page(free: set<nat>, used: int, holder: Option<Tid>)

  /** Where a slot is: free in the bitmap, in the hands of a thread that is moving it, or handed out. */
  datatype Place = InBitmap | Moving(t: Tid) | HandedOut

  datatype Event = Alloc(slot: Slot) | Free(slot: Slot)

  datatype State = State(
    pages: map<PageId, Page>, list: seq<PageId>,
    readers: set<Tid>, writer: Option<Tid>,
    pc: map<Tid, Pc>,
    place: map<Slot, Place>, log: seq<Event>)

  // ---- which locks and slots a thread has at each point ----

  predicate Reads(c: Pc) {
    c.Walk? || c.Locked? || c.Found? || c.Full?
  }

  predicate Writes(c: Pc) {
    c.Link? || c.Linked?
  }

  function Mutex(c: Pc): Option<PageId> {
    match c
    case Locked(_, p) => Some(p)
    case Found(p, _) => Some(p)
    case Claim(p, _) => Some(p)
    case Count(p, _) => Some(p)
    case Release(p, _) => Some(p)
    case FreeMark(p, _) => Some(p)
    case FreeCount(p, _) => Some(p)
    case FreeDone(p) => Some(p)
    case _ => None
  }

  function Carries(c: Pc): Option<Slot> {
    match c
    case Count(p, k) => Some((p, k))
    case Release(p, k) => Some((p, k))
    case FreeWait(p, k) => Some((p, k))
    case FreeMark(p, k) => Some((p, k))
    case _ => None
  }

  // ---- steps ----

  function Goto(s: State, t: Tid, c: Pc): State {
    s.(pc := s.pc[t := c])
  }

  function SetPage(s: State, p: PageId, g: Page): State {
    s.(pages := s.pages[p := g])
  }

  function NewPlaces(p: PageId): map<Slot, Place> {
    map k | 0 <= k < SLOT_NUM :: (p, k) := InBitmap
  }

  /** a call enters slot_alloc */
  ghost predicate CallAlloc(s: State, t: Tid, s': State) {
    && t in s.pc && s.pc[t].Idle?
    && s' == Goto(s, t, Retry)
  }

  /** a call enters slot_free with a handed-out slot on which its assertion holds */
  ghost predicate CallFree(s: State, t: Tid, s': State) {
    && t in s.pc && s.pc[t].Idle?
    && exists q: Slot ::
      && q in s.place && s.place[q].HandedOut? && q.0 in s.pages && q.1 < UINT_BIT_NUM
      && s' == Goto(s, t, FreeWait(q.0, q.1)).(place := s.place[q := Moving(t)], log := s.log + [Free(q)])
  }

  /** pthread_rwlock_rdlock */
  ghost predicate TakeReadLock(s: State, t: Tid, s': State) {
    && t in s.pc && s.pc[t].Retry?
    && s.writer.None? && s' == Goto(s, t, Walk(0)).(readers := s.readers + {t})
  }

  /** lock the next set */
  ghost predicate TakeMutex(s: State, t: Tid, s': State) {
    && t in s.pc && s.pc[t].Walk?
    && var i := s.pc[t].i;
    && i < |s.list| && s.list[i] in s.pages && s.pages[s.list[i]].holder.None?
    && s' == Goto(SetPage(s, s.list[i], s.pages[s.list[i]].(holder := Some(t))), t, Locked(i, s.list[i]))
  }

  /** no set left */
  ghost predicate ReachEnd(s: State, t: Tid, s': State) {
    && t in s.pc && s.pc[t].Walk?
    && s.pc[t].i >= |s.list| && s' == Goto(s, t, Full)
  }

  /** the set is full, or the scan of a set that is not full falls through */
  ghost predicate SkipFull(s: State, t: Tid, s': State) {
    && t in s.pc && s.pc[t].Locked?
    && var i, p := s.pc[t].i, s.pc[t].p;
    && p in s.pages && (s.pages[p].used == SLOT_NUM || s.pages[p].free == {})
    && s' == Goto(SetPage(s, p, s.pages[p].(holder := None)), t, Walk(i + 1))
  }

  /** the scan finds the lowest free slot */
  ghost predicate FindSlot(s: State, t: Tid, s': State) {
    && t in s.pc && s.pc[t].Locked?
    && var p := s.pc[t].p;
    && p in s.pages && s.pages[p].used != SLOT_NUM
    && exists k :: IsMin(s.pages[p].free, k) && s' == Goto(s, t, Found(p, k))
  }

  /** a slot is found: release the read lock, keep the mutex */
  ghost predicate DropReadLock(s: State, t: Tid, s': State) {
    && t in s.pc && s.pc[t].Found?
    && s' == Goto(s, t, Claim(s.pc[t].p, s.pc[t].k)).(readers := s.readers - {t})
  }

  /** the bit of the slot is cleared */
  ghost predicate ClearSlot(s: State, t: Tid, s': State) {
    && t in s.pc && s.pc[t].Claim?
    && var p, k := s.pc[t].p, s.pc[t].k;
    && p in s.pages
    && var cleared := SetPage(s, p, s.pages[p].(free := s.pages[p].free - {k}));
       s' == Goto(cleared, t, Count(p, k)).(place := s.place[(p, k) := Moving(t)])
  }

  /** the slot is counted as used */
  ghost predicate CountUp(s: State, t: Tid, s': State) {
    && t in s.pc && s.pc[t].Count?
    && var p, k := s.pc[t].p, s.pc[t].k;
    && p in s.pages
    && s' == Goto(SetPage(s, p, s.pages[p].(used := s.pages[p].used + 1)), t, Release(p, k))
  }

  /** unlock the set and hand the slot out */
  ghost predicate Return(s: State, t: Tid, s': State) {
    && t in s.pc && s.pc[t].Release?
    && var p, k := s.pc[t].p, s.pc[t].k;
    && p in s.pages
    && var unlocked := Goto(SetPage(s, p, s.pages[p].(holder := None)), t, Idle);
       s' == unlocked.(place := s.place[(p, k) := HandedOut], log := s.log + [Alloc((p, k))])
  }

  /** release the read lock before adding a set */
  ghost predicate GiveUp(s: State, t: Tid, s': State) {
    && t in s.pc && s.pc[t].Full?
    && s' == Goto(s, t, Grow).(readers := s.readers - {t})
  }

  /** pthread_rwlock_wrlock, with a new set in hand */
  ghost predicate TakeWriteLock(s: State, t: Tid, s': State) {
    && t in s.pc && s.pc[t].Grow?
    && s.readers == {} && s.writer.None?
    && exists p: PageId :: p !in s.pages && s' == Goto(s, t, Link(p)).(writer := Some(t))
  }

  /** list_add */
  ghost predicate AddSet(s: State, t: Tid, s': State) {
    && t in s.pc && s.pc[t].Link?
    && var p := s.pc[t].p;
    var added := Goto(SetPage(s, p, Page(Upto(SLOT_NUM), 0, None)), t, Linked);
    s' == added.(list := [p] + s.list, place := s.place + NewPlaces(p))
  }

  /** release the write lock and start again */
  ghost predicate DropWriteLock(s: State, t: Tid, s': State) {
    && t in s.pc && s.pc[t].Linked?
    && s' == Goto(s, t, Retry).(writer := None)
  }

  /** slot_free takes the mutex */
  ghost predicate FreeLock(s: State, t: Tid, s': State) {
    && t in s.pc && s.pc[t].FreeWait?
    && var p, k := s.pc[t].p, s.pc[t].k;
    && p in s.pages && s.pages[p].holder.None?
    && s' == Goto(SetPage(s, p, s.pages[p].(holder := Some(t))), t, FreeMark(p, k))
  }

  /** the slot is free already */
  ghost predicate FreeAgain(s: State, t: Tid, s': State) {
    && t in s.pc && s.pc[t].FreeMark?
    && var p, k := s.pc[t].p, s.pc[t].k;
    p in s.pages && k in s.pages[p].free && s' == Goto(s, t, FreeDone(p))
  }

  /** the bit of the slot is set */
  ghost predicate FreeBit(s: State, t: Tid, s': State) {
    && t in s.pc && s.pc[t].FreeMark?
    && var p, k := s.pc[t].p, s.pc[t].k;
    && p in s.pages && k !in s.pages[p].free
    && var marked := SetPage(s, p, s.pages[p].(free := s.pages[p].free + {k}));
       s' == Goto(marked, t, FreeCount(p, k)).(place := s.place[(p, k) := InBitmap])
  }

  /** the slot is no longer counted as used */
  ghost predicate CountDown(s: State, t: Tid, s': State) {
    && t in s.pc && s.pc[t].FreeCount?
    && var p := s.pc[t].p;
    && p in s.pages
    && s' == Goto(SetPage(s, p, s.pages[p].(used := s.pages[p].used - 1)), t, FreeDone(p))
  }

  /** slot_free returns */
  ghost predicate FreeUnlock(s: State, t: Tid, s': State) {
    && t in s.pc && s.pc[t].FreeDone?
    && var p := s.pc[t].p;
    && p in s.pages
    && s' == Goto(SetPage(s, p, s.pages[p].(holder := None)), t, Idle)
  }

  ghost predicate Step(s: State, t: Tid, s': State) {
    || CallAlloc(s, t, s')
    || CallFree(s, t, s')
    || TakeReadLock(s, t, s')
    || TakeMutex(s, t, s')
    || ReachEnd(s, t, s')
    || SkipFull(s, t, s')
    || FindSlot(s, t, s')
    || DropReadLock(s, t, s')
    || ClearSlot(s, t, s')
    || CountUp(s, t, s')
    || Return(s, t, s')
    || GiveUp(s, t, s')
    || TakeWriteLock(s, t, s')
    || AddSet(s, t, s')
    || DropWriteLock(s, t, s')
    || FreeLock(s, t, s')
    || FreeAgain(s, t, s')
    || FreeBit(s, t, s')
    || CountDown(s, t, s')
    || FreeUnlock(s, t, s')
  }

  // ---- the invariant ----

  predicate Has(s: State, q: Slot, l: Place) {
    q in s.place && s.place[q] == l
  }

  /** What holds of one thread: its locks, its cursor and the slot it carries. */
  predicate ThreadOk(s: State, t: Tid)
    requires t in s.pc
  {
    var c := s.pc[t];
    && (t in s.readers <==> Reads(c)) && (s.writer == Some(t) <==> Writes(c))
    && (Mutex(c).Some? ==> Mutex(c).value in s.pages && s.pages[Mutex(c).value].holder == Some(t))
    && (Carries(c).Some? ==> Carries(c).value.0 in s.pages && Has(s, Carries(c).value, Moving(t)))
    && (c.Walk? ==> c.i <= |s.list|)
    && (c.Locked? ==> c.i < |s.list| && s.list[c.i] == c.p)
    && (c.Link? ==> c.p !in s.pages)
    && (c.Found? || c.Claim? ==> IsMin(s.pages[c.p].free, c.k))
    && (c.Count? || c.FreeCount? || c.FreeMark? || c.FreeWait? ==> 0 <= c.k < SLOT_NUM)
  }

  /** How far the count lags behind the bitmap while the mutex holder is between its two writes. */
  function Lag(c: Pc): int {
    if c.Count? then -1 else if c.FreeCount? then 1 else 0
  }

  /** What holds of one page: its mutex holder, its bitmap and its count. */
  predicate PageOk(s: State, p: PageId)
    requires p in s.pages
  {
    var g := s.pages[p];
    && g.free <= Upto(SLOT_NUM)
    && (g.holder.None? ==> |g.free| + g.used == SLOT_NUM)
    && (g.holder.Some? ==>
          && g.holder.value in s.pc && Mutex(s.pc[g.holder.value]) == Some(p)
          && |g.free| + g.used == SLOT_NUM + Lag(s.pc[g.holder.value]))
  }

  /** What holds of one slot: it is in exactly one place. */
  predicate SlotOk(s: State, q: Slot) {
    && (q in s.place <==> q.0 in s.pages && q.1 < SLOT_NUM)
    && (q in s.place ==>
          && (s.place[q].InBitmap? <==> q.1 in s.pages[q.0].free)
          && (s.place[q].Moving? ==> s.place[q].t in s.pc && Carries(s.pc[s.place[q].t]) == Some(q)))
  }

  predicate ListOk(s: State) {
    && (forall i :: 0 <= i < |s.list| ==> s.list[i] in s.pages)
    && s.readers <= s.pc.Keys
    && (s.writer.Some? ==> s.writer.value in s.pc && s.readers == {})
  }

  ghost predicate Inv(s: State) {
    && ListOk(s)
    && (forall t :: t in s.pc ==> ThreadOk(s, t))
    && (forall p :: p in s.pages ==> PageOk(s, p))
    && (forall q: Slot :: SlotOk(s, q))
  }

  /** What a step of `t` may rely on: the facts about `t`, its page and its slot. */
  predicate Local(s: State, t: Tid) {
    && ListOk(s) && t in s.pc && ThreadOk(s, t)
    && (Mutex(s.pc[t]).Some? ==> PageOk(s, Mutex(s.pc[t]).value))
    && (s.pc[t].Claim? ==> SlotOk(s, (s.pc[t].p, s.pc[t].k)))
  }

  /** The facts about one thread, one page and one slot. */
  predicate Ok(s: State, u: Tid, p: PageId, q: Slot) {
    ListOk(s) && (u in s.pc ==> ThreadOk(s, u)) && (p in s.pages ==> PageOk(s, p)) && SlotOk(s, q)
  }

  lemma CallAllocKeeps(s: State, t: Tid, s': State, u: Tid, p: PageId, q: Slot)
    requires Local(s, t) && Ok(s, u, p, q) && CallAlloc(s, t, s')
    ensures Ok(s', u, p, q)
  {
    hide Upto;
  }

  lemma CallFreeKeeps(s: State, t: Tid, s': State, u: Tid, p: PageId, q: Slot)
    requires Local(s, t) && Ok(s, u, p, q) && CallFree(s, t, s')
    ensures Ok(s', u, p, q)
  {
    hide Upto;
  }

  lemma TakeReadLockKeeps(s: State, t: Tid, s': State, u: Tid, p: PageId, q: Slot)
    requires Local(s, t) && Ok(s, u, p, q) && TakeReadLock(s, t, s')
    ensures Ok(s', u, p, q)
  {
    hide Upto;
  }

  lemma TakeMutexKeeps(s: State, t: Tid, s': State, u: Tid, p: PageId, q: Slot)
    requires Local(s, t) && Ok(s, u, p, q) && TakeMutex(s, t, s')
    ensures Ok(s', u, p, q)
  {
    hide Upto;
  }

  lemma ReachEndKeeps(s: State, t: Tid, s': State, u: Tid, p: PageId, q: Slot)
    requires Local(s, t) && Ok(s, u, p, q) && ReachEnd(s, t, s')
    ensures Ok(s', u, p, q)
  {
    hide Upto;
  }

  lemma SkipFullKeeps(s: State, t: Tid, s': State, u: Tid, p: PageId, q: Slot)
    requires Local(s, t) && Ok(s, u, p, q) && SkipFull(s, t, s')
    ensures Ok(s', u, p, q)
  {
    hide Upto;
  }

  lemma FindSlotKeeps(s: State, t: Tid, s': State, u: Tid, p: PageId, q: Slot)
    requires Local(s, t) && Ok(s, u, p, q) && FindSlot(s, t, s')
    ensures Ok(s', u, p, q)
  {
    hide Upto;
  }

  lemma DropReadLockKeeps(s: State, t: Tid, s': State, u: Tid, p: PageId, q: Slot)
    requires Local(s, t) && Ok(s, u, p, q) && DropReadLock(s, t, s')
    ensures Ok(s', u, p, q)
  {
    hide Upto;
  }

  lemma ClearSlotKeeps(s: State, t: Tid, s': State, u: Tid, p: PageId, q: Slot)
    requires Local(s, t) && Ok(s, u, p, q) && ClearSlot(s, t, s')
    ensures Ok(s', u, p, q)
  {
    hide Upto;
  }

  lemma CountUpKeeps(s: State, t: Tid, s': State, u: Tid, p: PageId, q: Slot)
    requires Local(s, t) && Ok(s, u, p, q) && CountUp(s, t, s')
    ensures Ok(s', u, p, q)
  {
    hide Upto;
  }

  lemma ReturnKeeps(s: State, t: Tid, s': State, u: Tid, p: PageId, q: Slot)
    requires Local(s, t) && Ok(s, u, p, q) && Return(s, t, s')
    ensures Ok(s', u, p, q)
  {
    hide Upto;
  }

  lemma GiveUpKeeps(s: State, t: Tid, s': State, u: Tid, p: PageId, q: Slot)
    requires Local(s, t) && Ok(s, u, p, q) && GiveUp(s, t, s')
    ensures Ok(s', u, p, q)
  {
    hide Upto;
  }

  lemma TakeWriteLockKeeps(s: State, t: Tid, s': State, u: Tid, p: PageId, q: Slot)
    requires Local(s, t) && Ok(s, u, p, q) && TakeWriteLock(s, t, s')
    ensures Ok(s', u, p, q)
  {
    hide Upto;
  }

  lemma AddSetKeeps(s: State, t: Tid, s': State, u: Tid, p: PageId, q: Slot)
    requires Local(s, t) && Ok(s, u, p, q) && AddSet(s, t, s')
    ensures Ok(s', u, p, q)
  {
    hide Upto;
  }

  lemma DropWriteLockKeeps(s: State, t: Tid, s': State, u: Tid, p: PageId, q: Slot)
    requires Local(s, t) && Ok(s, u, p, q) && DropWriteLock(s, t, s')
    ensures Ok(s', u, p, q)
  {
    hide Upto;
  }

  lemma FreeLockKeeps(s: State, t: Tid, s': State, u: Tid, p: PageId, q: Slot)
    requires Local(s, t) && Ok(s, u, p, q) && FreeLock(s, t, s')
    ensures Ok(s', u, p, q)
  {
    hide Upto;
  }

  lemma FreeAgainKeeps(s: State, t: Tid, s': State, u: Tid, p: PageId, q: Slot)
    requires Local(s, t) && Ok(s, u, p, q) && FreeAgain(s, t, s')
    ensures Ok(s', u, p, q)
  {
    hide Upto;
  }

  lemma FreeBitKeeps(s: State, t: Tid, s': State, u: Tid, p: PageId, q: Slot)
    requires Local(s, t) && Ok(s, u, p, q) && FreeBit(s, t, s')
    ensures Ok(s', u, p, q)
  {
    hide Upto;
    var f, k := s.pages[s.pc[t].p].free, s.pc[t].k;
    assert |f + {k}| == |f| + 1;
    assert k in Upto(SLOT_NUM);
    assert PageOk(s', s.pc[t].p);
    assert p in s'.pages ==> PageOk(s', p);
    assert SlotOk(s', q);
  }

  lemma CountDownKeeps(s: State, t: Tid, s': State, u: Tid, p: PageId, q: Slot)
    requires Local(s, t) && Ok(s, u, p, q) && CountDown(s, t, s')
    ensures Ok(s', u, p, q)
  {
    hide Upto;
  }

  lemma FreeUnlockKeeps(s: State, t: Tid, s': State, u: Tid, p: PageId, q: Slot)
    requires Local(s, t) && Ok(s, u, p, q) && FreeUnlock(s, t, s')
    ensures Ok(s', u, p, q)
  {
    hide Upto;
  }

  lemma StepKeepsOne(s: State, t: Tid, s': State, u: Tid, p: PageId, q: Slot)
    requires Local(s, t) && Ok(s, u, p, q) && Step(s, t, s')
    ensures Ok(s', u, p, q)
  {
    hide Local, Ok;
    if
    case CallAlloc(s, t, s') => CallAllocKeeps(s, t, s', u, p, q);
    case CallFree(s, t, s') => CallFreeKeeps(s, t, s', u, p, q);
    case TakeReadLock(s, t, s') => TakeReadLockKeeps(s, t, s', u, p, q);
    case TakeMutex(s, t, s') => TakeMutexKeeps(s, t, s', u, p, q);
    case ReachEnd(s, t, s') => ReachEndKeeps(s, t, s', u, p, q);
    case SkipFull(s, t, s') => SkipFullKeeps(s, t, s', u, p, q);
    case FindSlot(s, t, s') => FindSlotKeeps(s, t, s', u, p, q);
    case DropReadLock(s, t, s') => DropReadLockKeeps(s, t, s', u, p, q);
    case ClearSlot(s, t, s') => ClearSlotKeeps(s, t, s', u, p, q);
    case CountUp(s, t, s') => CountUpKeeps(s, t, s', u, p, q);
    case Return(s, t, s') => ReturnKeeps(s, t, s', u, p, q);
    case GiveUp(s, t, s') => GiveUpKeeps(s, t, s', u, p, q);
    case TakeWriteLock(s, t, s') => TakeWriteLockKeeps(s, t, s', u, p, q);
    case AddSet(s, t, s') => AddSetKeeps(s, t, s', u, p, q);
    case DropWriteLock(s, t, s') => DropWriteLockKeeps(s, t, s', u, p, q);
    case FreeLock(s, t, s') => FreeLockKeeps(s, t, s', u, p, q);
    case FreeAgain(s, t, s') => FreeAgainKeeps(s, t, s', u, p, q);
    case FreeBit(s, t, s') => FreeBitKeeps(s, t, s', u, p, q);
    case CountDown(s, t, s') => CountDownKeeps(s, t, s', u, p, q);
    case FreeUnlock(s, t, s') => FreeUnlockKeeps(s, t, s', u, p, q);
  }

  lemma StepAddsOneThread(s: State, t: Tid, s': State)
    requires Step(s, t, s')
    ensures t in s.pc && s'.pc.Keys == s.pc.Keys
  {
    hide Upto, IsMin, NewPlaces;
    assert t in s.pc && t in s'.pc && s'.pc == s.pc[t := s'.pc[t]];
  }

  lemma LocalHolds(s: State, t: Tid)
    requires Inv(s) && t in s.pc
    ensures Local(s, t)
  {
    assert ThreadOk(s, t);
  }

  /** Every step keeps the invariant. */
  lemma StepKeeps(s: State, t: Tid, s': State)
    requires Inv(s) && Step(s, t, s')
    ensures Inv(s')
  {
    hide ThreadOk, PageOk, SlotOk, ListOk, Step;
    StepAddsOneThread(s, t, s');
    LocalHolds(s, t);
    forall u | u in s'.pc
      ensures ThreadOk(s', u)
    {
      StepKeepsOne(s, t, s', u, 0, (0, 0));
    }
    forall p | p in s'.pages
      ensures PageOk(s', p)
    {
      assert Ok(s, t, p, (0, 0));
      StepKeepsOne(s, t, s', t, p, (0, 0));
    }
    forall q: Slot
      ensures SlotOk(s', q)
    {
      StepKeepsOne(s, t, s', t, 0, q);
    }
    StepKeepsOne(s, t, s', t, 0, (0, 0));
  }

  // ---- runs ----

  predicate Init(s: State) {
    && s.pages == map[] && s.list == [] && s.readers == {} && s.writer.None?
    && (forall t :: t in s.pc ==> s.pc[t].Idle?) && s.place == map[] && s.log == []
  }

  ghost predicate Run(tr: seq<State>, who: seq<Tid>) {
    && |tr| == |who| + 1 && Init(tr[0])
    && forall i :: 0 <= i < |who| ==> Step(tr[i], who[i], tr[i + 1])
  }

  /** The last event about `q` is that it was allocated. */
  predicate LastIsAlloc(log: seq<Event>, q: Slot) {
    if log == [] then false
    else var e := log[|log| - 1]; if e.slot == q then e.Alloc? else LastIsAlloc(log[..|log| - 1], q)
  }

  /** Between two allocations of the same slot it was freed. */
  ghost predicate NeverTwice(log: seq<Event>) {
    forall i, j :: 0 <= i < j < |log| && log[i].Alloc? && log[j] == log[i] ==>
      exists m :: i < m < j && log[m] == Free(log[i].slot)
  }

  ghost predicate LogInv(s: State) {
    NeverTwice(s.log) && forall q: Slot :: Has(s, q, HandedOut) <==> LastIsAlloc(s.log, q)
  }

  lemma {:induction false} FreedSince(log: seq<Event>, i: nat)
    requires i < |log| && log[i].Alloc? && !LastIsAlloc(log, log[i].slot)
    ensures exists m :: i < m < |log| && log[m] == Free(log[i].slot)
  {
    var n := |log| - 1;
    if log[n].slot != log[i].slot {
      FreedSince(log[..n], i);
      var m :| i < m < n && log[..n][m] == Free(log[i].slot);
      assert log[m] == Free(log[i].slot);
    } else {
      assert log[n] == Free(log[i].slot);
    }
  }

  lemma NeverTwiceGrows(log: seq<Event>, e: Event)
    requires NeverTwice(log) && (e.Alloc? ==> !LastIsAlloc(log, e.slot))
    ensures NeverTwice(log + [e])
  {
    var l := log + [e];
    forall i, j | 0 <= i < j < |l| && l[i].Alloc? && l[j] == l[i]
      ensures exists m :: i < m < j && l[m] == Free(l[i].slot)
    {
      if j < |log| {
        assert log[i] == l[i] && log[j] == l[j];
        var m :| i < m < j && log[m] == Free(log[i].slot);
        assert l[m] == Free(l[i].slot);
      } else {
        assert log[i] == l[i];
        FreedSince(log, i);
        var m :| i < m < |log| && log[m] == Free(log[i].slot);
        assert l[m] == Free(l[i].slot);
      }
    }
  }

  lemma LastGrows(log: seq<Event>, e: Event, q: Slot)
    ensures LastIsAlloc(log + [e], q) <==> if e.slot == q then e.Alloc? else LastIsAlloc(log, q)
  {
    assert (log + [e])[..|log|] == log;
  }

  /** Which slots are handed out changes only when a call to slot_free starts or slot_alloc returns. */
  lemma HandedOutKept(s: State, t: Tid, s': State, q: Slot)
    requires Local(s, t) && SlotOk(s, q) && Step(s, t, s') && !CallFree(s, t, s') && !Return(s, t, s')
    ensures s'.log == s.log && (Has(s', q, HandedOut) <==> Has(s, q, HandedOut))
  {
    hide PageOk;
  }

  lemma LogKept(s: State, t: Tid, s': State)
    requires Inv(s) && LogInv(s) && Step(s, t, s')
    ensures LogInv(s')
  {
    hide ThreadOk, PageOk, SlotOk, ListOk, NeverTwice, LastIsAlloc, Step;
    StepAddsOneThread(s, t, s');
    LocalHolds(s, t);
    if CallFree(s, t, s') || Return(s, t, s') {
      var e := LoggedEvent(s, t, s');
      NeverTwiceGrows(s.log, e);
      forall q: Slot
        ensures Has(s', q, HandedOut) <==> LastIsAlloc(s'.log, q)
      {
        LastGrows(s.log, e, q);
      }
    } else {
      forall q: Slot
        ensures s'.log == s.log && (Has(s', q, HandedOut) <==> LastIsAlloc(s'.log, q))
      {
        HandedOutKept(s, t, s', q);
      }
      HandedOutKept(s, t, s', (0, 0));
    }
  }

  lemma LoggedEvent(s: State, t: Tid, s': State) returns (e: Event)
    requires Local(s, t) && (CallFree(s, t, s') || Return(s, t, s'))
    ensures s'.log == s.log + [e] && Has(s, e.slot, HandedOut) == e.Free? && Has(s', e.slot, HandedOut) == e.Alloc?
    ensures forall q: Slot :: q != e.slot ==> (Has(s', q, HandedOut) <==> Has(s, q, HandedOut))
  {
    e := s'.log[|s.log|];
  }

  /** In every run of any threads in any order: no slot is handed out twice without being freed in between,
      and a set whose mutex is free accounts for all its slots. */
  lemma {:induction false} RunsAreSafe(tr: seq<State>, who: seq<Tid>, i: nat)
    requires Run(tr, who) && i < |tr|
    ensures Inv(tr[i]) && LogInv(tr[i])
    ensures forall p :: p in tr[i].pages && tr[i].pages[p].holder.None? ==>
      |tr[i].pages[p].free| + tr[i].pages[p].used == SLOT_NUM
  {
    hide Step;
    if i == 0 {
    } else {
      RunsAreSafe(tr, who, i - 1);
      assert Step(tr[i - 1], who[i - 1], tr[i]);
      StepKeeps(tr[i - 1], who[i - 1], tr[i]);
      LogKept(tr[i - 1], who[i - 1], tr[i]);
    }
    forall p | p in tr[i].pages && tr[i].pages[p].holder.None?
      ensures |tr[i].pages[p].free| + tr[i].pages[p].used == SLOT_NUM
    {
      assert PageOk(tr[i], p);
    }
  }

  /** In every run, the bitmap scan of a set that is not full never falls through. */
  lemma ScanNeverFallsThrough(tr: seq<State>, who: seq<Tid>, i: nat, t: Tid)
    requires Run(tr, who) && i < |tr| && t in tr[i].pc && tr[i].pc[t].Locked?
    ensures var p := tr[i].pc[t].p;
      p in tr[i].pages && (tr[i].pages[p].used != SLOT_NUM ==> tr[i].pages[p].free != {})
  {
    RunsAreSafe(tr, who, i);
    assert ThreadOk(tr[i], t) && PageOk(tr[i], tr[i].pc[t].p);
  }

  /** A step of `t` leaves the bitmap of a set alone, takes the lowest free slot out of it, or puts one back. */
  ghost predicate BitmapMoves(s: State, t: Tid, s': State, p: PageId) {
    && p in s.pages && p in s'.pages
    && var f, f' := s.pages[p].free, s'.pages[p].free;
       || f' == f
       || (s.pages[p].holder == Some(t) && exists k :: IsMin(f, k) && f' == f - {k})
       || (s.pages[p].holder == Some(t) && exists k :: k !in f && f' == f + {k})
  }

  lemma TakeMoves(s: State, t: Tid, s': State, p: PageId)
    requires Local(s, t) && ClearSlot(s, t, s') && p in s.pages
    ensures BitmapMoves(s, t, s', p)
  {
    hide PageOk, SlotOk, ListOk;
    assert IsMin(s.pages[s.pc[t].p].free, s.pc[t].k);
  }

  lemma PutMoves(s: State, t: Tid, s': State, p: PageId)
    requires Local(s, t) && (FreeBit(s, t, s') || AddSet(s, t, s')) && p in s.pages
    ensures BitmapMoves(s, t, s', p)
  {
    hide PageOk, SlotOk, ListOk, Upto;
  }

  lemma OthersMove(s: State, t: Tid, s': State, p: PageId)
    requires Step(s, t, s') && !ClearSlot(s, t, s') && !FreeBit(s, t, s') && !AddSet(s, t, s') && p in s.pages
    ensures p in s'.pages && s'.pages[p].free == s.pages[p].free
  {
    hide ClearSlot, FreeBit, AddSet, IsMin, Upto, NewPlaces;
  }

  /** In every run a bitmap changes only under the mutex of its set, which loses its lowest free slot or regains one. */
  lemma LowestTaken(tr: seq<State>, who: seq<Tid>, i: nat, p: PageId)
    requires Run(tr, who) && i < |who| && p in tr[i].pages
    ensures BitmapMoves(tr[i], who[i], tr[i + 1], p)
  {
    RunsAreSafe(tr, who, i);
    var s, t, s' := tr[i], who[i], tr[i + 1];
    assert Step(s, t, s');
    hide Run, BitmapMoves, Local, ClearSlot, FreeBit, AddSet;
    assert t in s.pc by { hide Inv; StepAddsOneThread(s, t, s'); }
    LocalHolds(s, t);
    hide Inv;
    if ClearSlot(s, t, s') {
      TakeMoves(s, t, s', p);
    } else if FreeBit(s, t, s') || AddSet(s, t, s') {
      PutMoves(s, t, s', p);
    } else {
      OthersMove(s, t, s', p);
      Unmoved(s, t, s', p);
    }
  }

  lemma Unmoved(s: State, t: Tid, s': State, p: PageId)
    requires p in s.pages && p in s'.pages && s'.pages[p].free == s.pages[p].free
    ensures BitmapMoves(s, t, s', p)
  {
  }

  // ---- what a scan has seen ----

  /** How many sets of the list the scan of a thread has passed. */
  function Passed(c: Pc, list: seq<PageId>): nat {
    match c
    case Walk(i) => i
    case Locked(i, _) => i
    case Full => |list|
    case _ => 0
  }

  /** Thread `t` holds the mutex of the full set `p`, the `j`-th of the list. */
  predicate SeesFull(s: State, t: Tid, j: int, p: PageId) {
    t in s.pc && j >= 0 && s.pc[t] == Locked(j, p) && p in s.pages && s.pages[p].used == SLOT_NUM
  }

  /** By step `i` of a run, `t` has seen the `j`-th set of the list full. */
  ghost predicate HasSeen(tr: seq<State>, i: nat, t: Tid, j: int)
    requires i < |tr|
  {
    0 <= j < |tr[i].list| && exists k :: 0 <= k <= i && SeesFull(tr[k], t, j, tr[i].list[j])
  }

  ghost predicate SeenAll(tr: seq<State>, i: nat, t: Tid, n: nat)
    requires i < |tr|
  {
    forall j :: 0 <= j < n ==> HasSeen(tr, i, t, j)
  }

  lemma NoAddWhileRead(s: State, u: Tid, s': State, t: Tid)
    requires Inv(s) && t in s.pc && Reads(s.pc[t])
    ensures !AddSet(s, u, s')
  {
    hide PageOk, SlotOk;
    assert ThreadOk(s, t);
    if u in s.pc {
      assert ThreadOk(s, u);
    }
  }

  /** While a thread holds the read lock the list stays as it is. */
  lemma ListStays(s: State, u: Tid, s': State, t: Tid)
    requires Inv(s) && Step(s, u, s') && t in s.pc && Reads(s.pc[t])
    ensures s'.list == s.list
  {
    NoAddWhileRead(s, u, s', t);
    hide AddSet, IsMin, Upto, Inv;
  }

  /** The steps of a scan. */
  lemma ScanSteps(s: State, t: Tid, s': State)
    requires Step(s, t, s') && t in s'.pc && Passed(s'.pc[t], s'.list) > 0
    ensures TakeMutex(s, t, s') || ReachEnd(s, t, s') || SkipFull(s, t, s')
  {
    hide TakeMutex, ReachEnd, SkipFull, IsMin, Upto, NewPlaces;
  }

  /** A step of `t` passes a set only if that is full. */
  lemma PassesFull(s: State, t: Tid, s': State)
    requires Inv(s) && Step(s, t, s') && t in s'.pc && Passed(s'.pc[t], s'.list) > 0
    ensures t in s.pc && Reads(s.pc[t])
    ensures Passed(s'.pc[t], s'.list) == Passed(s.pc[t], s.list) ||
      (Passed(s'.pc[t], s'.list) == Passed(s.pc[t], s.list) + 1 && s.pc[t].Locked? &&
       SeesFull(s, t, s.pc[t].i, s.pc[t].p) && s.pc[t].i < |s.list| && s.list[s.pc[t].i] == s.pc[t].p)
  {
    assert t in s.pc by { hide Inv; StepAddsOneThread(s, t, s'); }
    ScanSteps(s, t, s');
    hide Step, SlotOk;
    assert ThreadOk(s, t);
    if s.pc[t].Locked? {
      assert PageOk(s, s.pc[t].p);
    }
  }

  lemma SeenLater(tr: seq<State>, i: nat, next: nat, t: Tid, n: nat)
    requires next == i + 1 < |tr| && tr[next].list == tr[i].list && SeenAll(tr, i, t, n)
    ensures SeenAll(tr, next, t, n)
  {
    forall j | 0 <= j < n
      ensures HasSeen(tr, next, t, j)
    {
      assert HasSeen(tr, i, t, j);
      var k :| 0 <= k <= i && SeesFull(tr[k], t, j, tr[i].list[j]);
      assert 0 <= k <= next && SeesFull(tr[k], t, j, tr[next].list[j]);
    }
  }

  lemma OthersKeepPlace(s: State, u: Tid, s': State, t: Tid)
    requires Step(s, u, s') && u != t && t in s'.pc
    ensures t in s.pc && s'.pc[t] == s.pc[t]
  {
    hide Upto, IsMin, NewPlaces;
  }

  /** In every run a thread has seen each set that its scan has passed full, under its mutex; so it adds a set only
      after having seen every set of the list full. */
  lemma {:induction false} PassedWereFull(tr: seq<State>, who: seq<Tid>, i: nat, t: Tid)
    requires Run(tr, who) && i < |tr| && t in tr[i].pc
    ensures SeenAll(tr, i, t, Passed(tr[i].pc[t], tr[i].list))
  {
    hide Step, Inv, SeenAll;
    if i == 0 || Passed(tr[i].pc[t], tr[i].list) == 0 {
      NothingPassed(tr, i, t);
    } else {
      var s, u, s' := tr[i - 1], who[i - 1], tr[i];
      RunsAreSafe(tr, who, i - 1);
      assert Step(s, u, s');
      if u != t {
        OthersKeepPlace(s, u, s', t);
      } else {
        PassesFull(s, t, s');
      }
      PassedWereFull(tr, who, i - 1, t);
      ListStays(s, u, s', t);
      SeenLater(tr, i - 1, i, t, Passed(s.pc[t], s.list));
      if Passed(s'.pc[t], s'.list) != Passed(s.pc[t], s.list) {
        OneMoreSeen(tr, i - 1, t, s.pc[t].i);
      }
    }
  }

  lemma NothingPassed(tr: seq<State>, i: nat, t: Tid)
    requires i < |tr|
    ensures SeenAll(tr, i, t, 0)
  {
  }

  lemma OneMoreSeen(tr: seq<State>, i: nat, t: Tid, n: nat)
    requires i + 1 < |tr| && tr[i + 1].list == tr[i].list && n < |tr[i].list|
    requires SeenAll(tr, i + 1, t, n) && SeesFull(tr[i], t, n, tr[i].list[n])
    ensures SeenAll(tr, i + 1, t, n + 1)
  {
    assert HasSeen(tr, i + 1, t, n);
  }

  // ---- progress ----

  ghost predicate CanStep(s: State, t: Tid) {
    exists s' :: Step(s, t, s')
  }

  lemma Steps(s: State, t: Tid, s': State)
    requires Step(s, t, s')
    ensures CanStep(s, t)
  {
  }

  /** A thread that holds a set mutex waits for nothing. */
  lemma HolderCanStep(s: State, t: Tid)
    requires Inv(s) && t in s.pc && Mutex(s.pc[t]).Some?
    ensures CanStep(s, t)
  {
    hide PageOk, SlotOk;
    assert ThreadOk(s, t);
    var p := Mutex(s.pc[t]).value;
    var g := s.pages[p];
    match s.pc[t]
    case Locked(i, _) =>
      if g.used == SLOT_NUM || g.free == {} {
        Steps(s, t, Goto(SetPage(s, p, g.(holder := None)), t, Walk(i + 1)));
      } else {
        var k := MinExists(g.free);
        Steps(s, t, Goto(s, t, Found(p, k)));
      }
    case Found(_, k) => Steps(s, t, Goto(s, t, Claim(p, k)).(readers := s.readers - {t}));
    case Claim(_, k) =>
      var cleared := SetPage(s, p, g.(free := g.free - {k}));
      Steps(s, t, Goto(cleared, t, Count(p, k)).(place := s.place[(p, k) := Moving(t)]));
    case Count(_, k) => Steps(s, t, Goto(SetPage(s, p, g.(used := g.used + 1)), t, Release(p, k)));
    case Release(_, k) =>
      var unlocked := Goto(SetPage(s, p, g.(holder := None)), t, Idle);
      Steps(s, t, unlocked.(place := s.place[(p, k) := HandedOut], log := s.log + [Alloc((p, k))]));
    case FreeMark(_, k) =>
      if k in g.free {
        Steps(s, t, Goto(s, t, FreeDone(p)));
      } else {
        var marked := SetPage(s, p, g.(free := g.free + {k}));
        Steps(s, t, Goto(marked, t, FreeCount(p, k)).(place := s.place[(p, k) := InBitmap]));
      }
    case FreeCount(_, k) => Steps(s, t, Goto(SetPage(s, p, g.(used := g.used - 1)), t, FreeDone(p)));
    case FreeDone(_) => Steps(s, t, Goto(SetPage(s, p, g.(holder := None)), t, Idle));
  }

  lemma WriterCanStep(s: State, t: Tid)
    requires Inv(s) && t in s.pc && Writes(s.pc[t])
    ensures CanStep(s, t)
  {
    match s.pc[t]
    case Link(p) =>
      var added := Goto(SetPage(s, p, Page(Upto(SLOT_NUM), 0, None)), t, Linked);
      Steps(s, t, added.(list := [p] + s.list, place := s.place + NewPlaces(p)));
    case Linked => Steps(s, t, Goto(s, t, Retry).(writer := None));
  }

  /** If the mutex of `p` is taken, its holder can step; otherwise it is free to take. */
  lemma MutexFreeOrHolderSteps(s: State, p: PageId) returns (h: Tid)
    requires Inv(s) && p in s.pages && s.pages[p].holder.Some?
    ensures h in s.pc && !s.pc[h].Idle? && CanStep(s, h)
  {
    assert PageOk(s, p);
    h := s.pages[p].holder.value;
    HolderCanStep(s, h);
  }

  lemma ReaderProgress(s: State, t: Tid) returns (u: Tid)
    requires Inv(s) && t in s.pc && Reads(s.pc[t])
    ensures u in s.pc && !s.pc[u].Idle? && CanStep(s, u)
  {
    u := t;
    match s.pc[t]
    case Walk(i) =>
      if i >= |s.list| {
        Steps(s, t, Goto(s, t, Full));
      } else {
        var p := s.list[i];
        if s.pages[p].holder.None? {
          Steps(s, t, Goto(SetPage(s, p, s.pages[p].(holder := Some(t))), t, Locked(i, p)));
        } else {
          u := MutexFreeOrHolderSteps(s, p);
        }
      }
    case Full => Steps(s, t, Goto(s, t, Grow).(readers := s.readers - {t}));
    case _ => HolderCanStep(s, t);
  }

  /** No run deadlocks: whenever some call is under way, some call that is under way can go on. */
  lemma NoDeadlock(tr: seq<State>, who: seq<Tid>, i: nat, t: Tid) returns (u: Tid)
    requires Run(tr, who) && i < |tr| && t in tr[i].pc && !tr[i].pc[t].Idle?
    ensures u in tr[i].pc && !tr[i].pc[u].Idle? && CanStep(tr[i], u)
  {
    RunsAreSafe(tr, who, i);
    u := SomeCallGoesOn(tr[i], t);
  }

  lemma SomeCallGoesOn(s: State, t: Tid) returns (u: Tid)
    requires Inv(s) && t in s.pc && !s.pc[t].Idle?
    ensures u in s.pc && !s.pc[u].Idle? && CanStep(s, u)
  {
    u := t;
    if Mutex(s.pc[t]).Some? {
      HolderCanStep(s, t);
    } else if Writes(s.pc[t]) {
      WriterCanStep(s, t);
    } else if Reads(s.pc[t]) {
      u := ReaderProgress(s, t);
    } else if s.writer.Some? {
      u := s.writer.value;
      assert ThreadOk(s, u);
      WriterCanStep(s, u);
    } else if s.pc[t].Retry? {
      Steps(s, t, Goto(s, t, Walk(0)).(readers := s.readers + {t}));
    } else if s.pc[t].FreeWait? {
      u := FreeWaitProgress(s, t);
    } else if s.readers != {} {
      var r :| r in s.readers;
      assert ThreadOk(s, r);
      u := ReaderProgress(s, r);
    } else {
      var p := FreshPage(s.pages.Keys);
      Steps(s, t, Goto(s, t, Link(p)).(writer := Some(t)));
    }
  }

  lemma FreeWaitProgress(s: State, t: Tid) returns (u: Tid)
    requires Inv(s) && t in s.pc && s.pc[t].FreeWait?
    ensures u in s.pc && !s.pc[u].Idle? && CanStep(s, u)
  {
    u := t;
    assert ThreadOk(s, t);
    var p, k := s.pc[t].p, s.pc[t].k;
    if s.pages[p].holder.None? {
      Steps(s, t, Goto(SetPage(s, p, s.pages[p].(holder := Some(t))), t, FreeMark(p, k)));
    } else {
      u := MutexFreeOrHolderSteps(s, p);
    }
  }

  lemma {:induction false} FreshPage(ps: set<PageId>) returns (p: PageId)
    ensures p !in ps && forall q :: q in ps ==> q < p
  {
    if ps == {} {
      p := 0;
    } else {
      var q :| q in ps;
      var g := ps - {q};
      assert ps == g + {q};
      p := FreshPage(g);
      if q >= p { p := q + 1; }
    }
  }
}
