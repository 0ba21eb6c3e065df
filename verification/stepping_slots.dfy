/** The single-step protocol on top of the concurrent slot allocator: the slot of a new breakpoint is the one that
    slot_alloc returns to the thread that adds it. */
module SteppingSlots {
  import opened Common
  import opened Slots
  import S = Stepping
  import A = SlotsConcurrent

  type Addr = nat

  /** The address of a slot, if mmap put the sets at `base`. */
  function AddressOf(base: A.PageId -> Addr, q: A.Slot): Addr {
    SlotAddress(base(q.0), q.1)
  }

  /** Every set got a region of its own, aligned and apart from the text. */
  ghost predicate Mapped<R, D>(w: S.World<R, D>, base: A.PageId -> Addr) {
    && (forall p, p' :: p != p' ==> RegionsApart(base(p), base(p')))
    && forall q: A.Slot :: q.1 < SLOT_NUM ==> SlotPlace(w, AddressOf(base, q))
  }

  predicate SlotPlace<R, D>(w: S.World<R, D>, slot: Addr) {
    slot % 8 == 0 && w.slots(slot) && w.slots(slot + 4)
  }

  /** The slot that slot_alloc returns lies apart from every slot that is handed out. */
  lemma ReturnedApart(base: A.PageId -> Addr, a: A.State, t: A.Tid, a': A.State, q: A.Slot)
    requires A.Inv(a) && A.Return(a, t, a') && A.Has(a, q, A.HandedOut)
    requires forall p, p' :: p != p' ==> RegionsApart(base(p), base(p'))
    ensures var r := (a.pc[t].p, a.pc[t].k);
      && r != q && r.1 < SLOT_NUM
      && (AddressOf(base, r) + SLOT_SIZE <= AddressOf(base, q) || AddressOf(base, q) + SLOT_SIZE <= AddressOf(base, r))
  {
    var r := (a.pc[t].p, a.pc[t].k);
    assert A.ThreadOk(a, t) && A.SlotOk(a, r) && A.SlotOk(a, q);
    SlotsApart(base(r.0), r.1, base(q.0), q.1);
  }

  // ---- the system ----

  /** `calls` tells for which breakpoint a thread is in slot_alloc. */
  datatype State<R, D> = State(s: S.State<R, D>, a: A.State, calls: map<A.Tid, Addr>)

  datatype Actor = Engine(who: S.Actor) | Enter(t: A.Tid, b: Addr) | Inside(t: A.Tid) | Leave(t: A.Tid)

  /** A step of a traced thread, or of an operation outside slot_alloc. */
  ghost predicate EngineStep<R(!new), D(!new)>(w: S.World<R, D>, c: State<R, D>, who: S.Actor, c': State<R, D>) {
    && S.Step(w, c.s, who, c'.s) && !(who.OfBp? && S.AddSlot(w, c.s, who.b, c'.s))
    && c' == c.(s := c'.s)
  }

  /** breakpoint_add, which holds the lock of `b`, calls slot_alloc. */
  ghost predicate EnterStep<R, D>(c: State<R, D>, t: A.Tid, b: Addr, c': State<R, D>) {
    && A.CallAlloc(c.a, t, c'.a) && b in c.s.bps && c.s.bps[b].phase.Inserted? && b !in c.calls.Values
    && c' == c.(a := c'.a, calls := c.calls[t := b])
  }

  ghost predicate InsideStep<R, D>(c: State<R, D>, t: A.Tid, c': State<R, D>) {
    && A.Step(c.a, t, c'.a) && !A.CallAlloc(c.a, t, c'.a) && !A.CallFree(c.a, t, c'.a) && !A.Return(c.a, t, c'.a)
    && c' == c.(a := c'.a)
  }

  /** slot_alloc returns a slot to breakpoint_add. */
  ghost predicate LeaveStep<R, D>(base: A.PageId -> Addr, c: State<R, D>, t: A.Tid, c': State<R, D>) {
    && A.Return(c.a, t, c'.a) && t in c.calls
    && var slot := AddressOf(base, (c.a.pc[t].p, c.a.pc[t].k));
       c' == State(S.PutBp(c.s, c.calls[t], S.Bp(S.Allocated, false, slot)), c'.a, c.calls - {t})
  }

  ghost predicate Step<R(!new), D(!new)>(
    w: S.World<R, D>, base: A.PageId -> Addr, c: State<R, D>, who: Actor, c': State<R, D>)
  {
    && !c.s.pages.faulted
    && match who
       case Engine(e) => EngineStep(w, c, e, c')
       case Enter(t, b) => EnterStep(c, t, b, c')
       case Inside(t) => InsideStep(c, t, c')
       case Leave(t) => LeaveStep(base, c, t, c')
  }

  // ---- the invariant ----

  /** A breakpoint's slot is one that the allocator has handed out. */
  ghost predicate Owned<R, D>(base: A.PageId -> Addr, c: State<R, D>, b: Addr) {
    b in c.s.bps && S.HasSlot(c.s.bps[b]) ==> exists q: A.Slot :: Owns(base, c, b, q)
  }

  predicate Owns<R, D>(base: A.PageId -> Addr, c: State<R, D>, b: Addr, q: A.Slot)
    requires b in c.s.bps
  {
    A.Has(c.a, q, A.HandedOut) && c.s.bps[b].slot == AddressOf(base, q)
  }

  /** The breakpoints that threads are in slot_alloc for are different and have no slot yet. */
  predicate CallsOk<R, D>(c: State<R, D>) {
    && (forall t :: t in c.calls ==> c.calls[t] in c.s.bps && c.s.bps[c.calls[t]].phase.Inserted?)
    && (forall t, u :: t in c.calls && u in c.calls && t != u ==> c.calls[t] != c.calls[u])
  }

  ghost predicate Inv<R(!new), D(!new)>(w: S.World<R, D>, base: A.PageId -> Addr, c: State<R, D>) {
    A.Inv(c.a) && S.Inv(w, c.s) && CallsOk(c) && forall b :: Owned(base, c, b)
  }

  /** The slot that slot_alloc returns is one that no breakpoint has. */
  lemma LeaveAddsSlot<R(!new), D(!new)>(
    w: S.World<R, D>, base: A.PageId -> Addr, c: State<R, D>, t: A.Tid, c': State<R, D>)
    requires Mapped(w, base) && Inv(w, base, c) && LeaveStep(base, c, t, c')
    ensures S.AddSlot(w, c.s, c.calls[t], c'.s)
  {
    hide A.Inv, S.Inv;
    var r := (c.a.pc[t].p, c.a.pc[t].k);
    var slot := AddressOf(base, r);
    assert r.1 < SLOT_NUM by { Carried(c.a, t, c'.a); }
    assert SlotPlace(w, slot);
    forall b | b in c.s.bps && S.HasSlot(c.s.bps[b])
      ensures c.s.bps[b].slot != slot
    {
      assert Owned(base, c, b);
      var q: A.Slot :| Owns(base, c, b, q);
      ReturnedApart(base, c.a, t, c'.a, q);
    }
    assert S.FreshSlot(w, c.s, slot);
  }

  lemma Carried(a: A.State, t: A.Tid, a': A.State)
    requires A.Inv(a) && A.Return(a, t, a')
    ensures a.pc[t].k < SLOT_NUM
  {
    var r := (a.pc[t].p, a.pc[t].k);
    assert A.ThreadOk(a, t) && A.SlotOk(a, r);
  }

  // ---- every step keeps it ----

  /** Steps of the allocator other than a return change neither breakpoints nor what is handed out. */
  lemma AllocatorKeeps<R(!new), D(!new)>(
    base: A.PageId -> Addr, c: State<R, D>, t: A.Tid, c': State<R, D>)
    requires A.Inv(c.a) && A.Step(c.a, t, c'.a) && !A.CallFree(c.a, t, c'.a) && !A.Return(c.a, t, c'.a)
    requires c'.s == c.s && forall b :: Owned(base, c, b)
    ensures A.Inv(c'.a) && forall b :: Owned(base, c', b)
  {
    A.StepKeeps(c.a, t, c'.a);
    A.StepAddsOneThread(c.a, t, c'.a);
    A.LocalHolds(c.a, t);
    forall b
      ensures Owned(base, c', b)
    {
      assert Owned(base, c, b);
      if b in c.s.bps && S.HasSlot(c.s.bps[b]) {
        var q: A.Slot :| Owns(base, c, b, q);
        StillHandedOut(c.a, t, c'.a, q);
        assert Owns(base, c', b, q);
      }
    }
  }

  lemma StillHandedOut(a: A.State, t: A.Tid, a': A.State, q: A.Slot)
    requires A.Inv(a) && A.Local(a, t) && A.Step(a, t, a') && !A.CallFree(a, t, a') && !A.Return(a, t, a')
    requires A.Has(a, q, A.HandedOut)
    ensures A.Has(a', q, A.HandedOut)
  {
    hide A.Step, A.Local;
    assert A.SlotOk(a, q);
    A.HandedOutKept(a, t, a', q);
  }

  lemma EngineKeeps<R(!new), D(!new)>(
    w: S.World<R, D>, base: A.PageId -> Addr, c: State<R, D>, who: S.Actor, c': State<R, D>)
    requires S.Sane(w) && Inv(w, base, c) && EngineStep(w, c, who, c') && S.OrderlyStep(w, c.s, who, c'.s)
    ensures Inv(w, base, c')
  {
    assert S.Inv(w, c'.s) by {
      hide A.Inv, CallsOk, Owned;
      S.StepInv(w, c.s, who, c'.s);
    }
    assert SlotsSame(c.s, c'.s) by {
      hide A.Inv, S.Inv, CallsOk, Owned;
      SlotsStay(w, c.s, who, c'.s);
    }
    hide A.Inv, S.Inv, S.Step, S.Sane, S.OrderlyStep, S.AddSlot, Owned, SlotsSame, CallsOk;
    CallsStay(c, c');
    forall b
      ensures Owned(base, c', b)
    {
      OwnedStays(base, c, c', b);
    }
  }

  lemma CallsStay<R, D>(c: State<R, D>, c': State<R, D>)
    requires CallsOk(c) && SlotsSame(c.s, c'.s) && c'.calls == c.calls
    ensures CallsOk(c')
  {
  }

  lemma OwnedStays<R, D>(base: A.PageId -> Addr, c: State<R, D>, c': State<R, D>, b: Addr)
    requires Owned(base, c, b) && SlotsSame(c.s, c'.s) && c'.a == c.a
    ensures Owned(base, c', b)
  {
    if b in c'.s.bps && S.HasSlot(c'.s.bps[b]) {
      var q: A.Slot :| Owns(base, c, b, q);
      assert Owns(base, c', b, q);
    }
  }

  /** No step but the return of slot_alloc gives a breakpoint a slot, and none takes one away. */
  ghost predicate SlotsSame<R, D>(s: S.State<R, D>, s': S.State<R, D>) {
    && (forall b :: b in s.bps ==> b in s'.bps && (s.bps[b].phase.Inserted? ==> s'.bps[b].phase.Inserted?))
    && (forall b :: b in s'.bps && S.HasSlot(s'.bps[b]) ==>
          b in s.bps && S.HasSlot(s.bps[b]) && s'.bps[b].slot == s.bps[b].slot)
  }

  lemma SlotsStay<R(!new), D(!new)>(w: S.World<R, D>, s: S.State<R, D>, who: S.Actor, s': S.State<R, D>)
    requires S.Step(w, s, who, s') && !(who.OfBp? && S.AddSlot(w, s, who.b, s'))
    ensures SlotsSame(s, s')
  {
    match who
    case OfThread(t) =>
      hide S.ThreadStep;
      S.OnlyThisThread(w, s, t, s');
    case OfBp(b) => BpSlotsStay(w, s, b, s');
  }

  lemma PutSlots<R, D>(s: S.State<R, D>, b: Addr, p: S.Bp, s': S.State<R, D>)
    requires s'.bps == s.bps[b := p]
    requires S.HasSlot(p) ==> b in s.bps && S.HasSlot(s.bps[b]) && p.slot == s.bps[b].slot
    requires b in s.bps && s.bps[b].phase.Inserted? ==> p.phase.Inserted?
    ensures SlotsSame(s, s')
  {
  }

  lemma StoredSlots<R, D>(w: S.World<R, D>, s: S.State<R, D>, b: Addr, p: S.Bp, v: S.Word)
    requires b in s.bps && S.HasSlot(p) && S.HasSlot(s.bps[b]) && p.slot == s.bps[b].slot
    ensures SlotsSame(s, S.Stored(w, s, b, p, v))
  {
    if w.home(b) in s.pages.open {
      PutSlots(s, b, p, S.Stored(w, s, b, p, v));
    }
  }

  lemma AddEnterSlots<R(!new), D(!new)>(w: S.World<R, D>, s: S.State<R, D>, b: Addr, s': S.State<R, D>)
    requires S.AddEnter(w, s, b, s')
    ensures SlotsSame(s, s')
  {
    hide S.FallsThrough, SlotsSame;
    PutSlots(s, b, S.Bp(S.Inserted, false, 0), s');
  }

  lemma AddCopySlots<R, D>(s: S.State<R, D>, b: Addr, s': S.State<R, D>)
    requires S.AddCopy(s, b, s')
    ensures SlotsSame(s, s')
  {
    hide SlotsSame;
    PutSlots(s, b, S.Bp(S.Copied, false, s.bps[b].slot), s');
  }

  lemma AddReturnSlots<R, D>(s: S.State<R, D>, b: Addr, s': S.State<R, D>)
    requires S.AddReturn(s, b, s')
    ensures SlotsSame(s, s')
  {
    if s.bps[b].slot + 4 !in s.index {
      hide SlotsSame;
      PutSlots(s, b, s.bps[b].(phase := S.Ready), s');
    }
  }

  lemma EnableSlots<R, D>(w: S.World<R, D>, s: S.State<R, D>, b: Addr, s': S.State<R, D>)
    requires S.Enable(w, s, b, s')
    ensures SlotsSame(s, s')
  {
    hide SlotsSame, S.Stored;
    var p := s.bps[b];
    match p.phase
    case Ready => PutSlots(s, b, p.(phase := S.Arming, enabled := true), s');
    case Arming => PutSlots(s, b, p.(phase := S.ArmOpen), s');
    case ArmOpen => StoredSlots(w, s, b, p.(phase := S.Armed), S.BRK);
    case Armed => PutSlots(s, b, p.(phase := S.Ready), s');
  }

  lemma DisableSlots<R, D>(w: S.World<R, D>, s: S.State<R, D>, b: Addr, s': S.State<R, D>)
    requires S.Disable(w, s, b, s')
    ensures SlotsSame(s, s')
  {
    hide SlotsSame, S.Stored;
    var p := s.bps[b];
    match p.phase
    case Ready => PutSlots(s, b, p.(phase := S.Disarming, enabled := false), s');
    case Disarming => PutSlots(s, b, p.(phase := S.DisarmOpen), s');
    case DisarmOpen => StoredSlots(w, s, b, p.(phase := S.Disarmed), s.mem[p.slot]);
    case Disarmed => PutSlots(s, b, p.(phase := S.Ready), s');
  }

  lemma BpSlotsStay<R(!new), D(!new)>(w: S.World<R, D>, s: S.State<R, D>, b: Addr, s': S.State<R, D>)
    requires S.BpStep(w, s, b, s') && !S.AddSlot(w, s, b, s')
    ensures SlotsSame(s, s')
  {
    hide SlotsSame, S.AddEnter, S.AddSlot, S.AddCopy, S.AddReturn, S.Enable, S.Disable;
    if
    case S.AddEnter(w, s, b, s') => AddEnterSlots(w, s, b, s');
    case S.AddCopy(s, b, s') => AddCopySlots(s, b, s');
    case S.AddReturn(s, b, s') => AddReturnSlots(s, b, s');
    case S.Enable(w, s, b, s') => EnableSlots(w, s, b, s');
    case S.Disable(w, s, b, s') => DisableSlots(w, s, b, s');
  }

  lemma EnterKeeps<R(!new), D(!new)>(
    w: S.World<R, D>, base: A.PageId -> Addr, c: State<R, D>, t: A.Tid, b: Addr, c': State<R, D>)
    requires Inv(w, base, c) && EnterStep(c, t, b, c')
    ensures Inv(w, base, c')
  {
    hide A.Inv, S.Inv, A.Step, A.CallFree, A.Return, A.CallAlloc;
    CallIsStep(c.a, t, c'.a);
    AllocatorKeeps(base, c, t, c');
  }

  lemma CallIsStep(a: A.State, t: A.Tid, a': A.State)
    requires A.CallAlloc(a, t, a')
    ensures A.Step(a, t, a') && !A.CallFree(a, t, a') && !A.Return(a, t, a')
  {
    assert a'.pc[t].Retry?;
  }

  lemma InsideKeeps<R(!new), D(!new)>(
    w: S.World<R, D>, base: A.PageId -> Addr, c: State<R, D>, t: A.Tid, c': State<R, D>)
    requires Inv(w, base, c) && InsideStep(c, t, c')
    ensures Inv(w, base, c')
  {
    hide A.Inv, S.Inv, A.Step, A.CallFree, A.Return, A.CallAlloc;
    AllocatorKeeps(base, c, t, c');
  }

  lemma LeaveKeeps<R(!new), D(!new)>(
    w: S.World<R, D>, base: A.PageId -> Addr, c: State<R, D>, t: A.Tid, c': State<R, D>)
    requires S.Sane(w) && Mapped(w, base) && Inv(w, base, c) && LeaveStep(base, c, t, c')
    ensures Inv(w, base, c')
  {
    var b := c.calls[t];
    var q := (c.a.pc[t].p, c.a.pc[t].k);
    LeaveAddsSlot(w, base, c, t, c');
    HandsOut(c.a, t, c'.a, q);
    hide A.Inv, S.Inv, Mapped, S.Sane, A.Return, CallsOk, Owned;
    LeaveCalls(base, c, t, c');
    hide LeaveStep, S.AddSlot;
    SlotKeepsProtocol(w, c.s, b, c'.s);
    forall b'
      ensures Owned(base, c', b')
    {
      LeaveOwned(base, c, t, c', q, b');
    }
  }

  lemma LeaveCalls<R, D>(base: A.PageId -> Addr, c: State<R, D>, t: A.Tid, c': State<R, D>)
    requires CallsOk(c) && LeaveStep(base, c, t, c')
    ensures CallsOk(c')
  {
    hide A.Return;
    assert forall u :: u in c'.calls ==> u in c.calls && u != t && c'.calls[u] == c.calls[u] != c.calls[t];
  }

  lemma SlotKeepsProtocol<R(!new), D(!new)>(w: S.World<R, D>, s: S.State<R, D>, b: Addr, s': S.State<R, D>)
    requires S.Sane(w) && S.Inv(w, s) && S.AddSlot(w, s, b, s')
    ensures S.Inv(w, s')
  {
    hide S.Inv, S.Sane, S.AddSlot;
    assert S.BpStep(w, s, b, s');
    S.BpStepInv(w, s, b, s');
  }

  lemma LeaveOwned<R, D>(
    base: A.PageId -> Addr, c: State<R, D>, t: A.Tid, c': State<R, D>, q: A.Slot, b: Addr)
    requires LeaveStep(base, c, t, c') && q == (c.a.pc[t].p, c.a.pc[t].k) && A.Has(c'.a, q, A.HandedOut)
    requires forall r: A.Slot :: A.Has(c.a, r, A.HandedOut) ==> A.Has(c'.a, r, A.HandedOut)
    requires Owned(base, c, b)
    ensures Owned(base, c', b)
  {
    hide A.Return, A.Has;
    if b == c.calls[t] {
      assert Owns(base, c', b, q);
    } else if b in c.s.bps && S.HasSlot(c.s.bps[b]) {
      var r: A.Slot :| Owns(base, c, b, r);
      assert Owns(base, c', b, r);
    }
  }

  lemma HandsOut(a: A.State, t: A.Tid, a': A.State, q: A.Slot)
    requires A.Inv(a) && A.Return(a, t, a') && q == (a.pc[t].p, a.pc[t].k)
    ensures A.Inv(a') && A.Has(a', q, A.HandedOut)
    ensures forall r: A.Slot :: A.Has(a, r, A.HandedOut) ==> A.Has(a', r, A.HandedOut)
  {
    assert A.Step(a, t, a');
    A.StepKeeps(a, t, a');
  }

  // ---- runs ----

  ghost predicate Init<R, D>(w: S.World<R, D>, c: State<R, D>) {
    S.Init(w, c.s) && A.Init(c.a) && c.calls == map[]
  }

  ghost predicate Run<R(!new), D(!new)>(
    w: S.World<R, D>, base: A.PageId -> Addr, tr: seq<State<R, D>>, who: seq<Actor>)
  {
    && |tr| == |who| + 1 && Init(w, tr[0])
    && forall i :: 0 <= i < |who| ==>
          Step(w, base, tr[i], who[i], tr[i + 1]) && OrderlyStep(w, tr[i], who[i], tr[i + 1])
  }

  /** While the entry-point handler is installed, traps are ones it is made for. */
  ghost predicate OrderlyStep<R, D>(w: S.World<R, D>, c: State<R, D>, who: Actor, c': State<R, D>) {
    who.Engine? ==> S.OrderlyStep(w, c.s, who.who, c'.s)
  }

  lemma InitInv<R(!new), D(!new)>(w: S.World<R, D>, base: A.PageId -> Addr, c: State<R, D>)
    requires Init(w, c)
    ensures Inv(w, base, c)
  {
    S.InitInv(w, c.s);
  }

  lemma StepKeeps<R(!new), D(!new)>(
    w: S.World<R, D>, base: A.PageId -> Addr, c: State<R, D>, who: Actor, c': State<R, D>)
    requires S.Sane(w) && Mapped(w, base) && Inv(w, base, c)
    requires Step(w, base, c, who, c') && OrderlyStep(w, c, who, c')
    ensures Inv(w, base, c')
  {
    hide Inv, Mapped, S.Sane, EngineStep, EnterStep, InsideStep, LeaveStep, S.OrderlyStep;
    match who
    case Engine(e) => EngineKeeps(w, base, c, e, c');
    case Enter(t, b) => EnterKeeps(w, base, c, t, b, c');
    case Inside(t) => InsideKeeps(w, base, c, t, c');
    case Leave(t) => LeaveKeeps(w, base, c, t, c');
  }

  /** For the protocol a step is one of its own steps, or nothing. */
  lemma StepProjects<R(!new), D(!new)>(
    w: S.World<R, D>, base: A.PageId -> Addr, c: State<R, D>, who: Actor, c': State<R, D>)
    returns (e: Option<S.Actor>)
    requires Mapped(w, base) && Inv(w, base, c) && Step(w, base, c, who, c') && OrderlyStep(w, c, who, c')
    ensures e.None? ==> c'.s == c.s
    ensures e.Some? ==> S.Step(w, c.s, e.value, c'.s) && S.OrderlyStep(w, c.s, e.value, c'.s)
    ensures if who.Engine? then e == Some(who.who) else e.Some? ==> e.value.OfBp?
  {
    match who
    case Engine(x) => e := Some(x);
    case Enter(_, _) => e := None;
    case Inside(_) => e := None;
    case Leave(t) =>
      LeaveAddsSlot(w, base, c, t, c');
      hide S.AddSlot, LeaveStep, Inv, Mapped;
      e := Some(S.OfBp(c.calls[t]));
  }

  ghost predicate ProtocolRun<R(!new), D(!new)>(w: S.World<R, D>, tr: seq<S.State<R, D>>, who: seq<S.Actor>) {
    S.Run(w, tr, who) && S.Orderly(w, tr, who)
  }

  lemma RunGrows<R(!new), D(!new)>(
    w: S.World<R, D>, tr: seq<S.State<R, D>>, who: seq<S.Actor>, e: S.Actor, s: S.State<R, D>)
    requires ProtocolRun(w, tr, who) && S.Step(w, tr[|who|], e, s) && S.OrderlyStep(w, tr[|who|], e, s)
    ensures ProtocolRun(w, tr + [s], who + [e])
  {
    hide S.Step, S.OrderlyStep, S.Init;
    var tr', who' := tr + [s], who + [e];
    forall i | 0 <= i < |who'|
      ensures S.Step(w, tr'[i], who'[i], tr'[i + 1]) && S.OrderlyStep(w, tr'[i], who'[i], tr'[i + 1])
    {
      if i < |who| {
        assert S.Step(w, tr[i], who[i], tr[i + 1]) && S.OrderlyStep(w, tr[i], who[i], tr[i + 1]);
      }
    }
  }

  /** Without the steps of the allocator a run is a run of the protocol between the same states. */
  lemma {:induction false} RunProjects<R(!new), D(!new)>(
    w: S.World<R, D>, base: A.PageId -> Addr, tr: seq<State<R, D>>, who: seq<Actor>, i: nat)
    returns (ss: seq<S.State<R, D>>, es: seq<S.Actor>)
    requires S.Sane(w) && Mapped(w, base) && Run(w, base, tr, who) && i < |tr|
    ensures Inv(w, base, tr[i])
    ensures ProtocolRun(w, ss, es) && ss[0] == tr[0].s && ss[|es|] == tr[i].s
  {
    hide Inv, Mapped, S.Sane, Step, OrderlyStep, S.Init, S.Step, S.OrderlyStep;
    if i == 0 {
      InitInv(w, base, tr[0]);
      ss, es := [tr[0].s], [];
    } else {
      ss, es := RunProjects(w, base, tr, who, i - 1);
      assert Step(w, base, tr[i - 1], who[i - 1], tr[i]) && OrderlyStep(w, tr[i - 1], who[i - 1], tr[i]);
      StepKeeps(w, base, tr[i - 1], who[i - 1], tr[i]);
      var e := StepProjects(w, base, tr[i - 1], who[i - 1], tr[i]);
      if e.Some? {
        RunGrows(w, ss, es, e.value, tr[i].s);
        ss, es := ss + [tr[i].s], es + [e.value];
      }
    }
  }

  /** With slots from the concurrent allocator: no handler assertion fails, the -4 exit is not taken, every
      breakpoint's slot is handed out and no two breakpoints share one. */
  lemma EngineSafe<R(!new), D(!new)>(
    w: S.World<R, D>, base: A.PageId -> Addr, tr: seq<State<R, D>>, who: seq<Actor>, i: nat)
    requires S.Sane(w) && Mapped(w, base) && Run(w, base, tr, who) && i < |tr|
    ensures var s := tr[i].s;
      && !s.failed
      && (forall b :: Owned(base, tr[i], b))
      && (forall b, b' :: b in s.bps && b' in s.bps && b != b' && S.HasSlot(s.bps[b]) && S.HasSlot(s.bps[b']) ==>
            s.bps[b].slot != s.bps[b'].slot)
  {
    var ss, es := RunProjects(w, base, tr, who, i);
    hide Run, Mapped, S.Sane, S.Step, S.Init, A.Inv;
    S.RunSafe(w, ss, es, |es|);
    var s := tr[i].s;
    forall b, b' | b in s.bps && b' in s.bps && b != b' && S.HasSlot(s.bps[b]) && S.HasSlot(s.bps[b'])
      ensures s.bps[b].slot != s.bps[b'].slot
    {
      assert S.PairOk(s, b, b');
    }
  }

  /** Every run of the engine with slots from the concurrent allocator is a run of the plain program. */
  lemma EngineSimulation<R(!new), D(!new)>(
    w: S.World<R, D>, base: A.PageId -> Addr, tr: seq<State<R, D>>, who: seq<Actor>)
    returns (ps: seq<S.Plain<R, D>>, ts: seq<S.Tid>)
    requires S.Sane(w) && Mapped(w, base) && Run(w, base, tr, who)
    ensures S.PlainRun(w, ps, ts) && ps[0] == S.Abs(tr[0].s) && ps[|ts|] == S.Abs(tr[|who|].s)
  {
    var ss, es := RunProjects(w, base, tr, who, |who|);
    S.Simulation(w, ss, es);
    ps, ts := S.PlainStates(w, ss, es), S.PlainThreads(w, ss, es);
  }
}
