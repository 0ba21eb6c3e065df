/** Write protection: enabling and disabling make an object's text writable, store and make it read-only again,
    each under the lock of its own breakpoint only, so that operations on one object can undo each other's work. */
module SteppingPages {
  import opened Common
  import opened Stepping

  // ---- what each step does to the protection ----

  /** The operation on `b` is about to remove the protection. */
  predicate Unlocks<R, D>(s: State<R, D>, b: Addr) {
    b in s.bps && (s.bps[b].phase.Arming? || s.bps[b].phase.Disarming?)
  }

  /** It is about to store. */
  predicate Stores<R, D>(s: State<R, D>, b: Addr) {
    b in s.bps && (s.bps[b].phase.ArmOpen? || s.bps[b].phase.DisarmOpen?)
  }

  /** It is about to put the protection back. */
  predicate Protects<R, D>(s: State<R, D>, b: Addr) {
    b in s.bps && (s.bps[b].phase.Armed? || s.bps[b].phase.Disarmed?)
  }

  /** Where it is about to store, the text is writable. */
  predicate Storable<R, D>(w: World<R, D>, s: State<R, D>, b: Addr) {
    Stores(s, b) ==> w.home(b) in s.pages.open
  }

  /** The operation on `b` has removed the protection and not put it back. */
  predicate InWindow<R, D>(s: State<R, D>, b: Addr) {
    Stores(s, b) || Protects(s, b)
  }

  /** What a step on `b` does: only two kinds change what is writable, and only a store can fault. */
  ghost predicate Moves<R, D>(w: World<R, D>, s: State<R, D>, b: Addr, s': State<R, D>) {
    && s'.pages.open == (if Unlocks(s, b) then s.pages.open + {w.found(b)}
                         else if Protects(s, b) then s.pages.open - {w.found(b)} else s.pages.open)
    && (s'.pages.faulted <==> s.pages.faulted || (Stores(s, b) && w.home(b) !in s.pages.open))
    && (!s'.pages.faulted ==> (InWindow(s', b) <==> Unlocks(s, b) || Stores(s, b)))
  }

  lemma AddMoves<R(!new), D(!new)>(w: World<R, D>, s: State<R, D>, b: Addr, s': State<R, D>)
    requires AddEnter(w, s, b, s') || AddSlot(w, s, b, s')
    ensures Moves(w, s, b, s')
  {
    hide FallsThrough, FreshSlot;
  }

  lemma CopyMoves<R, D>(w: World<R, D>, s: State<R, D>, b: Addr, s': State<R, D>)
    requires AddCopy(s, b, s') || AddReturn(s, b, s')
    ensures Moves(w, s, b, s')
  {
  }

  lemma FlagMoves<R, D>(w: World<R, D>, s: State<R, D>, b: Addr, p: Bp, s': State<R, D>)
    requires b in s.bps && s.bps[b].phase.Ready? && (p.phase.Arming? || p.phase.Disarming?)
    requires s'.bps == s.bps[b := p] && s'.pages == s.pages
    ensures Moves(w, s, b, s')
  {
  }

  lemma UnlockMoves<R, D>(w: World<R, D>, s: State<R, D>, b: Addr, p: Bp, s': State<R, D>)
    requires Unlocks(s, b) && (p.phase.ArmOpen? || p.phase.DisarmOpen?)
    requires s'.bps == s.bps[b := p] && s'.pages == s.pages.(open := s.pages.open + {w.found(b)})
    ensures Moves(w, s, b, s')
  {
  }

  lemma StoreMoves<R, D>(w: World<R, D>, s: State<R, D>, b: Addr, p: Bp, v: Word)
    requires Stores(s, b) && (p.phase.Armed? || p.phase.Disarmed?)
    ensures Moves(w, s, b, Stored(w, s, b, p, v))
  {
  }

  lemma ProtectMoves<R, D>(w: World<R, D>, s: State<R, D>, b: Addr, p: Bp, s': State<R, D>)
    requires Protects(s, b) && p.phase.Ready?
    requires s'.bps == s.bps[b := p] && s'.pages == s.pages.(open := s.pages.open - {w.found(b)})
    ensures Moves(w, s, b, s')
  {
  }

  lemma EnableMoves<R, D>(w: World<R, D>, s: State<R, D>, b: Addr, s': State<R, D>)
    requires Enable(w, s, b, s')
    ensures Moves(w, s, b, s')
  {
    hide Moves, Stored;
    var p := s.bps[b];
    match p.phase
    case Ready => FlagMoves(w, s, b, p.(phase := Arming, enabled := true), s');
    case Arming => UnlockMoves(w, s, b, p.(phase := ArmOpen), s');
    case ArmOpen => StoreMoves(w, s, b, p.(phase := Armed), BRK);
    case Armed => ProtectMoves(w, s, b, p.(phase := Ready), s');
  }

  lemma DisableMoves<R, D>(w: World<R, D>, s: State<R, D>, b: Addr, s': State<R, D>)
    requires Disable(w, s, b, s')
    ensures Moves(w, s, b, s')
  {
    hide Moves, Stored;
    var p := s.bps[b];
    match p.phase
    case Ready => FlagMoves(w, s, b, p.(phase := Disarming, enabled := false), s');
    case Disarming => UnlockMoves(w, s, b, p.(phase := DisarmOpen), s');
    case DisarmOpen => StoreMoves(w, s, b, p.(phase := Disarmed), s.mem[p.slot]);
    case Disarmed => ProtectMoves(w, s, b, p.(phase := Ready), s');
  }

  lemma StepMoves<R(!new), D(!new)>(w: World<R, D>, s: State<R, D>, b: Addr, s': State<R, D>)
    requires BpStep(w, s, b, s')
    ensures Moves(w, s, b, s')
  {
    hide Moves, AddEnter, AddSlot, AddCopy, AddReturn, Enable, Disable;
    if
    case AddEnter(w, s, b, s') || AddSlot(w, s, b, s') => AddMoves(w, s, b, s');
    case AddCopy(s, b, s') || AddReturn(s, b, s') => CopyMoves(w, s, b, s');
    case Enable(w, s, b, s') => EnableMoves(w, s, b, s');
    case Disable(w, s, b, s') => DisableMoves(w, s, b, s');
  }

  // ---- when a store faults ----

  /** Step `k` of a run makes object `o` writable. */
  ghost predicate OpensAt<R, D>(w: World<R, D>, tr: seq<State<R, D>>, who: seq<Actor>, k: nat, o: Obj)
    requires |tr| == |who| + 1 && k < |who|
  {
    who[k].OfBp? && Unlocks(tr[k], who[k].b) && w.found(who[k].b) == o
  }

  /** Step `k` of a run makes object `o` read-only. */
  ghost predicate ShutsAt<R, D>(w: World<R, D>, tr: seq<State<R, D>>, who: seq<Actor>, k: nat, o: Obj)
    requires |tr| == |who| + 1 && k < |who|
  {
    who[k].OfBp? && Protects(tr[k], who[k].b) && w.found(who[k].b) == o
  }

  /** Between steps `u` and `j` object `o` was made read-only and not writable again. */
  ghost predicate ShutSince<R, D>(
    w: World<R, D>, tr: seq<State<R, D>>, who: seq<Actor>, u: nat, j: nat, o: Obj)
    requires |tr| == |who| + 1 && j <= |who|
  {
    exists k :: u < k < j && ShutsAt(w, tr, who, k, o) && forall m :: k < m < j ==> !OpensAt(w, tr, who, m, o)
  }

  lemma OneStep<R(!new), D(!new)>(w: World<R, D>, tr: seq<State<R, D>>, who: seq<Actor>, j: nat, o: Obj)
    requires Run(w, tr, who) && j < |who|
    ensures o in tr[j + 1].pages.open <==>
      OpensAt(w, tr, who, j, o) || (o in tr[j].pages.open && !ShutsAt(w, tr, who, j, o))
  {
    assert Step(w, tr[j], who[j], tr[j + 1]);
    hide Run, ThreadStep, BpStep;
    match who[j]
    case OfThread(t) => OnlyThisThread(w, tr[j], t, tr[j + 1]);
    case OfBp(b) => StepMoves(w, tr[j], b, tr[j + 1]);
  }

  /** Once made writable, an object is read-only exactly if it was shut since. */
  lemma {:induction false} OpenSince<R(!new), D(!new)>(
    w: World<R, D>, tr: seq<State<R, D>>, who: seq<Actor>, u: nat, j: nat, o: Obj)
    requires Run(w, tr, who) && u < j <= |who| && OpensAt(w, tr, who, u, o)
    ensures o !in tr[j].pages.open <==> ShutSince(w, tr, who, u, j, o)
  {
    hide Run, OpensAt, ShutsAt, ShutSince;
    assert |tr| == |who| + 1 by { RunLength(w, tr, who); }
    OneStep(w, tr, who, j - 1, o);
    Exclusive(w, tr, who, j - 1, o);
    if j == u + 1 {
      NotYetShut(w, tr, who, u, o);
    } else {
      OpenSince(w, tr, who, u, j - 1, o);
      ShutLater(w, tr, who, u, j - 1, o);
    }
  }

  lemma RunLength<R(!new), D(!new)>(w: World<R, D>, tr: seq<State<R, D>>, who: seq<Actor>)
    requires Run(w, tr, who)
    ensures |tr| == |who| + 1
  {
    hide Step, Init;
  }

  lemma NotYetShut<R, D>(w: World<R, D>, tr: seq<State<R, D>>, who: seq<Actor>, u: nat, o: Obj)
    requires |tr| == |who| + 1 && u < |who|
    ensures !ShutSince(w, tr, who, u, u + 1, o)
  {
  }

  lemma ShutLater<R, D>(w: World<R, D>, tr: seq<State<R, D>>, who: seq<Actor>, u: nat, j: nat, o: Obj)
    requires |tr| == |who| + 1 && u < j < |who|
    ensures ShutSince(w, tr, who, u, j + 1, o) <==>
      ShutsAt(w, tr, who, j, o) || (ShutSince(w, tr, who, u, j, o) && !OpensAt(w, tr, who, j, o))
  {
    Exclusive(w, tr, who, j, o);
    hide OpensAt, ShutsAt;
    if !ShutsAt(w, tr, who, j, o) && !OpensAt(w, tr, who, j, o) && ShutSince(w, tr, who, u, j, o) {
      var k :| u < k < j && ShutsAt(w, tr, who, k, o) && forall m :: k < m < j ==> !OpensAt(w, tr, who, m, o);
      assert forall m :: k < m < j + 1 ==> !OpensAt(w, tr, who, m, o);
    }
  }

  lemma Exclusive<R, D>(w: World<R, D>, tr: seq<State<R, D>>, who: seq<Actor>, k: nat, o: Obj)
    requires |tr| == |who| + 1 && k < |who|
    ensures !(OpensAt(w, tr, who, k, o) && ShutsAt(w, tr, who, k, o))
  {
  }

  /** The store of an operation on a breakpoint below the end of its text range faults exactly if, since the operation
      made the object writable, another operation on the same object has made it read-only again and none has made it
      writable after that. */
  lemma StoreFaults<R(!new), D(!new)>(
    w: World<R, D>, tr: seq<State<R, D>>, who: seq<Actor>, u: nat, j: nat, b: Addr)
    requires Run(w, tr, who) && u < j < |who| && who[u] == who[j] == OfBp(b) && w.found(b) == w.home(b)
    requires Unlocks(tr[u], b) && Stores(tr[j], b) && forall k :: u < k < j ==> who[k] != OfBp(b)
    ensures tr[j + 1].pages.faulted <==> ShutSince(w, tr, who, u, j, w.found(b))
  {
    OpenSince(w, tr, who, u, j, w.found(b));
    assert Step(w, tr[j], who[j], tr[j + 1]);
    hide Run, BpStep, ShutSince;
    StepMoves(w, tr[j], b, tr[j + 1]);
  }

  // ---- when no store faults ----

  /** What can be checked before the protection is removed: the breakpoint is below the end of its text range, and no
      other operation on the object is between removing the protection and putting it back. */
  predicate MayUnlock<R, D>(w: World<R, D>, s: State<R, D>, b: Addr) {
    w.found(b) == w.home(b) && forall c :: c in s.bps && InWindow(s, c) ==> w.found(c) != w.found(b)
  }

  /** Every operation removes the protection only when it may. */
  ghost predicate Sheltered<R, D>(w: World<R, D>, tr: seq<State<R, D>>, who: seq<Actor>)
    requires |tr| == |who| + 1
  {
    forall i :: 0 <= i < |who| ==> ShelteredStep(w, tr[i], who[i])
  }

  predicate ShelteredStep<R, D>(w: World<R, D>, s: State<R, D>, who: Actor) {
    who.OfBp? && Unlocks(s, who.b) ==> MayUnlock(w, s, who.b)
  }

  /** Each operation between removing the protection and putting it back has its object for itself. */
  predicate WindowOk<R, D>(w: World<R, D>, s: State<R, D>, b: Addr) {
    InWindow(s, b) ==>
      && w.found(b) == w.home(b) && w.found(b) in s.pages.open
      && forall c :: c in s.bps && c != b && InWindow(s, c) ==> w.found(c) != w.found(b)
  }

  ghost predicate PagesOk<R(!new), D(!new)>(w: World<R, D>, s: State<R, D>) {
    !s.pages.faulted && forall b :: b in s.bps ==> WindowOk(w, s, b)
  }

  lemma OthersSame<R(!new), D(!new)>(w: World<R, D>, s: State<R, D>, b: Addr, s': State<R, D>)
    requires BpStep(w, s, b, s')
    ensures forall c :: c != b ==> (c in s'.bps <==> c in s.bps) && (c in s.bps ==> s'.bps[c] == s.bps[c])
  {
    hide BpStep;
    OnlyThisBp(w, s, b, s');
  }

  lemma BpPagesKept<R(!new), D(!new)>(w: World<R, D>, s: State<R, D>, b: Addr, s': State<R, D>)
    requires PagesOk(w, s) && BpStep(w, s, b, s') && ShelteredStep(w, s, OfBp(b))
    ensures PagesOk(w, s')
  {
    hide BpStep;
    StepMoves(w, s, b, s');
    OthersSame(w, s, b, s');
    assert b in s.bps ==> WindowOk(w, s, b);
    forall c | c in s'.bps
      ensures WindowOk(w, s', c)
    {
      assert c in s.bps ==> WindowOk(w, s, c);
    }
  }

  lemma PagesKept<R(!new), D(!new)>(w: World<R, D>, s: State<R, D>, who: Actor, s': State<R, D>)
    requires PagesOk(w, s) && Step(w, s, who, s') && ShelteredStep(w, s, who)
    ensures PagesOk(w, s')
  {
    hide ThreadStep, BpStep;
    match who
    case OfThread(t) =>
      OnlyThisThread(w, s, t, s');
      forall b | b in s'.bps
        ensures WindowOk(w, s', b)
      {
        assert WindowOk(w, s, b);
      }
    case OfBp(b) => BpPagesKept(w, s, b, s');
  }

  /** In a run in which every operation removes the protection only when it may, no store faults. */
  lemma {:induction false} NoFault<R(!new), D(!new)>(w: World<R, D>, tr: seq<State<R, D>>, who: seq<Actor>, i: nat)
    requires Run(w, tr, who) && Sheltered(w, tr, who) && i < |tr|
    ensures PagesOk(w, tr[i])
  {
    hide Step, ShelteredStep, WindowOk;
    if i == 0 {
      assert tr[0].bps == map[];
    } else {
      NoFault(w, tr, who, i - 1);
      assert Step(w, tr[i - 1], who[i - 1], tr[i]) && ShelteredStep(w, tr[i - 1], who[i - 1]);
      PagesKept(w, tr[i - 1], who[i - 1], tr[i]);
    }
  }

  // ---- no thread is stuck ----

  ghost predicate ThreadCanStep<R(!new), D(!new)>(w: World<R, D>, s: State<R, D>, t: Tid) {
    exists s' :: ThreadStep(w, s, t, s')
  }

  /** The operation on `b` has a step that does not fault. */
  ghost predicate BpCanStep<R(!new), D(!new)>(w: World<R, D>, s: State<R, D>, b: Addr) {
    exists s' :: BpStep(w, s, b, s') && !s'.pages.faulted
  }

  lemma ThreadSteps<R(!new), D(!new)>(w: World<R, D>, s: State<R, D>, t: Tid, s': State<R, D>)
    requires ThreadStep(w, s, t, s')
    ensures ThreadCanStep(w, s, t)
  {
  }

  lemma BpSteps<R(!new), D(!new)>(w: World<R, D>, s: State<R, D>, b: Addr, s': State<R, D>)
    requires BpStep(w, s, b, s') && !s'.pages.faulted
    ensures BpCanStep(w, s, b)
  {
  }

  /** An operation on a finished breakpoint can go on exactly if, where it is about to store, the text is writable. */
  lemma OperationGoesOn<R(!new), D(!new)>(w: World<R, D>, s: State<R, D>, b: Addr)
    requires Core(w, s) && Added(s, b) && !s.bps[b].phase.Ready? && !s.pages.faulted
    ensures BpCanStep(w, s, b) <==> Storable(w, s, b)
  {
    hide MemOk, PairOk, KeyOk, ThreadOk, FallsThrough;
    assert BpOk(w, s, b);
    hide Core;
    var p := s.bps[b];
    match p.phase
    case Arming => BpSteps(w, s, b, Opened(w, PutBp(s, b, p.(phase := ArmOpen)), b));
    case ArmOpen => StoreGoesOn(w, s, b, p.(phase := Armed), BRK);
    case Armed => BpSteps(w, s, b, Shut(w, PutBp(s, b, p.(phase := Ready)), b));
    case Disarming => BpSteps(w, s, b, Opened(w, PutBp(s, b, p.(phase := DisarmOpen)), b));
    case DisarmOpen => StoreGoesOn(w, s, b, p.(phase := Disarmed), s.mem[p.slot]);
    case Disarmed => BpSteps(w, s, b, Shut(w, PutBp(s, b, p.(phase := Ready)), b));
  }

  lemma StoreGoesOn<R(!new), D(!new)>(w: World<R, D>, s: State<R, D>, b: Addr, p: Bp, v: Word)
    requires BpStep(w, s, b, Stored(w, s, b, p, v)) && !s.pages.faulted && b in s.bps && Stores(s, b)
    ensures BpCanStep(w, s, b) <==> w.home(b) in s.pages.open
  {
    if w.home(b) in s.pages.open {
      hide BpStep;
      BpSteps(w, s, b, Stored(w, s, b, p, v));
    } else {
      hide BpStep;
      forall s' | BpStep(w, s, b, s')
        ensures s'.pages.faulted
      {
        StepMoves(w, s, b, s');
      }
    }
  }

  /** The thread is in a handler or in a slot. */
  predicate Trapping<R>(th: Thread<R>) {
    !th.mode.Running? || th.single.Some?
  }

  lemma CanGoOn<R(!new), D(!new)>(w: World<R, D>, s: State<R, D>, t: Tid)
    requires Sane(w) && Inv(w, s) && t in s.threads
    requires PlainPc(s, s.threads[t]) in w.text || Trapping(s.threads[t])
    requires !s.pages.faulted && (s.threads[t].mode.Found? ==> Storable(w, s, s.threads[t].mode.b))
    ensures ThreadCanStep(w, s, t) || (s.threads[t].mode.Found? && BpCanStep(w, s, s.threads[t].mode.b))
  {
    NearHolds(w, s, t);
    var th := s.threads[t];
    match th.mode
    case Running =>
      hide Core, GateOk, PairOk, FallsThrough, KeyOk;
      RunningGoesOn(w, s, t);
    case AtEntry =>
      hide Core, GateOk, Near;
      EntryGoesOn(w, s, t);
    case Trapped =>
      hide Core, GateOk, Near;
      TrappedGoesOn(w, s, t);
    case Found(b) =>
      assert Added(s, b) by { hide Core, GateOk, MemOk, BpOk, PairOk, FallsThrough, KeyOk; }
      hide Near;
      if !s.bps[b].phase.Ready? {
        hide GateOk;
        OperationGoesOn(w, s, b);
      } else {
        hide Inv;
        FoundGoesOn(w, s, t);
      }
  }

  lemma RunningGoesOn<R(!new), D(!new)>(w: World<R, D>, s: State<R, D>, t: Tid)
    requires Near(w, s, t) && s.threads[t].mode.Running?
    requires PlainPc(s, s.threads[t]) in w.text || s.threads[t].single.Some?
    ensures ThreadCanStep(w, s, t)
  {
    var th := s.threads[t];
    assert th.pc in s.mem by { hide PairOk, FallsThrough, KeyOk; }
    hide Near;
    if s.mem[th.pc] == BRK {
      ThreadSteps(w, s, t, Put(s, t, Caught(s, th)));
    } else {
      var p := w.exec(s.mem[th.pc], th.pc, th.regs, s.data);
      ThreadSteps(w, s, t, Put(s, t, th.(pc := p.0, regs := p.1)).(data := p.2));
    }
  }

  lemma EntryGoesOn<R(!new), D(!new)>(w: World<R, D>, s: State<R, D>, t: Tid)
    requires t in s.threads && s.threads[t].mode.AtEntry?
    ensures ThreadCanStep(w, s, t)
  {
    var th := s.threads[t];
    var s' :=
      if w.entry !in s.bps then s.(failed := true)
      else if s.hit then Put(s, t, th.(mode := Running, pc := w.entry + 4, single := None)).(handler := Sigtrap)
      else Put(s, t, th.(mode := Running, pc := s.bps[w.entry].slot, single := Some(w.entry))).(hit := true);
    assert EntryAct(w, s, t, s');
    ThreadSteps(w, s, t, s');
  }

  lemma TrappedGoesOn<R(!new), D(!new)>(w: World<R, D>, s: State<R, D>, t: Tid)
    requires t in s.threads && s.threads[t].mode.Trapped?
    ensures ThreadCanStep(w, s, t)
  {
    var th := s.threads[t];
    var s' := if th.pc in s.index then Put(s, t, th.(mode := Found(s.index[th.pc]))) else s.(failed := true);
    assert Lookup(s, t, s');
    ThreadSteps(w, s, t, s');
  }

  lemma FoundGoesOn<R(!new), D(!new)>(w: World<R, D>, s: State<R, D>, t: Tid)
    requires t in s.threads && s.threads[t].mode.Found?
    requires s.threads[t].mode.b in s.bps && s.bps[s.threads[t].mode.b].phase.Ready?
    ensures ThreadCanStep(w, s, t)
  {
    var th, b := s.threads[t], s.threads[t].mode.b;
    if th.single.None? {
      ThreadSteps(w, s, t, Put(s, t, th.(mode := Running, pc := s.bps[b].slot, single := Some(b))));
    } else if th.single.value != b {
      ThreadSteps(w, s, t, s.(failed := true));
    } else {
      ThreadSteps(w, s, t, Put(s, t, th.(mode := Running, pc := b + 4, single := None)));
    }
  }

  /** In every reachable state of a run in which every operation removes the protection only when it may, wherever
      the plain program could go on, the instrumented thread can step, or waits for an operation that can. */
  lemma NotStuck<R(!new), D(!new)>(w: World<R, D>, tr: seq<State<R, D>>, who: seq<Actor>, i: nat, t: Tid)
    requires Sane(w) && Run(w, tr, who) && Orderly(w, tr, who) && Sheltered(w, tr, who)
    requires i < |tr| && t in tr[i].threads
    requires PlainPc(tr[i], tr[i].threads[t]) in w.text || Trapping(tr[i].threads[t])
    ensures ThreadCanStep(w, tr[i], t) ||
      (tr[i].threads[t].mode.Found? && BpCanStep(w, tr[i], tr[i].threads[t].mode.b))
  {
    RunSafe(w, tr, who, i);
    NoFault(w, tr, who, i);
    hide Run, Sane, Inv;
    if tr[i].threads[t].mode.Found? && Stores(tr[i], tr[i].threads[t].mode.b) {
      assert WindowOk(w, tr[i], tr[i].threads[t].mode.b);
    }
    CanGoOn(w, tr[i], t);
  }
}
