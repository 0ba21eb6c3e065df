/** Concrete runs of the single-step protocol. */
module SteppingRuns {
  import opened Common
  import opened Stepping
  import opened SteppingPages
  import opened SteppingEffects

  // ---- what goes wrong while the entry-point handler is installed ----

  /** While one thread is in the slot of the entry breakpoint, any other thread that traps at an added breakpoint is
      sent behind the entry point without running anything; that goes unnoticed exactly if it was there already. */
  lemma SecondThreadMisled<R(!new), D(!new)>(w: World<R, D>, s: State<R, D>, t: Tid, s1: State<R, D>, s2: State<R, D>)
    requires Sane(w) && Inv(w, s) && s.handler.Entry? && s.hit && w.entry in s.bps
    requires Trap(s, t, s1) && s.threads[t].single.None? && EntryAct(w, s1, t, s2)
    ensures !OrderlyTrap(w, s, t)
    ensures s2.threads[t].pc == w.entry + 4 && s2.threads[t].regs == s.threads[t].regs && s2.data == s.data
    ensures Abs(s2) == Abs(s) <==> s.threads[t].pc == w.entry + 4
  {
    hide Core, Sane;
    var th := s2.threads[t];
    assert s2 == Put(s, t, th).(handler := s2.handler, hit := s2.hit);
    OneThreadMoves(s, t, th, s2);
  }

  // a program of two words, two threads at its entry point, and the breakpoint there

  function TwoWords(): World<nat, nat> {
    World(map[0x100 := 1, 0x104 := 2], a => a >= 0x1000, (i, pc, r, d) => (pc + 4, r, d + 1), 0x100,
          _ => 0, _ => 0)
  }

  function AtStart(): Thread<nat> {
    Thread(0x100, 0, Running, None)
  }

  function Begin(): State<nat, nat> {
    State(map[0x100 := 1, 0x104 := 2], 0, map[], map[], map[1 := AtStart(), 2 := AtStart()], Entry, false,
          Pages({}, false), false)
  }

  type Small = State<nat, nat>

  lemma TwoWordsSane()
    ensures Sane(TwoWords()) && Init(TwoWords(), Begin())
  {
  }

  /** The state once breakpoint `b` is added with a slot. */
  function Added1(s: Small, b: Addr, slot: Addr): Small
    requires b in s.mem
  {
    s.(mem := s.mem[slot := s.mem[b]][slot + 4 := BRK], index := s.index[b := b][slot + 4 := b],
       bps := s.bps[b := Bp(Ready, false, slot)])
  }

  predicate CanAdd(s: Small, b: Addr, slot: Addr) {
    && b in TwoWords().text && b !in s.index && b !in s.bps && b in s.mem && !s.pages.faulted
    && slot % 8 == 0 && slot >= 0x1000 && slot + 4 !in s.index && slot + 4 != b
    && forall c :: c in s.bps ==> s.bps[c].slot != slot
  }

  lemma CanAddIn(s: Small, b: Addr, slot: Addr)
    requires CanAdd(s, b, slot)
    ensures FallsThrough(TwoWords(), TwoWords().text[b]) && FreshSlot(TwoWords(), s, slot)
  {
  }

  /** The four steps of adding it. */
  lemma Adds(s: Small, b: Addr, slot: Addr) returns (s1: Small, s2: Small, s3: Small, s4: Small)
    requires CanAdd(s, b, slot)
    ensures Step(TwoWords(), s, OfBp(b), s1) && Step(TwoWords(), s1, OfBp(b), s2)
    ensures Step(TwoWords(), s2, OfBp(b), s3) && Step(TwoWords(), s3, OfBp(b), s4) && s4 == Added1(s, b, slot)
  {
    CanAddIn(s, b, slot);
    hide Step, TwoWords, FallsThrough, FreshSlot;
    s1, s2, s3, s4 := AddRuns(TwoWords(), s, b, slot);
  }

  /** An operation that enables `b`, before its store. */
  function Opening(s: Small, b: Addr): Small
    requires b in s.bps
  {
    s.(bps := s.bps[b := s.bps[b].(phase := ArmOpen, enabled := true)], pages := Pages(s.pages.open + {0}, false))
  }

  lemma Opens(s: Small, b: Addr) returns (s1: Small, s2: Small)
    requires b in s.bps && s.bps[b].phase.Ready? && !s.bps[b].enabled && !s.pages.faulted
    ensures Step(TwoWords(), s, OfBp(b), s1) && Step(TwoWords(), s1, OfBp(b), s2) && s2 == Opening(s, b)
    ensures s1 == PutBp(s, b, s.bps[b].(phase := Arming, enabled := true))
  {
    hide Step;
    s1, s2 := EnableOpens(TwoWords(), s, b);
  }

  /** And once it is done. */
  function Patched1(s: Small, b: Addr): Small
    requires b in s.bps
  {
    s.(mem := s.mem[b := BRK], bps := s.bps[b := s.bps[b].(phase := Ready)], pages := Pages(s.pages.open - {0}, false))
  }

  lemma Patches(s: Small, b: Addr) returns (s1: Small, s2: Small)
    requires b in s.bps && s.bps[b].phase.ArmOpen? && !s.pages.faulted && 0 in s.pages.open
    ensures Step(TwoWords(), s, OfBp(b), s1) && Step(TwoWords(), s1, OfBp(b), s2) && s2 == Patched1(s, b)
  {
    hide Step;
    s1, s2 := EnableStores(TwoWords(), s, b);
  }

  /** What holds once the entry breakpoint is added and enabled. */
  predicate EntrySet(s: Small) {
    && 0x100 in s.bps && s.bps[0x100] == Bp(Ready, true, 0x1000) && s.threads == Begin().threads
    && s.handler.Entry? && !s.hit && !s.pages.faulted && 0x100 in s.mem && s.mem[0x100] == BRK
    && 0x1000 in s.mem && s.mem[0x1000] == 1 && 0x1004 in s.mem && s.mem[0x1004] == BRK
  }

  lemma EntryFacts()
    ensures 0x100 in Begin().mem && CanAdd(Begin(), 0x100, 0x1000)
    ensures var a := Added1(Begin(), 0x100, 0x1000);
      0x100 in a.bps && a.bps[0x100] == Bp(Ready, false, 0x1000) && !a.pages.faulted
    ensures var o := Opening(Added1(Begin(), 0x100, 0x1000), 0x100);
      && 0x100 in o.bps && o.bps[0x100].phase.ArmOpen? && !o.pages.faulted && 0 in o.pages.open
      && EntrySet(Patched1(o, 0x100)) && Patched1(o, 0x100).data == Begin().data
  {
  }

  /** The entry breakpoint is added and enabled. */
  lemma SetsUp() returns (tr: seq<Small>)
    ensures |tr| == 9 && tr[0] == Begin() && EntrySet(tr[8]) && tr[8].data == tr[0].data
    ensures forall i :: 0 <= i < 8 ==> Step(TwoWords(), tr[i], OfBp(0x100), tr[i + 1])
  {
    hide Step, Added1, Opening, Patched1, EntrySet, Begin, CanAdd, TwoWords;
    var s := Begin();
    EntryFacts();
    var s1, s2, s3, s4 := Adds(s, 0x100, 0x1000);
    var s5, s6 := Opens(s4, 0x100);
    var s7, s8 := Patches(s6, 0x100);
    tr := [s, s1, s2, s3, s4, s5, s6, s7, s8];
  }

  /** Both threads trap: the first is sent into the slot, the second behind the breakpoint. */
  lemma BothTrap(s: Small) returns (s1: Small, s2: Small, s3: Small, s4: Small)
    requires EntrySet(s)
    ensures Step(TwoWords(), s, OfThread(1), s1) && Step(TwoWords(), s1, OfThread(1), s2)
    ensures Step(TwoWords(), s2, OfThread(2), s3) && Step(TwoWords(), s3, OfThread(2), s4)
    ensures 2 in s4.threads && s4.threads[2].pc == 0x104 && s4.data == s.data
  {
    var w, th := TwoWords(), AtStart();
    s1 := Put(s, 1, Caught(s, th));
    s2 := Put(s1, 1, s1.threads[1].(mode := Running, pc := 0x1000, single := Some(0x100))).(hit := true);
    s3 := Put(s2, 2, Caught(s2, th));
    s4 := Put(s3, 2, s3.threads[2].(mode := Running, pc := 0x104, single := None)).(handler := Sigtrap);
    hide Exec, Lookup, Act;
    assert Trap(s, 1, s1) && EntryAct(w, s1, 1, s2) && Trap(s2, 2, s3) && EntryAct(w, s3, 2, s4);
  }

  /** A run in which the second thread skips the instruction at the entry point. */
  lemma EntrySkipped() returns (tr: seq<Small>, who: seq<Actor>)
    ensures Sane(TwoWords()) && Run(TwoWords(), tr, who) && |who| == 12
    ensures 2 in tr[0].threads && tr[0].threads[2].pc == TwoWords().entry == 0x100
    ensures 2 in tr[12].threads && tr[12].threads[2].pc == 0x104 && tr[12].data == tr[0].data
  {
    TwoWordsSane();
    hide Step, Init, Sane, EntrySet;
    var up := SetsUp();
    var s1, s2, s3, s4 := BothTrap(up[8]);
    var b := OfBp(0x100);
    tr := up + [s1, s2, s3, s4];
    who := [b, b, b, b, b, b, b, b, OfThread(1), OfThread(1), OfThread(2), OfThread(2)];
  }

  /** A step of the first thread, and if it is a trap, one that the entry-point handler is made for. */
  ghost predicate OrderlyStepOf(s: Small, s': Small) {
    Step(TwoWords(), s, OfThread(1), s') && OrderlyStep(TwoWords(), s, OfThread(1), s')
  }

  /** The first thread is sent into the slot and runs the instruction there. */
  lemma StepsIn(s: Small) returns (s1: Small, s2: Small, s3: Small)
    requires EntrySet(s)
    ensures OrderlyStepOf(s, s1) && OrderlyStepOf(s1, s2) && OrderlyStepOf(s2, s3)
    ensures 1 in s3.threads && s3.threads[1] == Thread(0x1004, 0, Running, Some(0x100)) && s3.hit
    ensures forall u :: u in s3.threads && u != 1 ==> !s3.threads[u].mode.AtEntry?
    ensures s3.data == s.data + 1 && s3.handler.Entry? && s3.bps == s.bps && s3.mem == s.mem && s3.pages == s.pages
  {
    var w, th := TwoWords(), AtStart();
    s1 := Put(s, 1, Caught(s, th));
    var th2 := s1.threads[1].(mode := Running, pc := 0x1000, single := Some(0x100));
    s2 := Put(s1, 1, th2).(hit := true);
    var data: nat := s2.data + 1;
    s3 := Put(s2, 1, th2.(pc := 0x1004)).(data := data);
    hide Lookup, Act;
    assert Trap(s, 1, s1) && EntryAct(w, s1, 1, s2) && Exec(w, s2, 1, s3);
  }

  /** It traps behind the slot and is sent behind the breakpoint. */
  lemma StepsOut(s: Small) returns (s1: Small, s2: Small)
    requires 1 in s.threads && s.threads[1] == Thread(0x1004, 0, Running, Some(0x100)) && s.hit
    requires forall u :: u in s.threads && u != 1 ==> !s.threads[u].mode.AtEntry?
    requires s.handler.Entry? && 0x100 in s.bps && !s.pages.faulted && 0x1004 in s.mem && s.mem[0x1004] == BRK
    ensures OrderlyStepOf(s, s1) && OrderlyStepOf(s1, s2)
    ensures 1 in s2.threads && s2.threads[1].pc == 0x104 && s2.data == s.data && s2.handler.Sigtrap?
  {
    var w := TwoWords();
    s1 := Put(s, 1, Caught(s, s.threads[1]));
    s2 := Put(s1, 1, s1.threads[1].(mode := Running, pc := 0x104, single := None)).(handler := Sigtrap);
    hide Lookup, Act, Exec;
    assert Trap(s, 1, s1) && EntryAct(w, s1, 1, s2);
  }

  /** An orderly run in which a thread meets the entry breakpoint, runs its instruction once and goes on behind it. */
  lemma EntryStepped() returns (tr: seq<Small>, who: seq<Actor>)
    ensures Sane(TwoWords()) && Run(TwoWords(), tr, who) && |who| == 13 && Orderly(TwoWords(), tr, who)
    ensures 1 in tr[13].threads && tr[13].threads[1].pc == 0x104 && tr[13].data == tr[0].data + 1
    ensures tr[13].handler.Sigtrap?
  {
    TwoWordsSane();
    hide Step, Init, Sane, Trap, OrderlyTrap;
    var up := SetsUp();
    var s1, s2, s3 := StepsIn(up[8]);
    var s4, s5 := StepsOut(s3);
    hide EntrySet;
    var b, t := OfBp(0x100), OfThread(1);
    tr := up + [s1, s2, s3, s4, s5];
    who := [b, b, b, b, b, b, b, b, t, t, t, t, t];
  }

  // ---- what goes wrong between operations on one object ----

  predicate TwoReady(s: Small) {
    && 0x100 in s.bps && s.bps[0x100] == Bp(Ready, false, 0x1000)
    && 0x104 in s.bps && s.bps[0x104] == Bp(Ready, false, 0x1008) && !s.pages.faulted
  }

  lemma TwoFacts()
    ensures 0x100 in Begin().mem && CanAdd(Begin(), 0x100, 0x1000)
    ensures var a := Added1(Begin(), 0x100, 0x1000);
      0x104 in a.mem && CanAdd(a, 0x104, 0x1008) && TwoReady(Added1(a, 0x104, 0x1008))
  {
  }

  /** Two breakpoints of the same object are added. */
  lemma TwoAdded() returns (tr: seq<Small>, who: seq<Actor>)
    ensures |tr| == 9 && |who| == 8 && tr[0] == Begin() && TwoReady(tr[8])
    ensures forall i :: 0 <= i < 8 ==> Step(TwoWords(), tr[i], who[i], tr[i + 1])
  {
    hide Step, Added1, TwoReady, Begin, CanAdd, TwoWords;
    var s := Begin();
    TwoFacts();
    var s1, s2, s3, s4 := Adds(s, 0x100, 0x1000);
    var s5, s6, s7, s8 := Adds(s4, 0x104, 0x1008);
    var a, b := OfBp(0x100), OfBp(0x104);
    tr, who := [s, s1, s2, s3, s4, s5, s6, s7, s8], [a, a, a, a, b, b, b, b];
  }

  /** The operation on the first makes the object writable, and so does the one on the second. */
  lemma BothOpen(s: Small) returns (s1: Small, s2: Small, s3: Small, s4: Small)
    requires TwoReady(s)
    ensures Step(TwoWords(), s, OfBp(0x100), s1) && Step(TwoWords(), s1, OfBp(0x100), s2)
    ensures Step(TwoWords(), s2, OfBp(0x104), s3) && Step(TwoWords(), s3, OfBp(0x104), s4)
    ensures Unlocks(s3, 0x104) && 0x100 in s3.bps && InWindow(s3, 0x100)
    ensures 0x100 in s4.bps && s4.bps[0x100].phase.ArmOpen? && 0x104 in s4.bps && s4.bps[0x104].phase.ArmOpen?
    ensures s4.pages == Pages(s4.pages.open, false) && 0 in s4.pages.open
  {
    hide Step;
    s1, s2 := Opens(s, 0x100);
    s3, s4 := Opens(s2, 0x104);
  }

  /** The second stores and makes the object read-only again; the store of the first faults. */
  lemma OneUndoesTheOther(s: Small) returns (s1: Small, s2: Small, s3: Small)
    requires 0x100 in s.bps && s.bps[0x100].phase.ArmOpen? && 0x104 in s.bps && s.bps[0x104].phase.ArmOpen?
    requires s.pages == Pages(s.pages.open, false) && 0 in s.pages.open
    ensures Step(TwoWords(), s, OfBp(0x104), s1) && Step(TwoWords(), s1, OfBp(0x104), s2)
    ensures Step(TwoWords(), s2, OfBp(0x100), s3) && Stores(s2, 0x100) && s3.pages.faulted
  {
    s1, s2 := Patches(s, 0x104);
    hide Step;
    s3 := FaultsNow(s2);
  }

  lemma FaultsNow(s: Small) returns (s': Small)
    requires 0x100 in s.bps && s.bps[0x100].phase.ArmOpen? && !s.pages.faulted && 0 !in s.pages.open
    ensures Step(TwoWords(), s, OfBp(0x100), s') && s'.pages.faulted
  {
    var w := TwoWords();
    s' := Stored(w, s, 0x100, s.bps[0x100].(phase := Armed), BRK);
    assert Enable(w, s, 0x100, s');
  }

  /** A run in which enabling a breakpoint faults because another one of the same object was enabled meanwhile. */
  lemma StoreFaulted() returns (tr: seq<Small>, who: seq<Actor>)
    ensures Sane(TwoWords()) && Run(TwoWords(), tr, who) && |who| == 15
    ensures who[14] == OfBp(0x100) && Stores(tr[14], 0x100) && tr[15].pages.faulted
    ensures who[11] == OfBp(0x104) && Unlocks(tr[11], 0x104) && !MayUnlock(TwoWords(), tr[11], 0x104)
  {
    TwoWordsSane();
    hide Step, Init, Sane, Unlocks, Stores, InWindow, TwoReady;
    var up, a := TwoAdded();
    var s1, s2, s3, s4 := BothOpen(up[8]);
    var s5, s6, s7 := OneUndoesTheOther(s4);
    var b, c := OfBp(0x100), OfBp(0x104);
    tr := up + [s1, s2, s3, s4, s5, s6, s7];
    who := a + [b, b, c, c, c, c, b];
    assert tr[11] == s3;
  }
}
