/** How often threads trap: exactly twice for each instruction run in a slot, counted over whole runs. */
module SteppingTraps {
  import opened Common
  import opened Stepping
  import C = SteppingSlots
  import A = SlotsConcurrent

  /** Thread `t` is at the start of the slot that it was sent to. */
  predicate AtSlot<R, D>(s: State<R, D>, t: Tid) {
    && t in s.threads && s.threads[t].single.Some? && s.threads[t].single.value in s.bps
    && s.threads[t].pc == s.bps[s.threads[t].single.value].slot
  }

  /** Traps of the visit that is under way, less the two that its instruction stands for once it has run. */
  function UnderWay<R, D>(s: State<R, D>, t: Tid): int
    requires t in s.threads
  {
    var th := s.threads[t];
    if th.single.None? then (if th.mode.Running? then 0 else 1)
    else if AtSlot(s, t) then 1
    else if th.mode.Running? then -1 else 0
  }

  /** The step is a trap of `t`. */
  ghost predicate Traps<R, D>(s: State<R, D>, who: Actor, s': State<R, D>, t: Tid) {
    who == OfThread(t) && Trap(s, t, s')
  }

  /** The step runs an instruction in `t`. */
  ghost predicate Runs<R, D>(w: World<R, D>, s: State<R, D>, who: Actor, s': State<R, D>, t: Tid) {
    who == OfThread(t) && Exec(w, s, t, s')
  }

  // ---- one step ----

  /** What a step adds to the visit under way is its trap, less two for an instruction run in a slot. */
  ghost predicate Balanced<R, D>(w: World<R, D>, s: State<R, D>, who: Actor, s': State<R, D>, t: Tid) {
    && t in s.threads && t in s'.threads
    && UnderWay(s', t) == UnderWay(s, t) + (if Traps(s, who, s', t) then 1 else 0)
         - if Runs(w, s, who, s', t) && AtSlot(s, t) then 2 else 0
  }

  lemma ExecBalanced<R(!new), D(!new)>(w: World<R, D>, s: State<R, D>, t: Tid, s': State<R, D>)
    requires Near(w, s, t) && Exec(w, s, t, s')
    ensures Balanced(w, s, OfThread(t), s', t)
  {
    hide KeyOk, PairOk;
  }

  lemma TrapBalanced<R(!new), D(!new)>(w: World<R, D>, s: State<R, D>, t: Tid, s': State<R, D>)
    requires Near(w, s, t) && Trap(s, t, s')
    ensures Balanced(w, s, OfThread(t), s', t)
  {
    hide KeyOk, PairOk, FallsThrough;
  }

  lemma EntryBalanced<R(!new), D(!new)>(w: World<R, D>, s: State<R, D>, t: Tid, s': State<R, D>)
    requires Near(w, s, t) && EntryAct(w, s, t, s') && EntryRight(w, s, s.threads[t])
    ensures Balanced(w, s, OfThread(t), s', t)
  {
    hide KeyOk, PairOk, FallsThrough, Sane;
  }

  lemma HandlerBalanced<R(!new), D(!new)>(w: World<R, D>, s: State<R, D>, t: Tid, s': State<R, D>)
    requires Near(w, s, t) && (Lookup(s, t, s') || Act(s, t, s')) && !s'.failed
    ensures Balanced(w, s, OfThread(t), s', t)
  {
    hide KeyOk, PairOk, FallsThrough, Sane;
  }

  lemma ThreadBalanced<R(!new), D(!new)>(w: World<R, D>, s: State<R, D>, t: Tid, s': State<R, D>)
    requires Sane(w) && Inv(w, s) && ThreadStep(w, s, t, s') && !s'.failed
    ensures Balanced(w, s, OfThread(t), s', t)
  {
    OnlyThisThread(w, s, t, s');
    NearHolds(w, s, t);
    GateRight(w, s, t, s');
    hide Sane, Inv, Near, Exec, Trap, EntryAct, Lookup, Act, Balanced, EntryRight;
    if
    case Exec(w, s, t, s') => ExecBalanced(w, s, t, s');
    case Trap(s, t, s') => TrapBalanced(w, s, t, s');
    case EntryAct(w, s, t, s') => EntryBalanced(w, s, t, s');
    case Lookup(s, t, s') || Act(s, t, s') => HandlerBalanced(w, s, t, s');
  }

  /** What is under way depends on the thread and on the slot it is in. */
  lemma SameVisit<R, D>(s: State<R, D>, s': State<R, D>, t: Tid)
    requires t in s.threads && t in s'.threads && s'.threads[t] == s.threads[t]
    requires s.threads[t].single.Some? ==>
      && s.threads[t].single.value in s.bps && s.threads[t].single.value in s'.bps
      && s'.bps[s.threads[t].single.value].slot == s.bps[s.threads[t].single.value].slot
    ensures UnderWay(s', t) == UnderWay(s, t)
  {
  }

  /** Steps of other threads and of operations leave the visit of `t` alone. */
  lemma OthersBalanced<R(!new), D(!new)>(w: World<R, D>, s: State<R, D>, who: Actor, s': State<R, D>, t: Tid)
    requires Inv(w, s) && Step(w, s, who, s') && who != OfThread(t) && t in s.threads
    ensures Balanced(w, s, who, s', t)
  {
    assert ThreadOk(w, s, t);
    hide Inv, ThreadStep, BpStep, UnderWay;
    match who
    case OfThread(u) =>
      OnlyThisThread(w, s, u, s');
      SameVisit(s, s', t);
    case OfBp(b) =>
      OnlyThisBp(w, s, b, s');
      SameVisit(s, s', t);
  }

  lemma StepBalanced<R(!new), D(!new)>(w: World<R, D>, s: State<R, D>, who: Actor, s': State<R, D>, t: Tid)
    requires Sane(w) && Inv(w, s) && Step(w, s, who, s') && OrderlyStep(w, s, who, s') && t in s.threads
    ensures Balanced(w, s, who, s', t)
  {
    StepInv(w, s, who, s');
    if who == OfThread(t) {
      hide Sane, Balanced;
      assert !s'.failed;
      hide Inv;
      ThreadBalanced(w, s, t, s');
    } else {
      hide Sane, Balanced, Inv, Step;
      OthersBalanced(w, s, who, s', t);
    }
  }

  // ---- runs ----

  /** In how many of the first `n` steps `t` traps. */
  ghost function TrapCount<R, D>(tr: seq<State<R, D>>, who: seq<Actor>, n: nat, t: Tid): nat
    requires |tr| == |who| + 1 && n <= |who|
  {
    if n == 0 then 0
    else TrapCount(tr, who, n - 1, t) + if Traps(tr[n - 1], who[n - 1], tr[n], t) then 1 else 0
  }

  /** In how many it runs an instruction. */
  ghost function RunCount<R, D>(w: World<R, D>, tr: seq<State<R, D>>, who: seq<Actor>, n: nat, t: Tid): nat
    requires |tr| == |who| + 1 && n <= |who|
  {
    if n == 0 then 0
    else RunCount(w, tr, who, n - 1, t) + if Runs(w, tr[n - 1], who[n - 1], tr[n], t) then 1 else 0
  }

  /** In how many it does so in a slot. */
  ghost function SlotCount<R, D>(w: World<R, D>, tr: seq<State<R, D>>, who: seq<Actor>, n: nat, t: Tid): nat
    requires |tr| == |who| + 1 && n <= |who|
  {
    if n == 0 then 0
    else
      var here := Runs(w, tr[n - 1], who[n - 1], tr[n], t) && AtSlot(tr[n - 1], t);
      SlotCount(w, tr, who, n - 1, t) + if here then 1 else 0
  }

  lemma {:induction false} TrapsBalance<R(!new), D(!new)>(
    w: World<R, D>, tr: seq<State<R, D>>, who: seq<Actor>, i: nat, t: Tid)
    requires Sane(w) && Run(w, tr, who) && Orderly(w, tr, who) && i < |tr| && t in tr[0].threads
    ensures t in tr[i].threads
    ensures TrapCount(tr, who, i, t) == 2 * SlotCount(w, tr, who, i, t) + UnderWay(tr[i], t)
  {
    hide Sane, Step, OrderlyStep, Inv, UnderWay, Traps, Runs, AtSlot, Init;
    if i == 0 {
      StartsClear(w, tr[0], t);
    } else {
      var n := i - 1;
      TrapsBalance(w, tr, who, n, t);
      RunSafe(w, tr, who, n);
      assert Step(w, tr[n], who[n], tr[i]) && OrderlyStep(w, tr[n], who[n], tr[i]);
      StepBalanced(w, tr[n], who[n], tr[i], t);
    }
  }

  lemma StartsClear<R, D>(w: World<R, D>, s: State<R, D>, t: Tid)
    requires Init(w, s) && t in s.threads
    ensures UnderWay(s, t) == 0
  {
  }

  /** In every orderly run, at any time, a thread has trapped exactly twice for each instruction that it ran in a slot,
      plus one or less one for the visit under way, and so at most twice for each instruction it ran, plus one. */
  lemma TrapsExactly<R(!new), D(!new)>(
    w: World<R, D>, tr: seq<State<R, D>>, who: seq<Actor>, i: nat, t: Tid)
    requires Sane(w) && Run(w, tr, who) && Orderly(w, tr, who) && i < |tr| && t in tr[0].threads
    ensures var traps, slotted := TrapCount(tr, who, i, t), SlotCount(w, tr, who, i, t);
      && 2 * slotted - 1 <= traps <= 2 * slotted + 1 && traps <= 2 * RunCount(w, tr, who, i, t) + 1
      && t in tr[i].threads
      && (tr[i].threads[t].single.None? && tr[i].threads[t].mode.Running? ==> traps == 2 * slotted)
  {
    hide Sane, Step, OrderlyStep, Runs, Traps, AtSlot;
    TrapsBalance(w, tr, who, i, t);
    SlottedRuns(w, tr, who, i, t);
  }

  lemma {:induction false} SlottedRuns<R, D>(w: World<R, D>, tr: seq<State<R, D>>, who: seq<Actor>, n: nat, t: Tid)
    requires |tr| == |who| + 1 && n <= |who|
    ensures SlotCount(w, tr, who, n, t) <= RunCount(w, tr, who, n, t)
  {
    if n == 0 {
    } else {
      SlottedRuns(w, tr, who, n - 1, t);
    }
  }

  // ---- with slots from the concurrent allocator ----

  /** In how many of the first `n` steps of a combined run `t` traps. */
  ghost function EngineTraps<R, D>(tr: seq<C.State<R, D>>, who: seq<C.Actor>, n: nat, t: Tid): nat
    requires |tr| == |who| + 1 && n <= |who|
  {
    if n == 0 then 0
    else EngineTraps(tr, who, n - 1, t) + if EngineTrap(tr[n - 1], who[n - 1], tr[n], t) then 1 else 0
  }

  /** In how many it runs an instruction in a slot. */
  ghost function EngineSlots<R, D>(w: World<R, D>, tr: seq<C.State<R, D>>, who: seq<C.Actor>, n: nat, t: Tid): nat
    requires |tr| == |who| + 1 && n <= |who|
  {
    if n == 0 then 0
    else EngineSlots(w, tr, who, n - 1, t) + if EngineSlot(w, tr[n - 1], who[n - 1], tr[n], t) then 1 else 0
  }

  ghost predicate EngineTrap<R, D>(c: C.State<R, D>, who: C.Actor, c': C.State<R, D>, t: Tid) {
    who.Engine? && Traps(c.s, who.who, c'.s, t)
  }

  ghost predicate EngineSlot<R, D>(w: World<R, D>, c: C.State<R, D>, who: C.Actor, c': C.State<R, D>, t: Tid) {
    who.Engine? && Runs(w, c.s, who.who, c'.s, t) && AtSlot(c.s, t)
  }

  /** Steps in the allocator are no traps, and its return is a step of an operation. */
  lemma EngineBalanced<R(!new), D(!new)>(
    w: World<R, D>, base: A.PageId -> Addr, c: C.State<R, D>, who: C.Actor, c': C.State<R, D>, t: Tid)
    requires Sane(w) && C.Mapped(w, base) && C.Inv(w, base, c) && t in c.s.threads
    requires C.Step(w, base, c, who, c') && C.OrderlyStep(w, c, who, c')
    ensures t in c'.s.threads
    ensures UnderWay(c'.s, t) == UnderWay(c.s, t) + (if EngineTrap(c, who, c', t) then 1 else 0)
      - if EngineSlot(w, c, who, c', t) then 2 else 0
  {
    assert Inv(w, c.s) by { hide C.Step, C.Mapped, Sane, A.Inv, C.CallsOk, Inv; }
    hide C.Inv, C.Step, C.Mapped, C.OrderlyStep, Sane, Inv, UnderWay, Step, OrderlyStep;
    var e := C.StepProjects(w, base, c, who, c');
    if e.Some? {
      StepBalanced(w, c.s, e.value, c'.s, t);
    }
  }

  /** The same count for runs of the protocol and the allocator together. */
  lemma {:induction false} EngineTrapsExactly<R(!new), D(!new)>(
    w: World<R, D>, base: A.PageId -> Addr, tr: seq<C.State<R, D>>, who: seq<C.Actor>, i: nat, t: Tid)
    requires Sane(w) && C.Mapped(w, base) && C.Run(w, base, tr, who) && i < |tr| && t in tr[0].s.threads
    ensures t in tr[i].s.threads
    ensures EngineTraps(tr, who, i, t) == 2 * EngineSlots(w, tr, who, i, t) + UnderWay(tr[i].s, t)
  {
    hide Sane, C.Mapped, C.Step, C.OrderlyStep, C.Inv, UnderWay, EngineTrap, EngineSlot, Init;
    if i == 0 {
      StartsClear(w, tr[0].s, t);
    } else {
      var n := i - 1;
      EngineTrapsExactly(w, base, tr, who, n, t);
      var _, _ := C.RunProjects(w, base, tr, who, n);
      assert C.Step(w, base, tr[n], who[n], tr[i]) && C.OrderlyStep(w, tr[n], who[n], tr[i]);
      EngineBalanced(w, base, tr[n], who[n], tr[i], t);
    }
  }
}
