/** What operations on breakpoints achieve while threads run: which breakpoints are enabled is told by the operations
    alone, and from every reachable state an operation left to itself runs through and does what it is for. */
module SteppingEffects {
  import opened Common
  import opened Stepping
  import opened SteppingPages

  // ---- told by the operations ----

  /** Step `k` of a run is where breakpoint_enable, with the lock in hand, finds `b` disabled. */
  ghost predicate EnablesAt<R, D>(w: World<R, D>, tr: seq<State<R, D>>, who: seq<Actor>, k: int, b: Addr)
    requires |tr| == |who| + 1 && 0 <= k < |who|
  {
    who[k] == OfBp(b) && b in tr[k].bps && tr[k].bps[b].phase.Ready? && Enable(w, tr[k], b, tr[k + 1])
  }

  /** Where breakpoint_disable finds it enabled. */
  ghost predicate DisablesAt<R, D>(w: World<R, D>, tr: seq<State<R, D>>, who: seq<Actor>, k: int, b: Addr)
    requires |tr| == |who| + 1 && 0 <= k < |who|
  {
    who[k] == OfBp(b) && b in tr[k].bps && tr[k].bps[b].phase.Ready? && Disable(w, tr[k], b, tr[k + 1])
  }

  /** The last operation on `b` that began among the first `i` steps enables it. */
  ghost predicate LastEnables<R, D>(w: World<R, D>, tr: seq<State<R, D>>, who: seq<Actor>, i: nat, b: Addr)
    requires |tr| == |who| + 1 && i <= |who|
  {
    exists k :: 0 <= k < i && EnablesAt(w, tr, who, k, b) && forall m :: k < m < i ==> !DisablesAt(w, tr, who, m, b)
  }

  predicate Enabled<R, D>(s: State<R, D>, b: Addr) {
    b in s.bps && s.bps[b].enabled
  }

  lemma LastEnablesNext<R, D>(w: World<R, D>, tr: seq<State<R, D>>, who: seq<Actor>, i: nat, b: Addr)
    requires |tr| == |who| + 1 && i < |who| && !(EnablesAt(w, tr, who, i, b) && DisablesAt(w, tr, who, i, b))
    ensures LastEnables(w, tr, who, i + 1, b) <==>
      EnablesAt(w, tr, who, i, b) || (LastEnables(w, tr, who, i, b) && !DisablesAt(w, tr, who, i, b))
  {
    hide EnablesAt, DisablesAt;
    if LastEnables(w, tr, who, i, b) && !DisablesAt(w, tr, who, i, b) {
      var k :| 0 <= k < i && EnablesAt(w, tr, who, k, b) && forall m :: k < m < i ==> !DisablesAt(w, tr, who, m, b);
      assert forall m :: k < m < i + 1 ==> !DisablesAt(w, tr, who, m, b);
    }
    if LastEnables(w, tr, who, i + 1, b) && !EnablesAt(w, tr, who, i, b) {
      var k :| 0 <= k < i + 1 && EnablesAt(w, tr, who, k, b) &&
        forall m :: k < m < i + 1 ==> !DisablesAt(w, tr, who, m, b);
      assert forall m :: k < m < i ==> !DisablesAt(w, tr, who, m, b);
    }
  }

  /** How a step on `b` changes its flag. */
  ghost predicate Flagged<R, D>(w: World<R, D>, s: State<R, D>, b: Addr, s': State<R, D>) {
    var ready := b in s.bps && s.bps[b].phase.Ready?;
    && !(ready && Enable(w, s, b, s') && Disable(w, s, b, s'))
    && (Enabled(s', b) <==>
          (ready && Enable(w, s, b, s')) || (Enabled(s, b) && !(ready && Disable(w, s, b, s'))))
  }

  lemma AddFlags<R(!new), D(!new)>(w: World<R, D>, s: State<R, D>, b: Addr, s': State<R, D>)
    requires AddEnter(w, s, b, s') || AddSlot(w, s, b, s') || AddCopy(s, b, s')
    requires b in s.bps ==> BpOk(w, s, b)
    ensures Flagged(w, s, b, s')
  {
    hide FallsThrough, FreshSlot;
  }

  lemma ReturnFlags<R(!new), D(!new)>(w: World<R, D>, s: State<R, D>, b: Addr, s': State<R, D>)
    requires AddReturn(s, b, s')
    ensures Flagged(w, s, b, s')
  {
  }

  /** A store changes no flag, whether it faults or not. */
  lemma StoredFlag<R, D>(w: World<R, D>, s: State<R, D>, b: Addr, p: Bp, v: Word)
    requires b in s.bps && p.enabled == s.bps[b].enabled
    ensures var s' := Stored(w, s, b, p, v); b in s'.bps && s'.bps[b].enabled == p.enabled
  {
    if w.home(b) in s.pages.open {
      assert Stored(w, s, b, p, v).bps == s.bps[b := p];
    } else {
      assert Stored(w, s, b, p, v).bps == s.bps;
    }
  }

  /** An operation sets its flag first and keeps it. */
  lemma FlagSet<R, D>(w: World<R, D>, s: State<R, D>, b: Addr, s': State<R, D>)
    requires b in s.bps && FlagOk(s.bps[b])
    ensures Enable(w, s, b, s') ==> Enabled(s', b) && (s.bps[b].enabled <==> !s.bps[b].phase.Ready?)
  {
    hide Stored;
    StoredFlag(w, s, b, s.bps[b].(phase := Armed), BRK);
  }

  lemma FlagCleared<R, D>(w: World<R, D>, s: State<R, D>, b: Addr, s': State<R, D>)
    requires b in s.bps && FlagOk(s.bps[b])
    ensures Disable(w, s, b, s') ==> !Enabled(s', b) && (s.bps[b].enabled <==> s.bps[b].phase.Ready?)
  {
  }

  lemma PatchFlags<R, D>(w: World<R, D>, s: State<R, D>, b: Addr, s': State<R, D>)
    requires b in s.bps && FlagOk(s.bps[b]) && (Enable(w, s, b, s') || Disable(w, s, b, s'))
    ensures Flagged(w, s, b, s')
  {
    hide Enable, Disable, FlagOk;
    FlagSet(w, s, b, s');
    FlagCleared(w, s, b, s');
  }

  lemma BpFlags<R(!new), D(!new)>(w: World<R, D>, s: State<R, D>, b: Addr, s': State<R, D>)
    requires Core(w, s) && BpStep(w, s, b, s')
    ensures Flagged(w, s, b, s')
  {
    assert b in s.bps ==> BpOk(w, s, b);
    hide Core, Flagged, AddEnter, AddSlot, AddCopy, AddReturn, Enable, Disable, FallsThrough;
    if
    case AddEnter(w, s, b, s') || AddSlot(w, s, b, s') || AddCopy(s, b, s') => AddFlags(w, s, b, s');
    case AddReturn(s, b, s') => ReturnFlags(w, s, b, s');
    case Enable(w, s, b, s') || Disable(w, s, b, s') =>
      assert b in s.bps by { Known(w, s, b, s'); }
      PatchFlags(w, s, b, s');
  }

  lemma Known<R, D>(w: World<R, D>, s: State<R, D>, b: Addr, s': State<R, D>)
    requires Enable(w, s, b, s') || Disable(w, s, b, s')
    ensures b in s.bps
  {
  }

  lemma StepFlags<R(!new), D(!new)>(w: World<R, D>, tr: seq<State<R, D>>, who: seq<Actor>, i: nat, b: Addr)
    requires |tr| == |who| + 1 && i < |who| && Core(w, tr[i]) && Step(w, tr[i], who[i], tr[i + 1])
    ensures !(EnablesAt(w, tr, who, i, b) && DisablesAt(w, tr, who, i, b))
    ensures Enabled(tr[i + 1], b) <==>
      EnablesAt(w, tr, who, i, b) || (Enabled(tr[i], b) && !DisablesAt(w, tr, who, i, b))
  {
    hide Core, ThreadStep, BpStep, Enable, Disable;
    match who[i]
    case OfThread(t) => OnlyThisThread(w, tr[i], t, tr[i + 1]);
    case OfBp(c) =>
      if c == b {
        BpFlags(w, tr[i], b, tr[i + 1]);
      } else {
        OnlyThisBp(w, tr[i], c, tr[i + 1]);
      }
  }

  /** In every reachable state a breakpoint is enabled exactly if the last operation begun on it enables it. */
  lemma {:induction false} EnabledByHistory<R(!new), D(!new)>(
    w: World<R, D>, tr: seq<State<R, D>>, who: seq<Actor>, i: nat, b: Addr)
    requires Sane(w) && Run(w, tr, who) && Orderly(w, tr, who) && i < |tr|
    ensures Enabled(tr[i], b) <==> LastEnables(w, tr, who, i, b)
  {
    hide Sane, Step, OrderlyStep, Core, LastEnables, EnablesAt, DisablesAt;
    if i == 0 {
      assert tr[0].bps == map[];
      NoneBegun(w, tr, who, b);
    } else {
      hide Init;
      EnabledByHistory(w, tr, who, i - 1, b);
      RunSafe(w, tr, who, i - 1);
      assert Step(w, tr[i - 1], who[i - 1], tr[i]);
      hide Run, Orderly;
      StepFlags(w, tr, who, i - 1, b);
      LastEnablesNext(w, tr, who, i - 1, b);
    }
  }

  lemma NoneBegun<R, D>(w: World<R, D>, tr: seq<State<R, D>>, who: seq<Actor>, b: Addr)
    requires |tr| == |who| + 1
    ensures !LastEnables(w, tr, who, 0, b)
  {
  }

  /** So at rest a text word is brk exactly if the last operation begun on a breakpoint there enabled it. */
  lemma TextByHistory<R(!new), D(!new)>(w: World<R, D>, tr: seq<State<R, D>>, who: seq<Actor>, i: nat, a: Addr)
    requires Sane(w) && Run(w, tr, who) && Orderly(w, tr, who) && i < |tr|
    requires a in w.text && (a in tr[i].bps ==> tr[i].bps[a].phase.Ready?)
    ensures a in tr[i].mem && tr[i].mem[a] == if LastEnables(w, tr, who, i, a) then 0xD420_0060 else w.text[a]
  {
    hide Sane, Run, Orderly, LastEnables;
    QuietText(w, tr, who, i, a);
    EnabledByHistory(w, tr, who, i, a);
  }

  // ---- left to itself ----

  /** Four steps of the operation on `b`, none of which faults. */
  ghost predicate RunsThrough<R(!new), D(!new)>(w: World<R, D>, ss: seq<State<R, D>>, b: Addr) {
    |ss| == 5 && !ss[4].pages.faulted && forall i :: 0 <= i < 4 ==> Step(w, ss[i], OfBp(b), ss[i + 1])
  }

  /** Two steps of an operation that do not fault. */
  ghost predicate TwoSteps<R(!new), D(!new)>(
    w: World<R, D>, s: State<R, D>, s1: State<R, D>, s2: State<R, D>, b: Addr)
  {
    && Step(w, s, OfBp(b), s1) && Step(w, s1, OfBp(b), s2) && !s2.pages.faulted
  }

  lemma FourSteps<R(!new), D(!new)>(
    w: World<R, D>, s: State<R, D>, s1: State<R, D>, s2: State<R, D>, s3: State<R, D>, s4: State<R, D>, b: Addr)
    requires TwoSteps(w, s, s1, s2, b) && TwoSteps(w, s2, s3, s4, b)
    ensures RunsThrough(w, [s, s1, s2, s3, s4], b)
  {
    hide Step;
  }

  /** The flag is set and the protection removed. */
  lemma EnableOpens<R(!new), D(!new)>(w: World<R, D>, s: State<R, D>, b: Addr)
    returns (s1: State<R, D>, s2: State<R, D>)
    requires !s.pages.faulted && b in s.bps && s.bps[b].phase.Ready? && !s.bps[b].enabled
    ensures TwoSteps(w, s, s1, s2, b) && s1 == PutBp(s, b, s.bps[b].(phase := Arming, enabled := true))
    ensures s2 == s.(bps := s.bps[b := s.bps[b].(phase := ArmOpen, enabled := true)],
                     pages := s.pages.(open := s.pages.open + {w.found(b)}))
  {
    s1 := PutBp(s, b, s.bps[b].(phase := Arming, enabled := true));
    s2 := Opened(w, PutBp(s1, b, s1.bps[b].(phase := ArmOpen)), b);
    assert Enable(w, s, b, s1) && Enable(w, s1, b, s2);
    hide AddEnter, AddSlot, AddCopy, AddReturn, Enable, Disable;
    assert s2.bps == s.bps[b := s.bps[b].(phase := ArmOpen, enabled := true)];
  }

  lemma DisableOpens<R(!new), D(!new)>(w: World<R, D>, s: State<R, D>, b: Addr)
    returns (s1: State<R, D>, s2: State<R, D>)
    requires !s.pages.faulted && b in s.bps && s.bps[b].phase.Ready? && s.bps[b].enabled
    ensures TwoSteps(w, s, s1, s2, b)
    ensures s2 == s.(bps := s.bps[b := s.bps[b].(phase := DisarmOpen, enabled := false)],
                     pages := s.pages.(open := s.pages.open + {w.found(b)}))
  {
    s1 := PutBp(s, b, s.bps[b].(phase := Disarming, enabled := false));
    s2 := Opened(w, PutBp(s1, b, s1.bps[b].(phase := DisarmOpen)), b);
    assert Disable(w, s, b, s1) && Disable(w, s1, b, s2);
    hide AddEnter, AddSlot, AddCopy, AddReturn, Enable, Disable;
    assert s2.bps == s.bps[b := s.bps[b].(phase := DisarmOpen, enabled := false)];
  }

  /** The word is stored and the protection put back. */
  lemma EnableStores<R(!new), D(!new)>(w: World<R, D>, s: State<R, D>, b: Addr)
    returns (s1: State<R, D>, s2: State<R, D>)
    requires !s.pages.faulted && b in s.bps && s.bps[b].phase.ArmOpen? && w.home(b) in s.pages.open
    ensures TwoSteps(w, s, s1, s2, b)
    ensures s2 == s.(mem := s.mem[b := BRK], bps := s.bps[b := s.bps[b].(phase := Ready)],
                     pages := s.pages.(open := s.pages.open - {w.found(b)}))
  {
    s1 := Stored(w, s, b, s.bps[b].(phase := Armed), BRK);
    s2 := Shut(w, PutBp(s1, b, s1.bps[b].(phase := Ready)), b);
    assert Enable(w, s, b, s1) && Enable(w, s1, b, s2);
    hide AddEnter, AddSlot, AddCopy, AddReturn, Enable, Disable;
    assert s2.bps == s.bps[b := s.bps[b].(phase := Ready)];
  }

  lemma DisableStores<R(!new), D(!new)>(w: World<R, D>, s: State<R, D>, b: Addr)
    returns (s1: State<R, D>, s2: State<R, D>)
    requires !s.pages.faulted && b in s.bps && s.bps[b].phase.DisarmOpen? && w.home(b) in s.pages.open
    requires s.bps[b].slot in s.mem
    ensures TwoSteps(w, s, s1, s2, b)
    ensures s2 == s.(mem := s.mem[b := s.mem[s.bps[b].slot]], bps := s.bps[b := s.bps[b].(phase := Ready)],
                     pages := s.pages.(open := s.pages.open - {w.found(b)}))
  {
    s1 := Stored(w, s, b, s.bps[b].(phase := Disarmed), s.mem[s.bps[b].slot]);
    s2 := Shut(w, PutBp(s1, b, s1.bps[b].(phase := Ready)), b);
    assert Disable(w, s, b, s1) && Disable(w, s1, b, s2);
    hide AddEnter, AddSlot, AddCopy, AddReturn, Enable, Disable;
    assert s2.bps == s.bps[b := s.bps[b].(phase := Ready)];
  }

  /** Enabling a disabled breakpoint below the end of its text range puts brk there. */
  lemma EnableWorks<R(!new), D(!new)>(w: World<R, D>, s: State<R, D>, b: Addr) returns (ss: seq<State<R, D>>)
    requires !s.pages.faulted && b in s.bps && s.bps[b].phase.Ready? && !s.bps[b].enabled && w.found(b) == w.home(b)
    ensures RunsThrough(w, ss, b) && ss[0] == s
    ensures ss[4] == s.(mem := s.mem[b := 0xD420_0060], bps := s.bps[b := s.bps[b].(enabled := true)],
                        pages := Pages(s.pages.open - {w.found(b)}, false))
  {
    hide TwoSteps, RunsThrough;
    var s1, s2 := EnableOpens(w, s, b);
    var s3, s4 := EnableStores(w, s2, b);
    FourSteps(w, s, s1, s2, s3, s4, b);
    assert s4.bps == s.bps[b := s.bps[b].(enabled := true)];
    ss := [s, s1, s2, s3, s4];
  }

  /** Disabling an enabled one puts back what its slot holds, which is the original word in every reachable state. */
  lemma DisableWorks<R(!new), D(!new)>(w: World<R, D>, s: State<R, D>, b: Addr) returns (ss: seq<State<R, D>>)
    requires Core(w, s) && !s.pages.faulted && w.found(b) == w.home(b)
    requires b in s.bps && s.bps[b].phase.Ready? && s.bps[b].enabled
    ensures RunsThrough(w, ss, b) && ss[0] == s && b in w.text
    ensures ss[4] == s.(mem := s.mem[b := w.text[b]], bps := s.bps[b := s.bps[b].(enabled := false)],
                        pages := Pages(s.pages.open - {w.found(b)}, false))
  {
    hide TwoSteps, RunsThrough;
    assert b in w.text && s.bps[b].slot in s.mem && s.mem[s.bps[b].slot] == w.text[b] by {
      hide MemOk, KeyOk, PairOk, ThreadOk, FallsThrough;
      assert BpOk(w, s, b);
    }
    hide Core;
    var s1, s2 := DisableOpens(w, s, b);
    var s3, s4 := DisableStores(w, s2, b);
    FourSteps(w, s, s1, s2, s3, s4, b);
    assert s4.bps == s.bps[b := s.bps[b].(enabled := false)];
    ss := [s, s1, s2, s3, s4];
  }

  /** The enter address is a key and the breakpoint has its slot. */
  lemma AddBegins<R(!new), D(!new)>(w: World<R, D>, s: State<R, D>, b: Addr, slot: Addr)
    returns (s1: State<R, D>, s2: State<R, D>)
    requires !s.pages.faulted && b in w.text && FallsThrough(w, w.text[b]) && b !in s.bps && b !in s.index
    requires FreshSlot(w, s, slot)
    ensures TwoSteps(w, s, s1, s2, b)
    ensures s2 == s.(index := s.index[b := b], bps := s.bps[b := Bp(Allocated, false, slot)])
  {
    hide FallsThrough;
    s1 := PutBp(s, b, Bp(Inserted, false, 0)).(index := s.index[b := b]);
    s2 := PutBp(s1, b, Bp(Allocated, false, slot));
    assert FreshSlot(w, s1, slot);
    assert AddEnter(w, s, b, s1) && AddSlot(w, s1, b, s2);
    hide AddEnter, AddSlot, AddCopy, AddReturn, Enable, Disable;
    assert s2.bps == s.bps[b := Bp(Allocated, false, slot)];
  }

  /** The slot is filled and its end is a key. */
  lemma AddEnds<R(!new), D(!new)>(w: World<R, D>, s: State<R, D>, b: Addr) returns (s1: State<R, D>, s2: State<R, D>)
    requires !s.pages.faulted && b in s.mem && b in s.bps && s.bps[b] == Bp(Allocated, false, s.bps[b].slot)
    requires s.bps[b].slot + 4 !in s.index
    ensures TwoSteps(w, s, s1, s2, b)
    ensures var slot := s.bps[b].slot;
      s2 == s.(mem := s.mem[slot := s.mem[b]][slot + 4 := BRK], index := s.index[slot + 4 := b],
               bps := s.bps[b := Bp(Ready, false, slot)])
  {
    var slot := s.bps[b].slot;
    s1 := PutBp(s, b, Bp(Copied, false, slot)).(mem := s.mem[slot := s.mem[b]][slot + 4 := BRK]);
    s2 := PutBp(s1, b, Bp(Ready, false, slot)).(index := s1.index[slot + 4 := b]);
    assert AddCopy(s, b, s1) && AddReturn(s1, b, s2);
    hide AddEnter, AddSlot, AddCopy, AddReturn, Enable, Disable;
    assert s2.bps == s.bps[b := Bp(Ready, false, slot)];
  }

  /** All four steps of an add. */
  lemma AddRuns<R(!new), D(!new)>(w: World<R, D>, s: State<R, D>, b: Addr, slot: Addr)
    returns (s1: State<R, D>, s2: State<R, D>, s3: State<R, D>, s4: State<R, D>)
    requires !s.pages.faulted && b in w.text && FallsThrough(w, w.text[b]) && b !in s.bps && b !in s.index
    requires FreshSlot(w, s, slot) && b in s.mem && slot + 4 !in s.index && slot + 4 != b
    ensures s4 == s.(mem := s.mem[slot := s.mem[b]][slot + 4 := BRK], index := s.index[b := b][slot + 4 := b],
                     bps := s.bps[b := Bp(Ready, false, slot)])
    ensures TwoSteps(w, s, s1, s2, b) && TwoSteps(w, s2, s3, s4, b)
  {
    hide TwoSteps, FallsThrough, FreshSlot;
    s1, s2 := AddBegins(w, s, b, slot);
    s3, s4 := AddEnds(w, s2, b);
    assert s4.bps == s.bps[b := Bp(Ready, false, slot)];
  }

  /** Neither of the keys that an add will enter is there. */
  lemma NoKeys<R(!new), D(!new)>(w: World<R, D>, s: State<R, D>, b: Addr, slot: Addr)
    requires Sane(w) && Core(w, s) && b in w.text && b !in s.bps && FreshSlot(w, s, slot)
    ensures b !in s.index && slot + 4 !in s.index
  {
    hide MemOk, PairOk, ThreadOk, FallsThrough;
    assert KeyOk(s, b) && KeyOk(s, slot + 4);
  }

  /** Adding a breakpoint on an instruction that the scheme supports, with a slot that nobody has, enters both keys and
      fills the slot. */
  lemma AddWorks<R(!new), D(!new)>(w: World<R, D>, s: State<R, D>, b: Addr, slot: Addr)
    returns (ss: seq<State<R, D>>)
    requires Sane(w) && Core(w, s) && !s.pages.faulted && b in w.text && FallsThrough(w, w.text[b]) && b !in s.bps
    requires FreshSlot(w, s, slot)
    ensures RunsThrough(w, ss, b) && ss[0] == s
    ensures ss[4] == s.(mem := s.mem[slot := w.text[b]][slot + 4 := 0xD420_0060],
                        index := s.index[b := b][slot + 4 := b], bps := s.bps[b := Bp(Ready, false, slot)])
  {
    hide TwoSteps, RunsThrough;
    assert b in s.mem && s.mem[b] == w.text[b] && slot + 4 != b by {
      hide BpOk, KeyOk, PairOk, ThreadOk, FallsThrough;
      assert MemOk(w, s, b);
    }
    assert b !in s.index && slot + 4 !in s.index by { NoKeys(w, s, b, slot); }
    hide Core, Sane, FallsThrough, FreshSlot;
    var s1, s2, s3, s4 := AddRuns(w, s, b, slot);
    FourSteps(w, s, s1, s2, s3, s4, b);
    ss := [s, s1, s2, s3, s4];
  }
}
