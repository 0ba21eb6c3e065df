/** What a sequence of calls leaves, told from the calls alone: which breakpoints are added and enabled, where they may
    stand, and so what the text holds. */
module LifecycleHistory {
  import opened Common
  import opened Lifecycle

  // ---- enabled ----

  /** Among the first `i` calls the last one that enables or disables `id` enables it. */
  ghost predicate LastEnabled(calls: seq<Call>, i: nat, id: Id)
    requires i <= |calls|
  {
    exists k :: 0 <= k < i && calls[k] == EnableCall(id) && forall m :: k < m < i ==> calls[m] != DisableCall(id)
  }

  predicate Enabled(s: State, id: Id) {
    id in s.bkpts && s.bkpts[id].enable
  }

  lemma LastEnabledNext(calls: seq<Call>, i: nat, id: Id)
    requires i < |calls|
    ensures LastEnabled(calls, i + 1, id) <==>
      calls[i] == EnableCall(id) || (LastEnabled(calls, i, id) && calls[i] != DisableCall(id))
  {
    if LastEnabled(calls, i, id) && calls[i] != DisableCall(id) {
      var k :| 0 <= k < i && calls[k] == EnableCall(id) && forall m :: k < m < i ==> calls[m] != DisableCall(id);
      assert forall m :: k < m < i + 1 ==> calls[m] != DisableCall(id);
    }
    if LastEnabled(calls, i + 1, id) && calls[i] != EnableCall(id) {
      var k :| 0 <= k < i + 1 && calls[k] == EnableCall(id) &&
        forall m :: k < m < i + 1 ==> calls[m] != DisableCall(id);
      assert forall m :: k < m < i ==> calls[m] != DisableCall(id);
    }
  }

  lemma CallEnables(w: World, s: State, c: Call, s': State, id: Id)
    requires IndexInv(w, s) && Step(w, s, c, s')
    ensures Enabled(s', id) <==> c == EnableCall(id) || (Enabled(s, id) && c != DisableCall(id))
  {
    match c
    case NewCall(_, _, _) =>
    case AddCall(_, _) => hide IndexInv, AddCode, NextSlot, Allocate, NewBase, GetByAddress;
    case EnableCall(_) => hide IndexInv, CanStore;
    case DisableCall(d) =>
      hide TreeInv, Untouched;
      assert PlaceOk(w, s, d);
  }

  /** After any calls a breakpoint is enabled exactly if the last call that enabled or disabled it enabled it. */
  lemma {:induction false} EnabledByHistory(w: World, tr: seq<State>, calls: seq<Call>, i: nat, id: Id)
    requires Run(w, tr, calls) && i < |tr|
    ensures Enabled(tr[i], id) <==> LastEnabled(calls, i, id)
  {
    hide Step, IndexInv, Geometry, LastEnabled;
    if i == 0 {
      NoneYet(calls, id);
    } else {
      EnabledByHistory(w, tr, calls, i - 1, id);
      RunKeepsIndex(w, tr, calls, i - 1);
      assert Step(w, tr[i - 1], calls[i - 1], tr[i]);
      CallEnables(w, tr[i - 1], calls[i - 1], tr[i], id);
      LastEnabledNext(calls, i - 1, id);
    }
  }

  lemma NoneYet(calls: seq<Call>, id: Id)
    ensures !LastEnabled(calls, 0, id)
  {
  }

  // ---- added ----

  /** Call `k` of a run adds `id`, at an address that is accepted. */
  ghost predicate AddsAt(w: World, tr: seq<State>, calls: seq<Call>, k: int, id: Id)
    requires |tr| == |calls| + 1 && 0 <= k < |calls|
  {
    && calls[k].AddCall? && calls[k].id == id && id in tr[k].bkpts
    && Accepts(w.objects, tr[k].index, tr[k].bkpts[id].enter)
  }

  lemma CallAdds(w: World, s: State, c: Call, s': State, id: Id)
    requires Step(w, s, c, s')
    ensures Added(s', id) <==>
      || Added(s, id)
      || (c.AddCall? && c.id == id && id in s.bkpts && Accepts(w.objects, s.index, s.bkpts[id].enter))
  {
    hide CanStore, NextSlot, Allocate, NewBase;
    if c.AddCall? {
      CodeMeans(w, s, s.bkpts[c.id].enter);
    }
  }

  /** After any calls the added breakpoints are exactly those of an add at an accepted address. */
  lemma {:induction false} AddedByHistory(w: World, tr: seq<State>, calls: seq<Call>, i: nat, id: Id)
    requires Run(w, tr, calls) && i < |tr|
    ensures Added(tr[i], id) <==> exists k :: 0 <= k < i && AddsAt(w, tr, calls, k, id)
  {
    hide Step, Geometry, Accepts;
    if i == 0 {
    } else {
      AddedByHistory(w, tr, calls, i - 1, id);
      assert Step(w, tr[i - 1], calls[i - 1], tr[i]);
      CallAdds(w, tr[i - 1], calls[i - 1], tr[i], id);
      assert AddsAt(w, tr, calls, i - 1, id) || !AddsAt(w, tr, calls, i - 1, id);
    }
  }

  // ---- where breakpoints may stand ----

  /** An added breakpoint belongs to the first object that holds its address, which is not barred. */
  predicate Permitted(w: World, s: State, id: Id) {
    Added(s, id) ==>
      FirstHolding(w.objects, s.bkpts[id].enter, s.bkpts[id].obj.value) &&
      !w.objects[s.bkpts[id].obj.value].no_bkpt
  }

  lemma CallPermits(w: World, s: State, c: Call, s': State, id: Id)
    requires Step(w, s, c, s') && Permitted(w, s, id)
    ensures Permitted(w, s', id)
  {
    hide CanStore, NextSlot, Allocate, NewBase, FirstHolding;
    if c.AddCall? {
      CodeMeans(w, s, s.bkpts[c.id].enter);
    }
  }

  /** After any calls no added breakpoint belongs to a barred object. */
  lemma {:induction false} NeverBarred(w: World, tr: seq<State>, calls: seq<Call>, i: nat, id: Id)
    requires Run(w, tr, calls) && i < |tr|
    ensures Permitted(w, tr[i], id)
  {
    hide Step, Geometry, FirstHolding;
    if i == 0 {
    } else {
      NeverBarred(w, tr, calls, i - 1, id);
      assert Step(w, tr[i - 1], calls[i - 1], tr[i]);
      CallPermits(w, tr[i - 1], calls[i - 1], tr[i], id);
    }
  }

  /** Text ranges are not empty and do not overlap, as mappings do not. */
  predicate Disjoint(objects: seq<Object>) {
    && (forall i :: 0 <= i < |objects| ==> objects[i].text_start < objects[i].text_end)
    && (forall i, j :: 0 <= i < j < |objects| ==>
          objects[i].text_end <= objects[j].text_start || objects[j].text_end <= objects[i].text_start)
  }

  /** The code of a barred object is safe but for its first word, which is accepted exactly if an object that is not
      barred ends there and comes earlier in the list. */
  lemma BarredExactly(objects: seq<Object>, index: map<Addr, Id>, a: Addr, j: nat)
    requires Disjoint(objects) && j < |objects| && objects[j].no_bkpt
    requires objects[j].text_start <= a < objects[j].text_end && a !in index
    ensures Accepts(objects, index, a) <==>
      a == objects[j].text_start && exists i :: 0 <= i < j && objects[i].text_end == a && !objects[i].no_bkpt
  {
    forall i | 0 <= i < |objects| && i != j && objects[i].text_start <= a <= objects[i].text_end
      ensures a == objects[j].text_start == objects[i].text_end
    {
    }
    if i :| 0 <= i < j && objects[i].text_end == a && !objects[i].no_bkpt && a == objects[j].text_start {
      assert FirstHolding(objects, a, i);
    }
    if Accepts(objects, index, a) {
      var i :| FirstHolding(objects, a, i) && !objects[i].no_bkpt;
      assert i < j;
    }
  }

  /** Such a list: the first word of the library's own code gets a breakpoint. */
  lemma OwnCodeAccepted()
    ensures var objects := [Object(0x1000, 0x2000, false), Object(0x2000, 0x3000, true)];
      Disjoint(objects) && Accepts(objects, map[], 0x2000) && !Accepts(objects, map[], 0x2004)
  {
    var objects := [Object(0x1000, 0x2000, false), Object(0x2000, 0x3000, true)];
    assert objects[0].text_end == 0x2000;
    BarredExactly(objects, map[], 0x2000, 1);
    BarredExactly(objects, map[], 0x2004, 1);
  }

  // ---- the text ----

  /** After any sequence of calls that met their conditions, a text word outside the slot regions is brk exactly if some
      add was accepted at that address for a breakpoint whose last enable or disable enabled it, and else original. */
  lemma TextByHistory(w: World, tr: seq<State>, calls: seq<Call>, i: nat, a: Addr)
    requires Run(w, tr, calls) && NoBrk(w) && i < |tr| && forall k :: 0 <= k < i ==> CallSound(w, tr[k], calls[k])
    requires a in w.orig && !InRegion(w.bases, a)
    ensures a in tr[i].mem
    ensures tr[i].mem[a] ==
      if exists id, k ::
        0 <= k < i && AddsAt(w, tr, calls, k, id) && tr[k].bkpts[id].enter == a && LastEnabled(calls, i, id)
      then 0xD420_0060 else w.orig[a]
  {
    TextAndSlots(w, tr, calls, i, a);
    var s := tr[i];
    hide Step, Geometry, PoolOk, LastEnabled, CallSound, Aligned, InRegion, AddsAt, NoBrk;
    if id :| Added(s, id) && s.bkpts[id].enter == a && s.bkpts[id].enable {
      AddedByHistory(w, tr, calls, i, id);
      EnabledByHistory(w, tr, calls, i, id);
      var k :| 0 <= k < i && AddsAt(w, tr, calls, k, id);
      AddsKnown(w, tr, calls, k, id);
      EnterStays(w, tr, calls, k, i, id);
    }
    if id, k :| 0 <= k < i && AddsAt(w, tr, calls, k, id) && tr[k].bkpts[id].enter == a && LastEnabled(calls, i, id) {
      AddedByHistory(w, tr, calls, i, id);
      EnabledByHistory(w, tr, calls, i, id);
      AddsKnown(w, tr, calls, k, id);
      EnterStays(w, tr, calls, k, i, id);
    }
  }

  lemma AddsKnown(w: World, tr: seq<State>, calls: seq<Call>, k: nat, id: Id)
    requires |tr| == |calls| + 1 && k < |calls| && AddsAt(w, tr, calls, k, id)
    ensures id in tr[k].bkpts
  {
  }

  lemma CallKeepsEnter(w: World, s: State, c: Call, s': State, id: Id)
    requires Step(w, s, c, s') && id in s.bkpts
    ensures id in s'.bkpts && s'.bkpts[id].enter == s.bkpts[id].enter
  {
    hide CanStore, NextSlot, Allocate, NewBase, AddCode, GetByAddress;
  }

  lemma {:induction false} EnterStays(w: World, tr: seq<State>, calls: seq<Call>, k: nat, i: nat, id: Id)
    requires Run(w, tr, calls) && k <= i < |tr| && id in tr[k].bkpts
    ensures id in tr[i].bkpts && tr[i].bkpts[id].enter == tr[k].bkpts[id].enter
    decreases i
  {
    hide Step, Geometry;
    if i == k {
    } else {
      EnterStays(w, tr, calls, k, i - 1, id);
      assert Step(w, tr[i - 1], calls[i - 1], tr[i]);
      CallKeepsEnter(w, tr[i - 1], calls[i - 1], tr[i], id);
    }
  }
}
