/** The calls without their locks, and accesses that meet. */
module LockAccesses {
  import opened Common
  import opened Locks

  datatype Access = Read(c: Cell) | Write(c: Cell)

  /** The accesses of a trace. */
  function Accesses(es: seq<Event>): seq<Access> {
    if es == [] then [] else Access1(es[0]) + Accesses(es[1..])
  }

  function Access1(e: Event): seq<Access> {
    match e
    case Use(c, m) => [if m.Shared? then Read(c) else Write(c)]
    case Glance(c, m) => [if m.Shared? then Read(c) else Write(c)]
    case _ => []
  }

  lemma AccessesOne(e: Event)
    ensures Accesses([e]) == Access1(e) && Accesses([]) == []
  {
    assert [e][1..] == [];
  }

  lemma AccessesTwo(e: Event, f: Event)
    ensures Accesses([e, f]) == Access1(e) + Access1(f)
  {
    hide Accesses;
    AccessesOne(e);
    AccessesOne(f);
    AccessesConcat([e], [f]);
    assert [e, f] == [e] + [f];
  }

  /** What slot_alloc reads and writes. */
  function AllocTouches(path: AllocPath): seq<Access> {
    ScanTouches(path.scanned) + [Read(Sets)] +
    match path
    case Hit(_, at) => [Read(SetState(at)), Write(SetState(at))]
    case Miss(_, retry) => [Write(Sets)] + AllocTouches(retry)
  }

  function ScanTouches(ps: seq<nat>): seq<Access> {
    if ps == [] then [] else [Read(Sets), Read(SetState(ps[0]))] + ScanTouches(ps[1..])
  }

  /** What a program without threads would read and write in a call, in its order. */
  function Touches(c: Call): seq<Access> {
    match c
    case Add(b, path) =>
      [Read(BpState(b))] + AddTouches(b, path) +
      if path.Collision? then [Read(BpState(b)), Write(SetState(path.p))] else []
    case EnableOrDisable(b, o, changes) =>
      [Read(Tree), Read(BpState(b))] +
      if changes then [Write(BpState(b)), Write(Protection(o)), Write(BpState(b)), Write(Protection(o))] else []
    case Trap(b, known) => ThreadTouches(known) + [Read(Tree), Read(BpState(b))]
    case EntryTrap(b, known, first) =>
      ThreadTouches(known) + [Read(EntryHit)] +
      (match first
       case None => []
       case Some(added) => LoadTouches(added) + [Write(EntryHit), Read(BpState(b))])
    case Load(added) => LoadTouches(added)
  }

  /** What breakpoint_add reads and writes up to its exit. */
  function AddTouches(b: nat, path: AddPath): seq<Access> {
    match path
    case NoObject => [Read(Objects)]
    case NotAllowed => [Read(Objects)]
    case Duplicate => [Read(Objects), Read(Tree)]
    case WithoutSlot(o) => [Read(Objects), Read(Tree), Write(Tree), Write(Chain(o)), Write(BpState(b))]
    case WithSlot(alloc, o) =>
      [Read(Objects), Read(Tree), Write(Tree)] + AllocTouches(alloc) + [Write(BpState(b))] +
      [Read(Tree), Write(Tree), Write(Chain(o)), Write(BpState(b))]
    case Collision(alloc, _) =>
      [Read(Objects), Read(Tree), Write(Tree)] + AllocTouches(alloc) + [Write(BpState(b))] + [Read(Tree)]
  }

  function ThreadTouches(known: bool): seq<Access> {
    [Read(ThreadMap)] + if known then [] else [Read(ThreadMap), Write(ThreadMap)]
  }

  function LoadTouches(added: seq<bool>): seq<Access> {
    if added == [] then []
    else [Read(Objects)] + (if added[0] then [Write(Objects)] else []) + LoadTouches(added[1..])
  }

  lemma {:induction false} AccessesConcat(a: seq<Event>, b: seq<Event>)
    ensures Accesses(a + b) == Accesses(a) + Accesses(b)
  {
    if a == [] {
      assert a + b == b;
    } else {
      assert (a + b)[1..] == a[1..] + b;
      AccessesConcat(a[1..], b);
    }
  }

  lemma AccessesUnder(l: Lock, m: Mode, body: seq<Event>)
    ensures Accesses(Under(l, m, body)) == Accesses(body)
  {
    hide Accesses;
    AccessesOne(Acq(l, m));
    AccessesOne(Rel(l));
    AccessesConcat([Acq(l, m)] + body, [Rel(l)]);
    AccessesConcat([Acq(l, m)], body);
  }

  lemma {:induction false} ScanAccesses(ps: seq<nat>)
    ensures Accesses(Scan(ps)) == ScanTouches(ps)
  {
    if ps == [] {
    } else {
      hide Accesses, Under;
      AccessesOne(Use(Sets, Shared));
      AccessesOne(Use(SetState(ps[0]), Shared));
      var full := Under(SetLock(ps[0]), Exclusive, [Use(SetState(ps[0]), Shared)]);
      AccessesUnder(SetLock(ps[0]), Exclusive, [Use(SetState(ps[0]), Shared)]);
      AccessesConcat([Use(Sets, Shared)], full);
      AccessesConcat([Use(Sets, Shared)] + full, Scan(ps[1..]));
      ScanAccesses(ps[1..]);
    }
  }

  lemma {:induction false} AllocAccesses(path: AllocPath)
    ensures Accesses(SlotAlloc(path)) == AllocTouches(path)
  {
    hide Accesses, Scan, ScanTouches, Found, Under;
    var ps := path.scanned;
    ScanAccesses(ps);
    AccessesOne(Acq(SetsLock, Shared));
    AccessesOne(Use(Sets, Shared));
    AccessesOne(Use(Sets, Exclusive));
    match path
    case Hit(_, at) =>
      AccessesConcat([Acq(SetsLock, Shared)], Scan(ps));
      AccessesConcat([Acq(SetsLock, Shared)] + Scan(ps), Found(at));
      FoundAccesses(at);
    case Miss(_, retry) =>
      var look, grow := Scan(ps) + [Use(Sets, Shared)], [Use(Sets, Exclusive)];
      AccessesConcat(Scan(ps), [Use(Sets, Shared)]);
      AccessesUnder(SetsLock, Shared, look);
      AccessesUnder(SetsLock, Exclusive, grow);
      AccessesConcat(Under(SetsLock, Shared, look), Under(SetsLock, Exclusive, grow));
      AccessesConcat(Under(SetsLock, Shared, look) + Under(SetsLock, Exclusive, grow), SlotAlloc(retry));
      AllocAccesses(retry);
  }

  lemma FoundAccesses(at: nat)
    ensures Accesses(Found(at)) == [Read(Sets), Read(SetState(at)), Write(SetState(at))]
  {
    hide Accesses;
    var a, b := [Use(Sets, Shared), Acq(SetLock(at), Exclusive)], [Use(SetState(at), Shared), Rel(SetsLock)];
    var c := [Use(SetState(at), Exclusive), Rel(SetLock(at))];
    AccessesTwo(a[0], a[1]);
    AccessesTwo(b[0], b[1]);
    AccessesTwo(c[0], c[1]);
    AccessesConcat(a, b);
    AccessesConcat(a + b, c);
    assert Found(at) == a + b + c;
  }

  lemma SmallAccesses(b: nat, o: nat, is_new: bool)
    ensures Accesses(LookUp()) == [Read(Objects)]
    ensures Accesses(Insert(is_new)) == [Read(Tree)] + if is_new then [Write(Tree)] else []
    ensures Accesses(Enchain(b, o)) == [Write(Chain(o)), Write(BpState(b))]
  {
    hide Accesses, Under;
    AccessesOne(Use(Objects, Shared));
    AccessesOne(Use(Tree, Shared));
    AccessesOne(Use(Tree, Exclusive));
    AccessesUnder(ObjectLock, Exclusive, [Use(Objects, Shared)]);
    AccessesConcat([Use(Tree, Shared)], if is_new then [Use(Tree, Exclusive)] else []);
    AccessesTwo(Use(Chain(o), Exclusive), Use(BpState(b), Exclusive));
    AccessesUnder(TreeLock, Exclusive, [Use(Tree, Shared)] + if is_new then [Use(Tree, Exclusive)] else []);
    AccessesUnder(ChainLock(o), Exclusive, [Use(Chain(o), Exclusive), Use(BpState(b), Exclusive)]);
  }

  lemma {:induction false} LoadAccesses(added: seq<bool>)
    ensures Accesses(ParseMmap(added)) == LoadTouches(added)
  {
    if added == [] {
    } else {
      hide Accesses, LookUp, Under;
      var append := Under(ObjectLock, Exclusive, [Use(Objects, Exclusive)]);
      SmallAccesses(0, 0, false);
      AppendAccesses();
      AccessesConcat(LookUp(), if added[0] then append else []);
      AccessesConcat(LookUp() + (if added[0] then append else []), ParseMmap(added[1..]));
      LoadAccesses(added[1..]);
    }
  }

  lemma AppendAccesses()
    ensures Accesses(Under(ObjectLock, Exclusive, [Use(Objects, Exclusive)])) == [Write(Objects)] && Accesses([]) == []
  {
    AccessesUnder(ObjectLock, Exclusive, [Use(Objects, Exclusive)]);
  }

  lemma ThreadAccesses(known: bool)
    ensures Accesses(OwnThread(known)) == ThreadTouches(known)
  {
    hide Accesses, Under;
    AccessesOne(Use(ThreadMap, Shared));
    var find, add := [Use(ThreadMap, Shared)], [Use(ThreadMap, Shared), Use(ThreadMap, Exclusive)];
    AccessesUnder(ThreadMapLock, Shared, find);
    AccessesUnder(ThreadMapLock, Exclusive, add);
    AccessesTwo(add[0], add[1]);
    AccessesConcat(Under(ThreadMapLock, Shared, find), if known then [] else Under(ThreadMapLock, Exclusive, add));
  }

  lemma InsideAccesses(b: nat, path: AddPath)
    ensures Accesses(Inside(b, path)) == AddTouches(b, path)
  {
    hide Accesses, LookUp, Insert, Enchain, SlotAlloc, AllocTouches;
    SmallAccesses(b, 0, true);
    SmallAccesses(b, 0, false);
    AccessesConcat(LookUp(), Insert(true));
    match path
    case NoObject =>
    case NotAllowed =>
    case Duplicate => AccessesConcat(LookUp(), Insert(false));
    case WithoutSlot(o) =>
      SmallAccesses(b, o, true);
      AccessesConcat(LookUp() + Insert(true), Enchain(b, o));
    case WithSlot(alloc, o) =>
      SmallAccesses(b, o, true);
      GivenAccesses(b, alloc);
      var es := LookUp() + Insert(true) + SlotAlloc(alloc) + [Use(BpState(b), Exclusive)];
      AccessesConcat(es, Insert(true));
      AccessesConcat(es + Insert(true), Enchain(b, o));
    case Collision(alloc, _) =>
      GivenAccesses(b, alloc);
      var es := LookUp() + Insert(true) + SlotAlloc(alloc) + [Use(BpState(b), Exclusive)];
      AccessesConcat(es, Insert(false));
  }

  lemma GivenAccesses(b: nat, alloc: AllocPath)
    ensures Accesses(LookUp() + Insert(true) + SlotAlloc(alloc) + [Use(BpState(b), Exclusive)]) ==
      [Read(Objects), Read(Tree), Write(Tree)] + AllocTouches(alloc) + [Write(BpState(b))]
  {
    AccessesOne(Use(BpState(b), Exclusive));
    hide Accesses, LookUp, Insert, SlotAlloc, AllocTouches;
    SmallAccesses(b, 0, true);
    AllocAccesses(alloc);
    AccessesConcat(LookUp(), Insert(true));
    AccessesConcat(LookUp() + Insert(true), SlotAlloc(alloc));
    AccessesConcat(LookUp() + Insert(true) + SlotAlloc(alloc), [Use(BpState(b), Exclusive)]);
  }

  lemma AddAccesses(b: nat, path: AddPath)
    ensures Accesses(BreakpointAdd(b, path)) == Touches(Add(b, path))
  {
    var glance, locked := [Glance(BpState(b), Shared)], Under(BpLock(b), Exclusive, Inside(b, path));
    AccessesOne(Glance(BpState(b), Shared));
    InsideAccesses(b, path);
    hide Inside, AddTouches, Accesses, Under;
    AccessesUnder(BpLock(b), Exclusive, Inside(b, path));
    AccessesConcat(glance, locked);
    if path.Collision? {
      AccessesOne(Use(SetState(path.p), Exclusive));
      AccessesUnder(SetLock(path.p), Exclusive, [Use(SetState(path.p), Exclusive)]);
      AccessesConcat(glance, SlotFree(path.p));
      AccessesConcat(glance + locked, glance + SlotFree(path.p));
    } else {
      AccessesConcat(glance + locked, []);
    }
  }

  lemma PatchAccesses(b: nat, o: nat, changes: bool)
    ensures Accesses(Patch(b, o, changes)) == Touches(EnableOrDisable(b, o, changes))
  {
    hide Accesses, Under;
    AccessesOne(Glance(Tree, Shared));
    AccessesOne(Use(BpState(b), Shared));
    var body := [Use(BpState(b), Shared)] + if changes then Store(b, o) else [];
    AccessesConcat([Use(BpState(b), Shared)], if changes then Store(b, o) else []);
    AccessesUnder(BpLock(b), Exclusive, body);
    AccessesConcat([Glance(Tree, Shared)], Under(BpLock(b), Exclusive, body));
    var store := [Use(BpState(b), Exclusive), Glance(Protection(o), Exclusive)];
    AccessesTwo(store[0], store[1]);
    AccessesConcat(store, store);
    assert Store(b, o) == store + store;
  }

  lemma HandlerAccesses(b: nat, known: bool)
    ensures Accesses(Handler(b, known)) == Touches(Trap(b, known))
  {
    var find, bp := Under(TreeLock, Exclusive, [Use(Tree, Shared)]),
                    Under(BpLock(b), Exclusive, [Use(BpState(b), Shared)]);
    ThreadAccesses(known);
    hide OwnThread, ThreadTouches, Accesses, Under;
    AccessesOne(Use(Tree, Shared));
    AccessesOne(Use(BpState(b), Shared));
    AccessesUnder(TreeLock, Exclusive, [Use(Tree, Shared)]);
    AccessesUnder(BpLock(b), Exclusive, [Use(BpState(b), Shared)]);
    AccessesConcat(OwnThread(known), find);
    AccessesConcat(OwnThread(known) + find, bp);
  }

  lemma EntryAccesses(b: nat, known: bool, first: Option<seq<bool>>)
    ensures Accesses(EntryHandler(b, known, first)) == Touches(EntryTrap(b, known, first))
  {
    ThreadAccesses(known);
    hide OwnThread, ThreadTouches, Accesses;
    AccessesOne(Glance(EntryHit, Shared));
    var own := OwnThread(known) + [Glance(EntryHit, Shared)];
    AccessesConcat(OwnThread(known), [Glance(EntryHit, Shared)]);
    match first
    case None => AccessesConcat(own, []);
    case Some(added) =>
      var last := [Glance(EntryHit, Exclusive), Glance(BpState(b), Shared)];
      AccessesTwo(last[0], last[1]);
      LoadAccesses(added);
      hide ParseMmap, LoadTouches;
      AccessesConcat(ParseMmap(added), last);
      AccessesConcat(own, ParseMmap(added) + last);
  }

  /** Without its locks every call, on every path, makes exactly the accesses of the sequential program, in order. */
  lemma CallAccesses(c: Call)
    ensures Accesses(CallTrace(c)) == Touches(c)
  {
    hide Accesses;
    match c
    case Add(b, path) => AddAccesses(b, path);
    case EnableOrDisable(b, o, changes) => PatchAccesses(b, o, changes);
    case Trap(b, known) => HandlerAccesses(b, known);
    case EntryTrap(b, known, first) => EntryAccesses(b, known, first);
    case Load(added) => LoadAccesses(added);
  }

  // ---- accesses that do meet ----

  /** A thread that wants nothing that others hold can make its next `k` steps. */
  lemma {:induction false} Advance(s: System, t: Tid, k: nat) returns (tr: seq<System>)
    requires t in s && k <= |s[t].todo| && After(s[t].todo, s[t].held).Some?
    requires forall j, u :: 0 <= j < k && s[t].todo[j].Acq? && u in s && u != t ==> s[t].todo[j].l !in s[u].held
    ensures |tr| == k + 1 && tr[0] == s && forall i :: 0 <= i < k ==> Step(tr[i], t, tr[i + 1])
    ensures After(s[t].todo[..k], s[t].held).Some?
    ensures tr[k] == s[t := Thread(s[t].todo[k..], After(s[t].todo[..k], s[t].held).value)]
  {
    var es, h := s[t].todo, s[t].held;
    if k == 0 {
      assert es[0..] == es && es[..0] == [] && s == s[t := s[t]];
      tr := [s];
    } else {
      tr := Advance(s, t, k - 1);
      var last := tr[k - 1];
      assert es[..k] == es[..k - 1] + [es[k - 1]] && es == es[..k] + es[k..] && es[k - 1..][1..] == es[k..];
      AfterConcat(es[..k - 1], [es[k - 1]], h);
      AfterConcat(es[..k], es[k..], h);
      var next := last[t := Next(last[t])];
      AfterOne(es[k - 1], last[t].held);
      assert CanStep(last, t);
      tr := tr + [next];
    }
  }

  lemma AfterOne(e: Event, held: Held)
    requires After([e], held).Some?
    ensures After([e], held).value == Next(Thread([e], held)).held
  {
    assert [e][1..] == [];
  }

  /** Two threads with one call each, at the start. */
  function Two(c: Call, d: Call): System {
    map[1 := Thread(CallTrace(c), map[]), 2 := Thread(CallTrace(d), map[])]
  }

  lemma TwoStart(c: Call, d: Call)
    ensures Init(Two(c, d)) && After(CallTrace(c), map[]) == Some(map[]) == After(CallTrace(d), map[])
  {
    hide CallTrace;
    CallNeutral(c);
    CallNeutral(d);
    assert Program([c]) == CallTrace(c) && Program([d]) == CallTrace(d) by {
      assert Program([]) == [] && [c][1..] == [] && [d][1..] == [];
    }
  }

  /** The first thread comes to event `i` of its call and then the second to event `j` of its own, unless the first
      then holds a lock that the second needs on the way. */
  lemma Meet(c: Call, d: Call, i: nat, j: nat, held: Held) returns (tr: seq<System>, who: seq<Tid>)
    requires i < |CallTrace(c)| && j < |CallTrace(d)| && After(CallTrace(c)[..i], map[]) == Some(held)
    requires forall k :: 0 <= k < j && CallTrace(d)[k].Acq? ==> CallTrace(d)[k].l !in held
    ensures Run(tr, who) && |who| == i + j && tr[0] == Two(c, d)
    ensures var s := tr[i + j];
      && 1 in s && s[1].todo != [] && s[1].todo[0] == CallTrace(c)[i]
      && 2 in s && s[2].todo != [] && s[2].todo[0] == CallTrace(d)[j]
  {
    TwoStart(c, d);
    hide CallTrace, After, Init;
    var s := Two(c, d);
    var first := Advance(s, 1, i);
    var mid := first[i];
    assert mid[2] == s[2] && mid[1].held == held;
    var second := Advance(mid, 2, j);
    who := seq(i + j, k => if k < i then 1 else 2);
    tr := first + second[1..];
    assert |tr| == |who| + 1;
    forall k | 0 <= k < |who|
      ensures Step(tr[k], who[k], tr[k + 1])
    {
      hide Step;
      if k < i {
        assert tr[k] == first[k] && tr[k + 1] == first[k + 1];
      } else {
        assert tr[k] == second[k - i] && tr[k + 1] == second[k + 1 - i];
      }
    }
    hide Step;
    assert tr[i + j] == second[j];
  }

  /** breakpoint_enable reads a tree node for its assertion while breakpoint_add changes the tree. */
  lemma TreeRaced(b: nat, c: nat, o: nat, changes: bool) returns (tr: seq<System>, who: seq<Tid>)
    ensures Run(tr, who) && Conflict(tr[|who|], 1, 2, Tree, Shared, Exclusive)
    ensures tr[0] == Two(EnableOrDisable(b, o, changes), Add(c, WithoutSlot(o)))
  {
    var x, y := EnableOrDisable(b, o, changes), Add(c, WithoutSlot(o));
    assert CallTrace(x)[0] == Glance(Tree, Shared) && CallTrace(x)[..0] == [];
    assert CallTrace(y)[7] == Use(Tree, Exclusive);
    tr, who := Meet(x, y, 0, 7, map[]);
  }

  /** Two operations on one object change its protection at the same time. */
  lemma ProtectionRaced(b: nat, c: nat, o: nat) returns (tr: seq<System>, who: seq<Tid>)
    requires b != c
    ensures Run(tr, who) && Conflict(tr[|who|], 1, 2, Protection(o), Exclusive, Exclusive)
    ensures tr[0] == Two(EnableOrDisable(b, o, true), EnableOrDisable(c, o, true))
  {
    var x, y := EnableOrDisable(b, o, true), EnableOrDisable(c, o, true);
    var held: Held := map[BpLock(b) := Exclusive];
    assert CallTrace(x)[4] == Glance(Protection(o), Exclusive) && CallTrace(y)[4] == Glance(Protection(o), Exclusive);
    assert CallTrace(x)[..4] ==
      [Glance(Tree, Shared)] + [Acq(BpLock(b), Exclusive)] + ([Use(BpState(b), Shared)] + [Use(BpState(b), Exclusive)]);
    assert After(CallTrace(x)[..4], map[]) == Some(held) by { FourEvents(b); }
    tr, who := Meet(x, y, 4, 4, held);
  }

  lemma FourEvents(b: nat)
    ensures After([Glance(Tree, Shared)] + [Acq(BpLock(b), Exclusive)] +
                  ([Use(BpState(b), Shared)] + [Use(BpState(b), Exclusive)]), map[]) ==
      Some(map[BpLock(b) := Exclusive])
  {
    hide After;
    var h: Held := map[];
    var h1 := h[BpLock(b) := Exclusive];
    NeutralGlance(Tree, Shared, h);
    AfterAcq(BpLock(b), Exclusive, h);
    NeutralUse(BpState(b), Shared, h1);
    NeutralUse(BpState(b), Exclusive, h1);
    NeutralConcat([Use(BpState(b), Shared)], [Use(BpState(b), Exclusive)], h1);
    AfterConcat([Glance(Tree, Shared)], [Acq(BpLock(b), Exclusive)], h);
    AfterConcat([Glance(Tree, Shared)] + [Acq(BpLock(b), Exclusive)],
                [Use(BpState(b), Shared)] + [Use(BpState(b), Exclusive)], h);
  }

  /** The entry-point handler before its accesses to entry_hit, and between them. */
  lemma EntryEvents(b: nat)
    ensures var es := CallTrace(EntryTrap(b, true, Some([])));
      && |es| == 6 && es[3] == Glance(EntryHit, Shared) && es[4] == Glance(EntryHit, Exclusive)
      && es[5] == Glance(BpState(b), Shared) && es[0] == Acq(ThreadMapLock, Shared)
      && (forall k :: 0 < k < 6 ==> !es[k].Acq?) && Neutral(es[..3], map[]) && Neutral(es[..5], map[])
  {
    var es := CallTrace(EntryTrap(b, true, Some([])));
    var own, hit := OwnThread(true), [Glance(EntryHit, Shared)] + [Glance(EntryHit, Exclusive)];
    assert es[..3] == own && es[..5] == own + hit;
    hide After;
    OwnThreadNeutral(true);
    NeutralGlance(EntryHit, Shared, map[]);
    NeutralGlance(EntryHit, Exclusive, map[]);
    NeutralConcat([Glance(EntryHit, Shared)], [Glance(EntryHit, Exclusive)], map[]);
    NeutralConcat(own, hit, map[]);
  }

  /** One thread reads entry_hit in the entry-point handler while another sets it. */
  lemma EntryRaced(b: nat) returns (tr: seq<System>, who: seq<Tid>)
    ensures Run(tr, who) && Conflict(tr[|who|], 1, 2, EntryHit, Shared, Exclusive)
    ensures tr[0] == Two(EntryTrap(b, true, Some([])), EntryTrap(b, true, Some([])))
  {
    EntryEvents(b);
    hide CallTrace, After;
    tr, who := Meet(EntryTrap(b, true, Some([])), EntryTrap(b, true, Some([])), 3, 4, map[]);
  }

  /** The entry-point handler reads the slot of the entry breakpoint while it is being enabled or disabled. */
  lemma SlotRaced(b: nat, o: nat) returns (tr: seq<System>, who: seq<Tid>)
    ensures Run(tr, who) && Conflict(tr[|who|], 1, 2, BpState(b), Shared, Exclusive)
    ensures tr[0] == Two(EntryTrap(b, true, Some([])), EnableOrDisable(b, o, true))
  {
    EntryEvents(b);
    var y := EnableOrDisable(b, o, true);
    assert CallTrace(y)[3] == Use(BpState(b), Exclusive);
    hide CallTrace, After;
    tr, who := Meet(EntryTrap(b, true, Some([])), y, 5, 3, map[]);
  }
}
