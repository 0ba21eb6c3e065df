/** The locks that the engine takes and the shared state it touches, call by call: why threads never wait for each
    other in a circle, and which accesses can meet. */
module Locks {
  import opened Common

  type Tid = nat

  datatype Lock =
    | BpLock(b: nat)       // of a breakpoint
    | ObjectLock           // object_lock
    | TreeLock             // breakpoint_lock
    | SetsLock             // slot_sets_lock, a read-write lock
    | SetLock(p: nat)      // of a slot set
    | ChainLock(o: nat)    // of an object's breakpoint chain
    | ThreadMapLock        // thread_map_lock, a read-write lock

  /** How a lock is held, and how state is used: read or written. */
  datatype Mode = Shared | Exclusive

  /** What threads share. */
  datatype Cell =
    | BpState(b: nat)      // the flag, slot and object of a breakpoint, its word of text and the words of its slot
    | Objects              // the object list
    | Tree                 // the red-black tree, its nodes included
    | Sets                 // the list of slot sets
    | SetState(p: nat)     // bitmap and count of a slot set
    | Chain(o: nat)        // the breakpoint chain of an object
    | ThreadMap            // the hash of threads
    | Protection(o: nat)   // whether the text of an object is writable
    | EntryHit             // entry_hit

  /** `Use` is an access under the lock that guards the state, `Glance` one without. */
  datatype Event = Acq(l: Lock, m: Mode) | Rel(l: Lock) | Use(c: Cell, m: Mode) | Glance(c: Cell, m: Mode)

  type Held = map<Lock, Mode>

  // ---- what each call does, for every path through it ----

  /** `body` between taking and releasing a lock. */
  function Under(l: Lock, m: Mode, body: seq<Event>): seq<Event> {
    [Acq(l, m)] + body + [Rel(l)]
  }

  /** Sets that are passed because they are full. */
  function Scan(ps: seq<nat>): seq<Event> {
    if ps == [] then []
    else [Use(Sets, Shared)] + Under(SetLock(ps[0]), Exclusive, [Use(SetState(ps[0]), Shared)]) + Scan(ps[1..])
  }

  /** slot_alloc finds a slot in set `at` after scanning some sets, or adds a set and retries. */
  datatype AllocPath = Hit(scanned: seq<nat>, at: nat) | Miss(scanned: seq<nat>, retry: AllocPath)

  /** The set is searched under both locks and written under its own. */
  function Found(at: nat): seq<Event> {
    [Use(Sets, Shared), Acq(SetLock(at), Exclusive), Use(SetState(at), Shared), Rel(SetsLock),
     Use(SetState(at), Exclusive), Rel(SetLock(at))]
  }

  function SlotAlloc(path: AllocPath): seq<Event> {
    match path
    case Hit(ps, at) => [Acq(SetsLock, Shared)] + Scan(ps) + Found(at)
    case Miss(ps, retry) =>
      Under(SetsLock, Shared, Scan(ps) + [Use(Sets, Shared)]) +
      Under(SetsLock, Exclusive, [Use(Sets, Exclusive)]) + SlotAlloc(retry)
  }

  function SlotFree(p: nat): seq<Event> {
    Under(SetLock(p), Exclusive, [Use(SetState(p), Exclusive)])
  }

  /** object_get_by_address */
  function LookUp(): seq<Event> {
    Under(ObjectLock, Exclusive, [Use(Objects, Shared)])
  }

  /** breakpoint_rb_search_insert, which writes if the key is new. */
  function Insert(is_new: bool): seq<Event> {
    Under(TreeLock, Exclusive, [Use(Tree, Shared)] + if is_new then [Use(Tree, Exclusive)] else [])
  }

  /** The breakpoint goes into the chain of its object. */
  function Enchain(b: nat, o: nat): seq<Event> {
    Under(ChainLock(o), Exclusive, [Use(Chain(o), Exclusive), Use(BpState(b), Exclusive)])
  }

  /** The exits of breakpoint_add. */
  datatype AddPath =
    | NoObject | NotAllowed | Duplicate
    | WithoutSlot(o: nat)
    | WithSlot(alloc: AllocPath, o: nat)
    | Collision(alloc: AllocPath, p: nat)

  /** What breakpoint_add does while it holds the breakpoint's lock. */
  function Inside(b: nat, path: AddPath): seq<Event> {
    match path
    case NoObject => LookUp()
    case NotAllowed => LookUp()
    case Duplicate => LookUp() + Insert(false)
    case WithoutSlot(o) => LookUp() + Insert(true) + Enchain(b, o)
    case WithSlot(alloc, o) =>
      LookUp() + Insert(true) + SlotAlloc(alloc) + [Use(BpState(b), Exclusive)] + Insert(true) + Enchain(b, o)
    case Collision(alloc, _) =>
      LookUp() + Insert(true) + SlotAlloc(alloc) + [Use(BpState(b), Exclusive)] + Insert(false)
  }

  /** breakpoint_add: an assertion looks at the breakpoint before its lock is taken, and the -4 exit reads its slot
      after that is released. */
  function BreakpointAdd(b: nat, path: AddPath): seq<Event> {
    [Glance(BpState(b), Shared)] + Under(BpLock(b), Exclusive, Inside(b, path)) +
    if path.Collision? then [Glance(BpState(b), Shared)] + SlotFree(path.p) else []
  }

  /** breakpoint_enable and breakpoint_disable of a breakpoint of object `o`: an assertion looks at its tree node;
      if the flag changes, the protection is removed, the word stored and the protection put back. */
  function Patch(b: nat, o: nat, changes: bool): seq<Event> {
    [Glance(Tree, Shared)] +
    Under(BpLock(b), Exclusive, [Use(BpState(b), Shared)] + if changes then Store(b, o) else [])
  }

  function Store(b: nat, o: nat): seq<Event> {
    [Use(BpState(b), Exclusive), Glance(Protection(o), Exclusive), Use(BpState(b), Exclusive),
     Glance(Protection(o), Exclusive)]
  }

  /** How the handlers get the object of the running thread. */
  function OwnThread(known: bool): seq<Event> {
    Under(ThreadMapLock, Shared, [Use(ThreadMap, Shared)]) +
    if known then [] else Under(ThreadMapLock, Exclusive, [Use(ThreadMap, Shared), Use(ThreadMap, Exclusive)])
  }

  /** sigtrap_handler */
  function Handler(b: nat, known: bool): seq<Event> {
    OwnThread(known) + Under(TreeLock, Exclusive, [Use(Tree, Shared)]) +
    Under(BpLock(b), Exclusive, [Use(BpState(b), Shared)])
  }

  /** object_parse_mmap: one lookup per executable line, and one append per new object. */
  function ParseMmap(added: seq<bool>): seq<Event> {
    if added == [] then []
    else
      LookUp() + (if added[0] then Under(ObjectLock, Exclusive, [Use(Objects, Exclusive)]) else []) +
      ParseMmap(added[1..])
  }

  /** entrypoint_trap_handler of entry breakpoint `b`: the first time it loads the objects, sets entry_hit and reads the
      breakpoint's slot, all without a lock of its own. */
  function EntryHandler(b: nat, known: bool, first: Option<seq<bool>>): seq<Event> {
    OwnThread(known) + [Glance(EntryHit, Shared)] +
    match first
    case None => []
    case Some(added) => ParseMmap(added) + [Glance(EntryHit, Exclusive), Glance(BpState(b), Shared)]
  }

  datatype Call =
    | Add(b: nat, path: AddPath)
    | EnableOrDisable(b: nat, o: nat, changes: bool)
    | Trap(b: nat, known: bool)
    | EntryTrap(b: nat, known: bool, first: Option<seq<bool>>)
    | Load(added: seq<bool>)

  function CallTrace(c: Call): seq<Event> {
    match c
    case Add(b, path) => BreakpointAdd(b, path)
    case EnableOrDisable(b, o, changes) => Patch(b, o, changes)
    case Trap(b, known) => Handler(b, known)
    case EntryTrap(b, known, first) => EntryHandler(b, known, first)
    case Load(added) => ParseMmap(added)
  }

  function Program(calls: seq<Call>): seq<Event> {
    if calls == [] then [] else CallTrace(calls[0]) + Program(calls[1..])
  }

  // ---- the lock order and what the locks guard ----

  function Rank(l: Lock): nat {
    match l
    case BpLock(_) => 0
    case SetLock(_) => 2
    case _ => 1
  }

  /** Every lock held ranks below `r`. */
  predicate Below(held: Held, r: nat) {
    forall l :: l in held ==> Rank(l) < r
  }

  /** The lock that guards a piece of state; two have none. */
  function Guard(c: Cell): Option<Lock> {
    match c
    case BpState(b) => Some(BpLock(b))
    case Objects => Some(ObjectLock)
    case Tree => Some(TreeLock)
    case Sets => Some(SetsLock)
    case SetState(p) => Some(SetLock(p))
    case Chain(o) => Some(ChainLock(o))
    case ThreadMap => Some(ThreadMapLock)
    case _ => None
  }

  /** The guard is held, exclusively for a write. */
  predicate Guarded(held: Held, c: Cell, m: Mode) {
    Guard(c).Some? && Guard(c).value in held && (m.Exclusive? ==> held[Guard(c).value].Exclusive?)
  }

  /** The accesses that are made without a lock: whatever has none, and reads of a tree node or a breakpoint. */
  predicate Bare(c: Cell, m: Mode) {
    Guard(c).None? || (m.Shared? && (c.Tree? || c.BpState?))
  }

  /** The locks held after a trace that takes locks in rank order, releases only what it holds and makes its accesses
      under the lock that guards them, but for those that are bare. */
  function After(es: seq<Event>, held: Held): Option<Held> {
    if es == [] then Some(held)
    else match es[0]
      case Acq(l, m) => if Below(held, Rank(l)) then After(es[1..], held[l := m]) else None
      case Rel(l) => if l in held then After(es[1..], held - {l}) else None
      case Use(c, m) => if Guarded(held, c, m) then After(es[1..], held) else None
      case Glance(c, m) => if Bare(c, m) then After(es[1..], held) else None
  }

  lemma {:induction false} AfterConcat(a: seq<Event>, b: seq<Event>, held: Held)
    ensures After(a + b, held) == if After(a, held).Some? then After(b, After(a, held).value) else None
  {
    if a == [] {
      assert a + b == b;
    } else {
      assert (a + b)[1..] == a[1..] + b;
      match a[0]
      case Acq(l, m) => AfterConcat(a[1..], b, held[l := m]);
      case Rel(l) => AfterConcat(a[1..], b, held - {l});
      case _ => AfterConcat(a[1..], b, held);
    }
  }

  /** A trace that keeps the rules from `held` and gives back exactly what it took. */
  predicate Neutral(es: seq<Event>, held: Held) {
    After(es, held) == Some(held)
  }

  lemma NeutralConcat(a: seq<Event>, b: seq<Event>, held: Held)
    requires Neutral(a, held) && Neutral(b, held)
    ensures Neutral(a + b, held)
  {
    AfterConcat(a, b, held);
  }

  lemma NeutralEmpty(held: Held)
    ensures Neutral([], held)
  {
  }

  lemma NeutralUse(c: Cell, m: Mode, held: Held)
    requires Guarded(held, c, m)
    ensures Neutral([Use(c, m)], held)
  {
    assert [Use(c, m)][1..] == [];
  }

  lemma NeutralGlance(c: Cell, m: Mode, held: Held)
    requires Bare(c, m)
    ensures Neutral([Glance(c, m)], held)
  {
    assert [Glance(c, m)][1..] == [];
  }

  lemma AfterAcq(l: Lock, m: Mode, held: Held)
    requires Below(held, Rank(l))
    ensures After([Acq(l, m)], held) == Some(held[l := m])
  {
  }

  lemma AfterRel(l: Lock, held: Held)
    requires l in held
    ensures After([Rel(l)], held) == Some(held - {l})
  {
  }

  /** What is neutral with a lock is neutral under it. */
  lemma UnderNeutral(l: Lock, m: Mode, body: seq<Event>, held: Held)
    requires Below(held, Rank(l)) && Neutral(body, held[l := m])
    ensures Neutral(Under(l, m, body), held)
  {
    AfterAcq(l, m, held);
    AfterRel(l, held[l := m]);
    AfterConcat([Acq(l, m)], body, held);
    AfterConcat([Acq(l, m)] + body, [Rel(l)], held);
    assert l !in held && held[l := m] - {l} == held;
  }

  /** One access under the lock that guards it. */
  lemma OneUse(l: Lock, m: Mode, c: Cell, a: Mode, held: Held)
    requires Below(held, Rank(l)) && Guard(c) == Some(l) && (a.Exclusive? ==> m.Exclusive?)
    ensures Neutral(Under(l, m, [Use(c, a)]), held)
  {
    NeutralUse(c, a, held[l := m]);
    UnderNeutral(l, m, [Use(c, a)], held);
  }

  // ---- every call keeps the rules ----

  lemma {:induction false} ScanNeutral(ps: seq<nat>, held: Held)
    requires Below(held, 2) && SetsLock in held
    ensures Neutral(Scan(ps), held)
  {
    if ps == [] {
    } else {
      hide After;
      var look, full := [Use(Sets, Shared)], Under(SetLock(ps[0]), Exclusive, [Use(SetState(ps[0]), Shared)]);
      NeutralUse(Sets, Shared, held);
      OneUse(SetLock(ps[0]), Exclusive, SetState(ps[0]), Shared, held);
      NeutralConcat(look, full, held);
      ScanNeutral(ps[1..], held);
      NeutralConcat(look + full, Scan(ps[1..]), held);
    }
  }

  /** The hand-over: the set mutex outlives the read lock, and the set is written under it. */
  lemma HandOver(at: nat, held: Held)
    requires Below(held, 1)
    ensures After(Found(at), held[SetsLock := Shared]) == Some(held)
  {
    var h1 := held[SetsLock := Shared];
    var h2 := h1[SetLock(at) := Exclusive];
    var h3 := h2 - {SetsLock};
    assert SetsLock !in held && SetLock(at) !in held && h3 - {SetLock(at)} == held;
    NeutralUse(Sets, Shared, h1);
    AfterAcq(SetLock(at), Exclusive, h1);
    NeutralUse(SetState(at), Shared, h2);
    AfterRel(SetsLock, h2);
    NeutralUse(SetState(at), Exclusive, h3);
    AfterRel(SetLock(at), h3);
    hide After;
    var es := [Use(Sets, Shared)];
    AfterConcat(es, [Acq(SetLock(at), Exclusive)], h1);
    es := es + [Acq(SetLock(at), Exclusive)];
    AfterConcat(es, [Use(SetState(at), Shared)], h1);
    es := es + [Use(SetState(at), Shared)];
    AfterConcat(es, [Rel(SetsLock)], h1);
    es := es + [Rel(SetsLock)];
    AfterConcat(es, [Use(SetState(at), Exclusive)], h1);
    es := es + [Use(SetState(at), Exclusive)];
    AfterConcat(es, [Rel(SetLock(at))], h1);
    assert Found(at) == es + [Rel(SetLock(at))];
  }

  lemma {:induction false} SlotAllocNeutral(path: AllocPath, held: Held)
    requires Below(held, 1)
    ensures Neutral(SlotAlloc(path), held)
  {
    hide After, Found, Scan;
    var h1 := held[SetsLock := Shared];
    var ps := path.scanned;
    ScanNeutral(ps, h1);
    match path
    case Hit(_, at) =>
      AfterAcq(SetsLock, Shared, held);
      AfterConcat([Acq(SetsLock, Shared)], Scan(ps), held);
      HandOver(at, held);
      AfterConcat([Acq(SetsLock, Shared)] + Scan(ps), Found(at), held);
    case Miss(_, retry) =>
      var look := Under(SetsLock, Shared, Scan(ps) + [Use(Sets, Shared)]);
      var grow := Under(SetsLock, Exclusive, [Use(Sets, Exclusive)]);
      NeutralUse(Sets, Shared, h1);
      NeutralConcat(Scan(ps), [Use(Sets, Shared)], h1);
      UnderNeutral(SetsLock, Shared, Scan(ps) + [Use(Sets, Shared)], held);
      OneUse(SetsLock, Exclusive, Sets, Exclusive, held);
      NeutralConcat(look, grow, held);
      SlotAllocNeutral(retry, held);
      NeutralConcat(look + grow, SlotAlloc(retry), held);
  }

  lemma LookUpNeutral(held: Held)
    requires Below(held, 1)
    ensures Neutral(LookUp(), held)
  {
    OneUse(ObjectLock, Exclusive, Objects, Shared, held);
  }

  lemma InsertNeutral(is_new: bool, held: Held)
    requires Below(held, 1)
    ensures Neutral(Insert(is_new), held)
  {
    hide After;
    var h := held[TreeLock := Exclusive];
    NeutralUse(Tree, Shared, h);
    NeutralUse(Tree, Exclusive, h);
    NeutralEmpty(h);
    NeutralConcat([Use(Tree, Shared)], if is_new then [Use(Tree, Exclusive)] else [], h);
    UnderNeutral(TreeLock, Exclusive, [Use(Tree, Shared)] + if is_new then [Use(Tree, Exclusive)] else [], held);
  }

  lemma EnchainNeutral(b: nat, o: nat, held: Held)
    requires Below(held, 1) && Guarded(held, BpState(b), Exclusive)
    ensures Neutral(Enchain(b, o), held)
  {
    hide After;
    var h := held[ChainLock(o) := Exclusive];
    NeutralUse(Chain(o), Exclusive, h);
    NeutralUse(BpState(b), Exclusive, h);
    NeutralConcat([Use(Chain(o), Exclusive)], [Use(BpState(b), Exclusive)], h);
    assert [Use(Chain(o), Exclusive)] + [Use(BpState(b), Exclusive)] ==
           [Use(Chain(o), Exclusive), Use(BpState(b), Exclusive)];
    UnderNeutral(ChainLock(o), Exclusive, [Use(Chain(o), Exclusive), Use(BpState(b), Exclusive)], held);
  }

  lemma InsideNeutral(b: nat, path: AddPath, held: Held)
    requires Below(held, 1) && Guarded(held, BpState(b), Exclusive)
    ensures Neutral(Inside(b, path), held)
  {
    hide After, LookUp, Insert, Enchain, SlotAlloc, Neutral, Below, Guarded;
    LookUpNeutral(held);
    InsertNeutral(true, held);
    InsertNeutral(false, held);
    NeutralConcat(LookUp(), Insert(true), held);
    match path
    case NoObject =>
    case NotAllowed =>
    case Duplicate => NeutralConcat(LookUp(), Insert(false), held);
    case WithoutSlot(o) =>
      EnchainNeutral(b, o, held);
      NeutralConcat(LookUp() + Insert(true), Enchain(b, o), held);
    case WithSlot(alloc, o) =>
      SlotGiven(b, alloc, held);
      EnchainNeutral(b, o, held);
      var es := LookUp() + Insert(true) + SlotAlloc(alloc) + [Use(BpState(b), Exclusive)];
      NeutralConcat(es, Insert(true), held);
      NeutralConcat(es + Insert(true), Enchain(b, o), held);
    case Collision(alloc, _) =>
      SlotGiven(b, alloc, held);
      var es := LookUp() + Insert(true) + SlotAlloc(alloc) + [Use(BpState(b), Exclusive)];
      NeutralConcat(es, Insert(false), held);
  }

  lemma SlotGiven(b: nat, alloc: AllocPath, held: Held)
    requires Below(held, 1) && Guarded(held, BpState(b), Exclusive) && Neutral(LookUp() + Insert(true), held)
    ensures Neutral(LookUp() + Insert(true) + SlotAlloc(alloc) + [Use(BpState(b), Exclusive)], held)
  {
    hide After, LookUp, Insert, SlotAlloc;
    SlotAllocNeutral(alloc, held);
    NeutralUse(BpState(b), Exclusive, held);
    NeutralConcat(LookUp() + Insert(true), SlotAlloc(alloc), held);
    NeutralConcat(LookUp() + Insert(true) + SlotAlloc(alloc), [Use(BpState(b), Exclusive)], held);
  }

  /** breakpoint_add keeps the rules and releases all of its locks on every return path. */
  lemma AddNeutral(b: nat, path: AddPath)
    ensures Neutral(BreakpointAdd(b, path), map[])
  {
    hide After, Inside;
    var h: Held := map[];
    var glance, locked := [Glance(BpState(b), Shared)], Under(BpLock(b), Exclusive, Inside(b, path));
    NeutralGlance(BpState(b), Shared, h);
    InsideNeutral(b, path, h[BpLock(b) := Exclusive]);
    UnderNeutral(BpLock(b), Exclusive, Inside(b, path), h);
    NeutralConcat(glance, locked, h);
    if path.Collision? {
      OneUse(SetLock(path.p), Exclusive, SetState(path.p), Exclusive, h);
      NeutralConcat(glance, SlotFree(path.p), h);
      NeutralConcat(glance + locked, glance + SlotFree(path.p), h);
    } else {
      NeutralEmpty(h);
      NeutralConcat(glance + locked, [], h);
    }
  }

  lemma StoreNeutral(b: nat, o: nat, held: Held)
    requires Guarded(held, BpState(b), Exclusive)
    ensures Neutral(Store(b, o), held)
  {
    hide After;
    var use, open := [Use(BpState(b), Exclusive)], [Glance(Protection(o), Exclusive)];
    NeutralUse(BpState(b), Exclusive, held);
    NeutralGlance(Protection(o), Exclusive, held);
    NeutralConcat(use, open, held);
    NeutralConcat(use + open, use + open, held);
    assert Store(b, o) == use + open + (use + open);
  }

  /** So do breakpoint_enable and breakpoint_disable, whether or not the flag changes. */
  lemma PatchNeutral(b: nat, o: nat, changes: bool)
    ensures Neutral(Patch(b, o, changes), map[])
  {
    hide After, Store;
    var h: Held := map[];
    var h1 := h[BpLock(b) := Exclusive];
    var body := [Use(BpState(b), Shared)] + if changes then Store(b, o) else [];
    NeutralGlance(Tree, Shared, h);
    NeutralUse(BpState(b), Shared, h1);
    StoreNeutral(b, o, h1);
    NeutralEmpty(h1);
    NeutralConcat([Use(BpState(b), Shared)], if changes then Store(b, o) else [], h1);
    UnderNeutral(BpLock(b), Exclusive, body, h);
    NeutralConcat([Glance(Tree, Shared)], Under(BpLock(b), Exclusive, body), h);
  }

  lemma {:induction false} ParseNeutral(added: seq<bool>)
    ensures Neutral(ParseMmap(added), map[])
  {
    hide After, LookUp;
    NeutralEmpty(map[]);
    if added == [] {
    } else {
      var append := Under(ObjectLock, Exclusive, [Use(Objects, Exclusive)]);
      LookUpNeutral(map[]);
      OneUse(ObjectLock, Exclusive, Objects, Exclusive, map[]);
      NeutralConcat(LookUp(), if added[0] then append else [], map[]);
      ParseNeutral(added[1..]);
      NeutralConcat(LookUp() + (if added[0] then append else []), ParseMmap(added[1..]), map[]);
    }
  }

  lemma OwnThreadNeutral(known: bool)
    ensures Neutral(OwnThread(known), map[])
  {
    hide After;
    var h: Held := map[];
    var h1 := h[ThreadMapLock := Exclusive];
    var add := [Use(ThreadMap, Shared)] + [Use(ThreadMap, Exclusive)];
    OneUse(ThreadMapLock, Shared, ThreadMap, Shared, h);
    NeutralUse(ThreadMap, Shared, h1);
    NeutralUse(ThreadMap, Exclusive, h1);
    NeutralConcat([Use(ThreadMap, Shared)], [Use(ThreadMap, Exclusive)], h1);
    UnderNeutral(ThreadMapLock, Exclusive, add, h);
    NeutralEmpty(h);
    assert add == [Use(ThreadMap, Shared), Use(ThreadMap, Exclusive)];
    NeutralConcat(Under(ThreadMapLock, Shared, [Use(ThreadMap, Shared)]),
                  if known then [] else Under(ThreadMapLock, Exclusive, add), h);
  }

  /** So does the trap handler. */
  lemma HandlerNeutral(b: nat, known: bool)
    ensures Neutral(Handler(b, known), map[])
  {
    hide After, OwnThread;
    var find, bp := Under(TreeLock, Exclusive, [Use(Tree, Shared)]),
                    Under(BpLock(b), Exclusive, [Use(BpState(b), Shared)]);
    OwnThreadNeutral(known);
    OneUse(TreeLock, Exclusive, Tree, Shared, map[]);
    OneUse(BpLock(b), Exclusive, BpState(b), Shared, map[]);
    NeutralConcat(OwnThread(known), find, map[]);
    NeutralConcat(OwnThread(known) + find, bp, map[]);
  }

  lemma EntryNeutral(b: nat, known: bool, first: Option<seq<bool>>)
    ensures Neutral(EntryHandler(b, known, first), map[])
  {
    hide After, OwnThread, ParseMmap;
    var own := OwnThread(known) + [Glance(EntryHit, Shared)];
    OwnThreadNeutral(known);
    NeutralGlance(EntryHit, Shared, map[]);
    NeutralConcat(OwnThread(known), [Glance(EntryHit, Shared)], map[]);
    match first
    case None =>
      NeutralEmpty(map[]);
      NeutralConcat(own, [], map[]);
    case Some(added) =>
      var last := [Glance(EntryHit, Exclusive)] + [Glance(BpState(b), Shared)];
      ParseNeutral(added);
      NeutralGlance(EntryHit, Exclusive, map[]);
      NeutralGlance(BpState(b), Shared, map[]);
      NeutralConcat([Glance(EntryHit, Exclusive)], [Glance(BpState(b), Shared)], map[]);
      NeutralConcat(ParseMmap(added), last, map[]);
      NeutralConcat(own, ParseMmap(added) + last, map[]);
      assert last == [Glance(EntryHit, Exclusive), Glance(BpState(b), Shared)];
  }

  /** Every call, on every path, takes its locks in order, makes its accesses under the lock that guards them, but for
      the bare ones, and releases all of its locks. */
  lemma CallNeutral(c: Call)
    ensures Neutral(CallTrace(c), map[])
  {
    hide After, BreakpointAdd, Patch, Handler, EntryHandler, ParseMmap;
    match c
    case Add(b, path) => AddNeutral(b, path);
    case EnableOrDisable(b, o, changes) => PatchNeutral(b, o, changes);
    case Trap(b, known) => HandlerNeutral(b, known);
    case EntryTrap(b, known, first) => EntryNeutral(b, known, first);
    case Load(added) => ParseNeutral(added);
  }

  lemma {:induction false} ProgramNeutral(calls: seq<Call>)
    ensures Neutral(Program(calls), map[])
  {
    hide After, CallTrace;
    NeutralEmpty(map[]);
    if calls == [] {
    } else {
      CallNeutral(calls[0]);
      ProgramNeutral(calls[1..]);
      NeutralConcat(CallTrace(calls[0]), Program(calls[1..]), map[]);
    }
  }

  // ---- many threads ----

  datatype Thread = Thread(todo: seq<Event>, held: Held)

  type System = map<Tid, Thread>

  /** Someone else holds the lock in a way that excludes taking it. */
  predicate HeldAgainst(s: System, t: Tid, u: Tid, l: Lock, m: Mode) {
    u in s && u != t && l in s[u].held && (m.Exclusive? || s[u].held[l].Exclusive?)
  }

  ghost predicate Waits(s: System, t: Tid, u: Tid) {
    t in s && s[t].todo != [] && s[t].todo[0].Acq? && HeldAgainst(s, t, u, s[t].todo[0].l, s[t].todo[0].m)
  }

  ghost predicate CanStep(s: System, t: Tid) {
    t in s && s[t].todo != [] && forall u :: !Waits(s, t, u)
  }

  function Next(th: Thread): Thread
    requires th.todo != []
  {
    match th.todo[0]
    case Acq(l, m) => Thread(th.todo[1..], th.held[l := m])
    case Rel(l) => Thread(th.todo[1..], th.held - {l})
    case _ => Thread(th.todo[1..], th.held)
  }

  ghost predicate Step(s: System, t: Tid, s': System) {
    CanStep(s, t) && s' == s[t := Next(s[t])]
  }

  /** Each thread will take the rest of its locks in order and end with none, and exclusive locks are held once. */
  ghost predicate Inv(s: System) {
    && (forall t :: t in s ==> After(s[t].todo, s[t].held) == Some(map[]))
    && (forall t, u, l :: t in s && u in s && t != u && l in s[t].held && l in s[u].held ==>
          s[t].held[l].Shared? && s[u].held[l].Shared?)
  }

  lemma StepKeeps(s: System, t: Tid, s': System)
    requires Inv(s) && Step(s, t, s')
    ensures Inv(s')
  {
    assert After(s[t].todo, s[t].held) == Some(map[]);
    forall u, v, l | u in s' && v in s' && u != v && l in s'[u].held && l in s'[v].held
      ensures s'[u].held[l].Shared? && s'[v].held[l].Shared?
    {
      assert !Waits(s, t, if u == t then v else u);
    }
  }

  ghost predicate Init(s: System) {
    forall t :: t in s ==> s[t].held == map[] && exists calls :: s[t].todo == Program(calls)
  }

  lemma InitInv(s: System)
    requires Init(s)
    ensures Inv(s)
  {
    forall t | t in s
      ensures After(s[t].todo, s[t].held) == Some(map[])
    {
      var calls :| s[t].todo == Program(calls);
      ProgramNeutral(calls);
    }
  }

  ghost predicate Run(tr: seq<System>, who: seq<Tid>) {
    |tr| == |who| + 1 && Init(tr[0]) && forall i :: 0 <= i < |who| ==> Step(tr[i], who[i], tr[i + 1])
  }

  lemma {:induction false} RunInv(tr: seq<System>, who: seq<Tid>, i: nat)
    requires Run(tr, who) && i < |tr|
    ensures Inv(tr[i])
  {
    if i == 0 {
      InitInv(tr[0]);
    } else {
      RunInv(tr, who, i - 1);
      assert Step(tr[i - 1], who[i - 1], tr[i]);
      StepKeeps(tr[i - 1], who[i - 1], tr[i]);
    }
  }

  /** A thread that is waited for either does not wait itself, or waits for a lock of higher rank. */
  lemma WaitsUpwards(s: System, t: Tid, u: Tid)
    requires Inv(s) && Waits(s, t, u)
    ensures s[u].todo != [] && (s[u].todo[0].Acq? ==> Rank(s[t].todo[0].l) < Rank(s[u].todo[0].l))
  {
    assert After(s[u].todo, s[u].held) == Some(map[]);
  }

  /** Whenever some thread has not finished, some thread can step. */
  lemma {:induction false} SomeoneCanStep(s: System, t: Tid) returns (u: Tid)
    requires Inv(s) && t in s && s[t].todo != []
    ensures CanStep(s, u)
    decreases 3 - if s[t].todo[0].Acq? then Rank(s[t].todo[0].l) else 3
  {
    if v :| Waits(s, t, v) {
      WaitsUpwards(s, t, v);
      u := SomeoneCanStep(s, v);
    } else {
      u := t;
    }
  }

  /** No run reaches a deadlock. */
  lemma NoDeadlock(tr: seq<System>, who: seq<Tid>, i: nat, t: Tid)
    requires Run(tr, who) && i < |tr| && t in tr[i] && tr[i][t].todo != []
    ensures exists u :: CanStep(tr[i], u)
  {
    RunInv(tr, who, i);
    var u := SomeoneCanStep(tr[i], t);
  }

  /** The rank of the lock that a thread wants next. */
  function Wanted(s: System, t: Tid): nat {
    if t in s && s[t].todo != [] && s[t].todo[0].Acq? then Rank(s[t].todo[0].l) else 0
  }

  lemma {:induction false} RanksClimb(s: System, c: seq<Tid>, i: nat)
    requires Inv(s) && |c| > 0 && i < |c| && forall j :: 0 <= j < |c| ==>
      Waits(s, c[j], c[if j + 1 < |c| then j + 1 else 0])
    ensures Wanted(s, c[i]) >= Wanted(s, c[0]) + i
  {
    assert Waits(s, c[i], c[if i + 1 < |c| then i + 1 else 0]);
    if i == 0 {
    } else {
      RanksClimb(s, c, i - 1);
      assert Waits(s, c[i - 1], c[i]);
      WaitsUpwards(s, c[i - 1], c[i]);
    }
  }

  /** `c` is a circle of threads each of which waits for the next. */
  ghost predicate Circle(s: System, c: seq<Tid>) {
    |c| > 0 && forall j :: 0 <= j < |c| ==> Waits(s, c[j], c[if j + 1 < |c| then j + 1 else 0])
  }

  /** In no run do threads wait for each other in a circle. */
  lemma NoCyclicWait(tr: seq<System>, who: seq<Tid>, i: nat, c: seq<Tid>)
    requires Run(tr, who) && i < |tr|
    ensures !Circle(tr[i], c)
  {
    RunInv(tr, who, i);
    var s := tr[i];
    if Circle(s, c) {
      RanksClimb(s, c, |c| - 1);
      assert Waits(s, c[|c| - 1], c[0]);
      assert Waits(s, c[0], c[if 1 < |c| then 1 else 0]);
      WaitsUpwards(s, c[|c| - 1], c[0]);
    }
  }

  // ---- accesses that meet ----

  /** Thread `t` is about to access `c`. */
  predicate AtAccess(s: System, t: Tid, c: Cell, m: Mode) {
    t in s && s[t].todo != [] && (s[t].todo[0] == Use(c, m) || s[t].todo[0] == Glance(c, m))
  }

  /** Two threads are about to access the same state, and one of them writes. */
  predicate Conflict(s: System, t: Tid, u: Tid, c: Cell, m: Mode, n: Mode) {
    t != u && AtAccess(s, t, c, m) && AtAccess(s, u, c, n) && (m.Exclusive? || n.Exclusive?)
  }

  /** A write under the guard and a read without it, of a tree node or a breakpoint. */
  predicate ReadMeetsWrite(s: System, t: Tid, u: Tid, c: Cell) {
    && t in s && s[t].todo != [] && s[t].todo[0] == Glance(c, Shared) && (c.Tree? || c.BpState?)
    && u in s && s[u].todo != [] && s[u].todo[0] == Use(c, Exclusive)
  }

  /** In no run are two threads at conflicting accesses, except to the protection of text and to entry_hit, which no
      lock guards, and where one reads a tree node or a breakpoint without the lock while the other writes with it.  In
      particular the object list, the slot sets, their bitmaps, the chains and the thread hash are never raced for. */
  lemma NoRace(tr: seq<System>, who: seq<Tid>, i: nat, t: Tid, u: Tid, c: Cell, m: Mode, n: Mode)
    requires Run(tr, who) && i < |tr| && Conflict(tr[i], t, u, c, m, n)
    ensures c.Protection? || c.EntryHit? || ReadMeetsWrite(tr[i], t, u, c) || ReadMeetsWrite(tr[i], u, t, c)
  {
    RunInv(tr, who, i);
    var s := tr[i];
    assert After(s[t].todo, s[t].held) == Some(map[]) && After(s[u].todo, s[u].held) == Some(map[]);
  }
}
