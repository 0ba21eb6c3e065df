/** The out-of-line single-step protocol: threads trap at patched words, run the displaced instruction
    in a slot, trap again behind it and resume, while other threads add, enable and disable breakpoints. */
module Stepping {
  import opened Common

  type Addr = nat
  type Word = nat
  type Tid = nat
  type Obj = nat

  const BRK: Word := 0xD4200060

  /** The process being traced: its text, the region reserved for slots, and what an instruction does
      to a thread's registers and the shared data, as a function of the word and the address it runs at;
      `entry` is the address of the breakpoint that lib_init puts at the entry point, `found` tells which object
      object_get_by_address finds for an address, and `home` which object's pages hold it.  The two differ only at
      the end of a text range. */
  datatype World<!R, !D> = World(
    text: map<Addr, Word>, slots: Addr -> bool, exec: (Word, Addr, R, D) -> (Addr, R, D), entry: Addr,
    found: Addr -> Obj, home: Addr -> Obj)

  /** Aligned text without a brk of its own, apart from the slots, and no jump into a slot. */
  ghost predicate Sane<R(!new), D(!new)>(w: World<R, D>) {
    && (forall a :: a in w.text ==> a % 4 == 0 && w.text[a] != BRK && !w.slots(a))
    && (forall a, r, d :: a in w.text ==> !w.slots(w.exec(w.text[a], a, r, d).0))
  }

  /** An instruction that goes on to the next word and does not depend on where it runs. */
  ghost predicate FallsThrough<R(!new), D(!new)>(w: World<R, D>, i: Word) {
    forall pc: Addr, pc': Addr, r, d ::
      && w.exec(i, pc, r, d).0 == pc + 4
      && w.exec(i, pc, r, d).1 == w.exec(i, pc', r, d).1 && w.exec(i, pc, r, d).2 == w.exec(i, pc', r, d).2
  }

  // ---- the program on its own ----

  datatype Plain<R, D> = Plain(threads: map<Tid, (Addr, R)>, data: D)

  ghost predicate PlainStep<R, D>(w: World<R, D>, s: Plain<R, D>, t: Tid, s': Plain<R, D>) {
    && t in s.threads && s.threads[t].0 in w.text
    && var (pc, r) := s.threads[t];
       var (pc', r', d') := w.exec(w.text[pc], pc, r, s.data);
       s' == Plain(s.threads[t := (pc', r')], d')
  }

  // ---- the program with breakpoints ----

  /** Where an operation that holds the breakpoint's lock is. */
  datatype Phase =
    | Inserted   // breakpoint_add: bp_enter is in the tree
    | Allocated  // breakpoint_add: slot_alloc has returned
    | Copied     // breakpoint_add: the slot is written
    | Ready      // lock free
    | Arming     // breakpoint_enable: flag set, text still write-protected
    | ArmOpen    // breakpoint_enable: protection removed, text not yet written
    | Armed      // breakpoint_enable: text written, protection not yet back
    | Disarming  // breakpoint_disable: flag cleared, text still write-protected
    | DisarmOpen // breakpoint_disable: protection removed, text not yet restored
    | Disarmed   // breakpoint_disable: text restored, protection not yet back

  datatype Bp = Bp(phase: Phase, enabled: bool, slot: Addr)

  /** Where a thread is: in the program, at the start of one of the two handlers, or before the locked part. */
  datatype Mode = Running | AtEntry | Trapped | Found(b: Addr)

  /** The handler that is installed for SIGTRAP. */
  datatype Handler = Entry | Sigtrap

  /** `single` is the breakpoint that the thread is single-stepping; breakpoints are named by their enter address. */
  datatype Thread<R> = Thread(pc: Addr, regs: R, mode: Mode, single: Option<Addr>)

  /** The objects whose text is writable, and whether a store has hit write-protected text. */
  datatype Pages = Pages(open: set<Obj>, faulted: bool)

  datatype State<R, D> = State(
    mem: map<Addr, Word>, data: D, index: map<Addr, Addr>, bps: map<Addr, Bp>,
    threads: map<Tid, Thread<R>>, handler: Handler, hit: bool, pages: Pages, failed: bool)

  function Put<R, D>(s: State<R, D>, t: Tid, th: Thread<R>): State<R, D> {
    s.(threads := s.threads[t := th])
  }

  function PutBp<R, D>(s: State<R, D>, b: Addr, p: Bp): State<R, D> {
    s.(bps := s.bps[b := p])
  }

  // -- threads --

  /** The thread runs the word at its pc. */
  ghost predicate Exec<R, D>(w: World<R, D>, s: State<R, D>, t: Tid, s': State<R, D>) {
    && t in s.threads && s.threads[t].mode.Running? && s.threads[t].pc in s.mem && s.mem[s.threads[t].pc] != BRK
    && var th := s.threads[t];
       var (pc', r', d') := w.exec(s.mem[th.pc], th.pc, th.regs, s.data);
       s' == Put(s, t, th.(pc := pc', regs := r')).(data := d')
  }

  /** The thread meets brk: SIGTRAP, with the pc at the brk, starts the handler that is installed. */
  ghost predicate Trap<R, D>(s: State<R, D>, t: Tid, s': State<R, D>) {
    && t in s.threads && s.threads[t].mode.Running? && s.threads[t].pc in s.mem && s.mem[s.threads[t].pc] == BRK
    && s' == Put(s, t, Caught(s, s.threads[t]))
  }

  function Caught<R, D>(s: State<R, D>, th: Thread<R>): Thread<R> {
    th.(mode := if s.handler.Entry? then AtEntry else Trapped)
  }

  /** entrypoint_trap_handler, which looks neither at the trap address nor at what the thread is doing: the first
      run sends the thread into the slot of the entry breakpoint, the second one behind it. */
  ghost predicate EntryAct<R, D>(w: World<R, D>, s: State<R, D>, t: Tid, s': State<R, D>) {
    && t in s.threads && s.threads[t].mode.AtEntry?
    && var th := s.threads[t];
       if w.entry !in s.bps then s' == s.(failed := true)
       else if s.hit then
         s' == Put(s, t, th.(mode := Running, pc := w.entry + 4, single := None)).(handler := Sigtrap)
       else
         s' == Put(s, t, th.(mode := Running, pc := s.bps[w.entry].slot, single := Some(w.entry))).(hit := true)
  }

  /** sigtrap_handler: breakpoint_find, and the assertion that it found something. */
  ghost predicate Lookup<R, D>(s: State<R, D>, t: Tid, s': State<R, D>) {
    && t in s.threads && s.threads[t].mode.Trapped?
    && var th := s.threads[t];
       if th.pc in s.index then s' == Put(s, t, th.(mode := Found(s.index[th.pc])))
       else s' == s.(failed := true)
  }

  /** sigtrap_handler: the part under the lock of the breakpoint, and the assertion that the second trap is at the
      same breakpoint. */
  ghost predicate Act<R, D>(s: State<R, D>, t: Tid, s': State<R, D>) {
    && t in s.threads && s.threads[t].mode.Found?
    && var th := s.threads[t];
       && th.mode.b in s.bps && s.bps[th.mode.b].phase.Ready?
       && if th.single.Some? then
            if th.single.value != th.mode.b then s' == s.(failed := true)
            else s' == Put(s, t, th.(mode := Running, pc := th.mode.b + 4, single := None))
          else
            s' == Put(s, t, th.(mode := Running, pc := s.bps[th.mode.b].slot, single := Some(th.mode.b)))
  }

  // -- breakpoint operations --

  /** breakpoint_add takes the lock and inserts bp_enter. */
  ghost predicate AddEnter<R(!new), D(!new)>(w: World<R, D>, s: State<R, D>, b: Addr, s': State<R, D>) {
    && b in w.text && FallsThrough(w, w.text[b]) && b !in s.index && b !in s.bps
    && s' == PutBp(s, b, Bp(Inserted, false, 0)).(index := s.index[b := b])
  }

  /** A slot that no breakpoint has, which is what slot_alloc returns. */
  ghost predicate FreshSlot<R, D>(w: World<R, D>, s: State<R, D>, slot: Addr) {
    && slot % 8 == 0 && w.slots(slot) && w.slots(slot + 4)
    && forall b :: b in s.bps && !s.bps[b].phase.Inserted? ==> s.bps[b].slot != slot
  }

  /** slot_alloc returns to breakpoint_add. */
  ghost predicate AddSlot<R, D>(w: World<R, D>, s: State<R, D>, b: Addr, s': State<R, D>) {
    && b in s.bps && s.bps[b].phase.Inserted?
    && exists slot :: FreshSlot(w, s, slot) && s' == PutBp(s, b, Bp(Allocated, false, slot))
  }

  /** breakpoint_add copies the instruction into the slot and puts brk behind it. */
  ghost predicate AddCopy<R, D>(s: State<R, D>, b: Addr, s': State<R, D>) {
    && b in s.bps && s.bps[b].phase.Allocated? && b in s.mem
    && var slot := s.bps[b].slot;
       s' == PutBp(s, b, Bp(Copied, false, slot)).(mem := s.mem[slot := s.mem[b]][slot + 4 := BRK])
  }

  /** breakpoint_add inserts bp_return and releases the lock; a collision would be the -4 exit. */
  ghost predicate AddReturn<R, D>(s: State<R, D>, b: Addr, s': State<R, D>) {
    && b in s.bps && s.bps[b].phase.Copied?
    && if s.bps[b].slot + 4 in s.index then s' == s.(failed := true)
       else s' == PutBp(s, b, s.bps[b].(phase := Ready)).(index := s.index[s.bps[b].slot + 4 := b])
  }

  /** object_memory_unlock: the text of the object found for `b` becomes writable. */
  function Opened<R, D>(w: World<R, D>, s: State<R, D>, b: Addr): State<R, D> {
    s.(pages := s.pages.(open := s.pages.open + {w.found(b)}))
  }

  /** object_memory_lock */
  function Shut<R, D>(w: World<R, D>, s: State<R, D>, b: Addr): State<R, D> {
    s.(pages := s.pages.(open := s.pages.open - {w.found(b)}))
  }

  /** The store into the text at `b`, after which the breakpoint is `p`; write-protected text makes it fault. */
  function Stored<R, D>(w: World<R, D>, s: State<R, D>, b: Addr, p: Bp, v: Word): State<R, D> {
    if w.home(b) in s.pages.open then PutBp(s, b, p).(mem := s.mem[b := v])
    else s.(pages := s.pages.(faulted := true))
  }

  ghost predicate Enable<R, D>(w: World<R, D>, s: State<R, D>, b: Addr, s': State<R, D>) {
    && b in s.bps
    && var p := s.bps[b];
       match p.phase
       case Ready => !p.enabled && s' == PutBp(s, b, p.(phase := Arming, enabled := true))
       case Arming => s' == Opened(w, PutBp(s, b, p.(phase := ArmOpen)), b)
       case ArmOpen => s' == Stored(w, s, b, p.(phase := Armed), BRK)
       case Armed => s' == Shut(w, PutBp(s, b, p.(phase := Ready)), b)
       case _ => false
  }

  ghost predicate Disable<R, D>(w: World<R, D>, s: State<R, D>, b: Addr, s': State<R, D>) {
    && b in s.bps
    && var p := s.bps[b];
       match p.phase
       case Ready => p.enabled && s' == PutBp(s, b, p.(phase := Disarming, enabled := false))
       case Disarming => s' == Opened(w, PutBp(s, b, p.(phase := DisarmOpen)), b)
       case DisarmOpen => p.slot in s.mem && s' == Stored(w, s, b, p.(phase := Disarmed), s.mem[p.slot])
       case Disarmed => s' == Shut(w, PutBp(s, b, p.(phase := Ready)), b)
       case _ => false
  }

  ghost predicate ThreadStep<R, D>(w: World<R, D>, s: State<R, D>, t: Tid, s': State<R, D>) {
    Exec(w, s, t, s') || Trap(s, t, s') || EntryAct(w, s, t, s') || Lookup(s, t, s') || Act(s, t, s')
  }

  ghost predicate BpStep<R(!new), D(!new)>(w: World<R, D>, s: State<R, D>, b: Addr, s': State<R, D>) {
    || AddEnter(w, s, b, s') || AddSlot(w, s, b, s') || AddCopy(s, b, s') || AddReturn(s, b, s')
    || Enable(w, s, b, s') || Disable(w, s, b, s')
  }

  // ---- the invariant ----

  /** The word that breakpoint `p` keeps at an address whose original word is `orig`. */
  function Patched(p: Bp, orig: Word): Word {
    if p.phase.Armed? || p.phase.Disarming? || p.phase.DisarmOpen? || (p.phase.Ready? && p.enabled) then BRK
    else orig
  }

  /** The slot holds the displaced instruction. */
  predicate Copy(p: Bp) {
    !p.phase.Inserted? && !p.phase.Allocated?
  }

  predicate HasSlot(p: Bp) {
    !p.phase.Inserted?
  }

  predicate MemOk<R, D>(w: World<R, D>, s: State<R, D>, a: Addr) {
    && (a in w.text ==> a in s.mem && s.mem[a] == if a in s.bps then Patched(s.bps[a], w.text[a]) else w.text[a])
    && (a in s.mem ==> a in w.text || w.slots(a))
  }

  ghost predicate BpOk<R(!new), D(!new)>(w: World<R, D>, s: State<R, D>, b: Addr)
    requires b in s.bps
  {
    var p := s.bps[b];
    && b in w.text && FallsThrough(w, w.text[b]) && b in s.index && s.index[b] == b
    && (p.phase.Inserted? || p.phase.Allocated? || p.phase.Copied? ==> !p.enabled)
    && FlagOk(p)
    && (HasSlot(p) ==> p.slot % 8 == 0 && w.slots(p.slot) && w.slots(p.slot + 4))
    && (Copy(p) ==>
          && p.slot in s.mem && s.mem[p.slot] == w.text[b] && p.slot + 4 in s.mem && s.mem[p.slot + 4] == BRK)
    && (Copy(p) && !p.phase.Copied? ==> p.slot + 4 in s.index && s.index[p.slot + 4] == b)
  }

  /** The keys of the tree are the enter addresses and the return addresses of finished breakpoints. */
  predicate KeyOk<R, D>(s: State<R, D>, a: Addr) {
    a in s.index ==>
      && s.index[a] in s.bps
      && var p := s.bps[s.index[a]]; a == s.index[a] || (Copy(p) && !p.phase.Copied? && a == p.slot + 4)
  }

  predicate PairOk<R, D>(s: State<R, D>, b: Addr, b': Addr) {
    b in s.bps && b' in s.bps && b != b' && HasSlot(s.bps[b]) && HasSlot(s.bps[b']) ==> s.bps[b].slot != s.bps[b'].slot
  }

  /** A finished breakpoint. */
  predicate Added<R, D>(s: State<R, D>, b: Addr) {
    b in s.bps && Copy(s.bps[b]) && !s.bps[b].phase.Copied?
  }

  predicate ThreadOk<R, D>(w: World<R, D>, s: State<R, D>, t: Tid)
    requires t in s.threads
  {
    var th := s.threads[t];
    && (th.single.None? ==> !w.slots(th.pc))
    && (th.single.None? && !th.mode.Running? ==> Added(s, th.pc))
    && (th.single.None? && th.mode.Found? ==> th.mode.b == th.pc)
    && (th.single.Some? ==>
          && Added(s, th.single.value)
          && var slot := s.bps[th.single.value].slot;
          && (th.pc == slot || th.pc == slot + 4)
          && (th.pc == slot ==> th.mode.Running?)
          && (th.mode.Found? ==> th.mode.b == th.single.value))
  }

  ghost predicate Core<R(!new), D(!new)>(w: World<R, D>, s: State<R, D>) {
    && !s.failed
    && (forall a :: MemOk(w, s, a))
    && (forall b :: b in s.bps ==> BpOk(w, s, b))
    && (forall a :: KeyOk(s, a))
    && (forall b, b' :: PairOk(s, b, b'))
    && (forall t :: t in s.threads ==> ThreadOk(w, s, t))
  }

  /** The entry-point handler is right about a thread. */
  predicate EntryRight<R, D>(w: World<R, D>, s: State<R, D>, th: Thread<R>) {
    if s.hit then th.single == Some(w.entry) else th.single.None? && th.pc == w.entry
  }

  /** At most one thread is in the entry-point handler, which is right about it. */
  predicate GateOk<R, D>(w: World<R, D>, s: State<R, D>) {
    forall t :: t in s.threads && s.threads[t].mode.AtEntry? ==>
      EntryRight(w, s, s.threads[t]) && forall u :: u in s.threads && s.threads[u].mode.AtEntry? ==> u == t
  }

  ghost predicate Inv<R(!new), D(!new)>(w: World<R, D>, s: State<R, D>) {
    Core(w, s) && GateOk(w, s)
  }

  /** What can be checked before a thread traps: while the entry-point handler is installed only one thread traps,
      and only at the entry breakpoint, first at its address and then behind its slot. */
  predicate OrderlyTrap<R, D>(w: World<R, D>, s: State<R, D>, t: Tid) {
    s.handler.Entry? && t in s.threads ==>
      EntryRight(w, s, s.threads[t]) && forall u :: u in s.threads ==> !s.threads[u].mode.AtEntry?
  }

  // ---- thread steps ----

  /** What a step of `t` relies on. */
  ghost predicate Near<R(!new), D(!new)>(w: World<R, D>, s: State<R, D>, t: Tid) {
    && Sane(w) && !s.failed && t in s.threads && ThreadOk(w, s, t)
    && var th := s.threads[t];
    && MemOk(w, s, th.pc) && KeyOk(s, th.pc)
    && (th.pc in s.bps ==> BpOk(w, s, th.pc))
    && (th.pc in s.index && s.index[th.pc] in s.bps ==> BpOk(w, s, s.index[th.pc]))
    && (th.single.Some? ==> BpOk(w, s, th.single.value))
    && (th.mode.Found? && th.mode.b in s.bps ==> BpOk(w, s, th.mode.b))
    && (th.pc in s.index && th.single.Some? ==> PairOk(s, s.index[th.pc], th.single.value))
  }

  lemma NearHolds<R(!new), D(!new)>(w: World<R, D>, s: State<R, D>, t: Tid)
    requires Sane(w) && Core(w, s) && t in s.threads
    ensures Near(w, s, t)
  {
    hide MemOk, KeyOk, PairOk, BpOk;
    assert ThreadOk(w, s, t);
  }

  lemma ExecKeeps<R(!new), D(!new)>(w: World<R, D>, s: State<R, D>, t: Tid, s': State<R, D>)
    requires Near(w, s, t) && Exec(w, s, t, s')
    ensures !s'.failed && t in s'.threads && ThreadOk(w, s', t)
  {
  }

  lemma TrapKeeps<R(!new), D(!new)>(w: World<R, D>, s: State<R, D>, t: Tid, s': State<R, D>)
    requires Near(w, s, t) && Trap(s, t, s')
    ensures !s'.failed && t in s'.threads && ThreadOk(w, s', t)
  {
  }

  lemma EntryActKeeps<R(!new), D(!new)>(w: World<R, D>, s: State<R, D>, t: Tid, s': State<R, D>)
    requires Near(w, s, t) && EntryAct(w, s, t, s') && EntryRight(w, s, s.threads[t])
    ensures !s'.failed && t in s'.threads && ThreadOk(w, s', t)
  {
    var th := s.threads[t];
    assert w.exec(w.text[w.entry], w.entry, th.regs, s.data).0 == w.entry + 4;
  }

  /** The first assertion of the handler never fails. */
  lemma LookupKeeps<R(!new), D(!new)>(w: World<R, D>, s: State<R, D>, t: Tid, s': State<R, D>)
    requires Near(w, s, t) && Lookup(s, t, s')
    ensures !s'.failed && t in s'.threads && ThreadOk(w, s', t)
  {
  }

  /** The second assertion of the handler never fails. */
  lemma ActKeeps<R(!new), D(!new)>(w: World<R, D>, s: State<R, D>, t: Tid, s': State<R, D>)
    requires Near(w, s, t) && Act(s, t, s')
    ensures !s'.failed && t in s'.threads && ThreadOk(w, s', t)
  {
    var th := s.threads[t];
    assert w.exec(w.text[th.mode.b], th.mode.b, th.regs, s.data).0 == th.mode.b + 4;
  }

  /** A step of `t` changes nothing else but the data and the handler. */
  ghost predicate OnlyThread<R, D>(s: State<R, D>, t: Tid, s': State<R, D>) {
    && s'.mem == s.mem && s'.index == s.index && s'.bps == s.bps && s'.pages == s.pages && t in s.threads
    && s'.threads.Keys == s.threads.Keys && forall u :: u in s.threads && u != t ==> s'.threads[u] == s.threads[u]
  }

  /** After the step the thread is not newly in the entry-point handler, and what that goes by is the same. */
  ghost predicate StaysOut<R, D>(s: State<R, D>, t: Tid, s': State<R, D>) {
    && OnlyThread(s, t, s') && (s'.threads[t].mode.AtEntry? ==> s'.threads == s.threads)
    && (s'.hit == s.hit || s.threads[t].mode.AtEntry?)
  }

  lemma ExecStaysOut<R, D>(w: World<R, D>, s: State<R, D>, t: Tid, s': State<R, D>)
    requires Exec(w, s, t, s')
    ensures StaysOut(s, t, s')
  {
  }

  lemma EntryActStaysOut<R, D>(w: World<R, D>, s: State<R, D>, t: Tid, s': State<R, D>)
    requires EntryAct(w, s, t, s')
    ensures StaysOut(s, t, s')
  {
  }

  lemma LookupStaysOut<R, D>(s: State<R, D>, t: Tid, s': State<R, D>)
    requires Lookup(s, t, s')
    ensures StaysOut(s, t, s')
  {
  }

  lemma ActStaysOut<R, D>(s: State<R, D>, t: Tid, s': State<R, D>)
    requires Act(s, t, s')
    ensures StaysOut(s, t, s')
  {
  }

  lemma OtherStaysOut<R, D>(w: World<R, D>, s: State<R, D>, t: Tid, s': State<R, D>)
    requires ThreadStep(w, s, t, s') && !Trap(s, t, s')
    ensures StaysOut(s, t, s')
  {
    hide Trap, Lookup, Act, EntryAct, Exec, StaysOut;
    if
    case Exec(w, s, t, s') => ExecStaysOut(w, s, t, s');
    case EntryAct(w, s, t, s') => EntryActStaysOut(w, s, t, s');
    case Lookup(s, t, s') => LookupStaysOut(s, t, s');
    case Act(s, t, s') => ActStaysOut(s, t, s');
  }

  lemma OnlyThisThread<R, D>(w: World<R, D>, s: State<R, D>, t: Tid, s': State<R, D>)
    requires ThreadStep(w, s, t, s')
    ensures OnlyThread(s, t, s')
  {
    if !Trap(s, t, s') {
      hide Lookup, Act, EntryAct, Exec;
      OtherStaysOut(w, s, t, s');
    } else {
      hide ThreadStep;
    }
  }

  lemma ThreadStepKeeps<R(!new), D(!new)>(w: World<R, D>, s: State<R, D>, t: Tid, s': State<R, D>)
    requires Near(w, s, t) && ThreadStep(w, s, t, s') && (EntryAct(w, s, t, s') ==> EntryRight(w, s, s.threads[t]))
    ensures !s'.failed && t in s'.threads && ThreadOk(w, s', t)
  {
    hide Near, ThreadOk, Exec, Trap, EntryAct, Lookup, Act, EntryRight;
    if
    case Exec(w, s, t, s') => ExecKeeps(w, s, t, s');
    case Trap(s, t, s') => TrapKeeps(w, s, t, s');
    case EntryAct(w, s, t, s') => EntryActKeeps(w, s, t, s');
    case Lookup(s, t, s') => LookupKeeps(w, s, t, s');
    case Act(s, t, s') => ActKeeps(w, s, t, s');
  }

  lemma TrapGate<R, D>(w: World<R, D>, s: State<R, D>, t: Tid, s': State<R, D>)
    requires GateOk(w, s) && Trap(s, t, s') && OrderlyTrap(w, s, t)
    ensures GateOk(w, s')
  {
    assert forall u :: u in s'.threads && u != t ==> s'.threads[u] == s.threads[u];
  }

  /** Only a trap brings a thread to the entry-point handler, and only that handler changes what it goes by. */
  lemma GateKept<R(!new), D(!new)>(w: World<R, D>, s: State<R, D>, t: Tid, s': State<R, D>)
    requires GateOk(w, s) && ThreadStep(w, s, t, s') && (Trap(s, t, s') ==> OrderlyTrap(w, s, t))
    ensures GateOk(w, s')
  {
    if Trap(s, t, s') {
      TrapGate(w, s, t, s');
    } else {
      OtherStaysOut(w, s, t, s');
      hide ThreadStep;
    }
  }

  /** Facts about memory, breakpoints and keys do not mention threads or data. */
  lemma SamePatches<R(!new), D(!new)>(w: World<R, D>, s: State<R, D>, s': State<R, D>, a: Addr, b: Addr)
    requires s'.mem == s.mem && s'.index == s.index && s'.bps == s.bps
    ensures MemOk(w, s, a) == MemOk(w, s', a) && KeyOk(s, a) == KeyOk(s', a) && PairOk(s, a, b) == PairOk(s', a, b)
    ensures b in s.bps ==> BpOk(w, s, b) == BpOk(w, s', b)
    ensures forall u :: u in s.threads && u in s'.threads && s'.threads[u] == s.threads[u] ==>
      ThreadOk(w, s, u) == ThreadOk(w, s', u)
  {
  }

  lemma GateRight<R, D>(w: World<R, D>, s: State<R, D>, t: Tid, s': State<R, D>)
    requires GateOk(w, s)
    ensures EntryAct(w, s, t, s') ==> EntryRight(w, s, s.threads[t])
  {
  }

  lemma ThreadStepInv<R(!new), D(!new)>(w: World<R, D>, s: State<R, D>, t: Tid, s': State<R, D>)
    requires Sane(w) && Inv(w, s) && ThreadStep(w, s, t, s') && (Trap(s, t, s') ==> OrderlyTrap(w, s, t))
    ensures Inv(w, s')
  {
    GateKept(w, s, t, s');
    GateRight(w, s, t, s');
    OnlyThisThread(w, s, t, s');
    hide MemOk, KeyOk, PairOk, BpOk, ThreadOk, Near, Sane, ThreadStep, EntryAct, GateOk, EntryRight, Trap, OrderlyTrap;
    NearHolds(w, s, t);
    ThreadStepKeeps(w, s, t, s');
    forall a
      ensures MemOk(w, s', a) && KeyOk(s', a)
    {
      SamePatches(w, s, s', a, 0);
    }
    forall b | b in s'.bps
      ensures BpOk(w, s', b)
    {
      SamePatches(w, s, s', 0, b);
    }
    forall b, b'
      ensures PairOk(s', b, b')
    {
      SamePatches(w, s, s', b, b');
    }
    SamePatches(w, s, s', 0, 0);
  }

  // ---- breakpoint steps ----

  /** What a step on `b` relies on, and what is known about a cell `a`, another breakpoint `c` and a thread `u`. */
  ghost predicate Around<R(!new), D(!new)>(w: World<R, D>, s: State<R, D>, b: Addr, a: Addr, c: Addr, u: Tid) {
    && Sane(w) && !s.failed && MemOk(w, s, b) && KeyOk(s, b) && MemOk(w, s, a) && KeyOk(s, a)
    && (b in s.bps ==> BpOk(w, s, b) && MemOk(w, s, s.bps[b].slot) && KeyOk(s, s.bps[b].slot + 4))
    && (b in s.bps && s.bps[b].slot + 4 in s.index ==>
          s.index[s.bps[b].slot + 4] in s.bps && PairOk(s, b, s.index[s.bps[b].slot + 4]))
    && (b in s.bps && s.bps[b].slot + 4 in s.index ==> BpOk(w, s, s.index[s.bps[b].slot + 4]))
    && (c in s.bps ==> BpOk(w, s, c)) && PairOk(s, b, c) && PairOk(s, c, b)
    && (u in s.threads ==> ThreadOk(w, s, u))
  }

  ghost predicate AroundAfter<R(!new), D(!new)>(w: World<R, D>, s: State<R, D>, b: Addr, a: Addr, c: Addr, u: Tid) {
    && !s.failed && MemOk(w, s, a) && KeyOk(s, a) && (b in s.bps ==> BpOk(w, s, b))
    && (c in s.bps ==> BpOk(w, s, c)) && PairOk(s, b, c) && PairOk(s, c, b)
    && (u in s.threads ==> ThreadOk(w, s, u))
  }

  lemma AddEnterKeeps<R(!new), D(!new)>(w: World<R, D>, s: State<R, D>, b: Addr, s': State<R, D>, a: Addr, c: Addr,
                                        u: Tid)
    requires Around(w, s, b, a, c, u) && AddEnter(w, s, b, s')
    ensures AroundAfter(w, s', b, a, c, u)
  {
  }

  lemma AddCopyKeeps<R(!new), D(!new)>(w: World<R, D>, s: State<R, D>, b: Addr, s': State<R, D>, a: Addr, c: Addr,
                                       u: Tid)
    requires Around(w, s, b, a, c, u) && AddCopy(s, b, s')
    ensures AroundAfter(w, s', b, a, c, u)
  {
  }

  lemma AddSlotKeeps<R(!new), D(!new)>(w: World<R, D>, s: State<R, D>, b: Addr, s': State<R, D>, a: Addr, c: Addr,
                                       u: Tid)
    requires Around(w, s, b, a, c, u) && AddSlot(w, s, b, s')
    ensures AroundAfter(w, s', b, a, c, u)
  {
  }

  /** The return address never collides: the -4 exit is not taken. */
  lemma AddReturnKeeps<R(!new), D(!new)>(w: World<R, D>, s: State<R, D>, b: Addr, s': State<R, D>, a: Addr, c: Addr,
                                         u: Tid)
    requires Around(w, s, b, a, c, u) && AddReturn(s, b, s')
    ensures AroundAfter(w, s', b, a, c, u)
  {
    assert s.bps[b].slot + 4 !in s.index by { NoReturnYet(w, s, b, a, c, u); }
    hide FallsThrough, Sane;
    assert Patched(s'.bps[b], w.text[b]) == Patched(s.bps[b], w.text[b]);
    hide Patched;
  }

  lemma NoReturnYet<R(!new), D(!new)>(w: World<R, D>, s: State<R, D>, b: Addr, a: Addr, c: Addr, u: Tid)
    requires Around(w, s, b, a, c, u) && b in s.bps && s.bps[b].phase.Copied?
    ensures s.bps[b].slot + 4 !in s.index
  {
    hide MemOk, FallsThrough, ThreadOk;
  }

  /** The breakpoint changes, and the text stays as it is. */
  predicate SameWord(p: Bp, p': Bp, orig: Word) {
    p'.slot == p.slot && Copy(p') && !p'.phase.Copied? && FlagOk(p') && Patched(p', orig) == Patched(p, orig)
  }

  predicate FlagOk(p: Bp) {
    && (p.phase.Arming? || p.phase.ArmOpen? || p.phase.Armed? ==> p.enabled)
    && (p.phase.Disarming? || p.phase.DisarmOpen? || p.phase.Disarmed? ==> !p.enabled)
  }

  lemma FlagKeeps<R(!new), D(!new)>(w: World<R, D>, s: State<R, D>, b: Addr, p: Bp, s': State<R, D>,
                                    a: Addr, c: Addr, u: Tid)
    requires Around(w, s, b, a, c, u) && Added(s, b) && b in w.text && SameWord(s.bps[b], p, w.text[b])
    requires s' == PutBp(s, b, p).(pages := s'.pages)
    ensures AroundAfter(w, s', b, a, c, u)
  {
    hide FallsThrough, Sane, Patched;
  }

  lemma StoreKeeps<R(!new), D(!new)>(w: World<R, D>, s: State<R, D>, b: Addr, p: Bp, v: Word,
                                     a: Addr, c: Addr, u: Tid)
    requires Around(w, s, b, a, c, u) && Added(s, b) && p.slot == s.bps[b].slot && Copy(p) && !p.phase.Copied?
    requires FlagOk(p) && b in w.text && v == Patched(p, w.text[b])
    ensures AroundAfter(w, Stored(w, s, b, p, v), b, a, c, u)
  {
    if w.home(b) in s.pages.open {
      WriteKeeps(w, s, b, p, v, a, c, u);
    } else {
      FaultKeeps(w, s, b, a, c, u);
    }
  }

  lemma WriteKeeps<R(!new), D(!new)>(w: World<R, D>, s: State<R, D>, b: Addr, p: Bp, v: Word,
                                     a: Addr, c: Addr, u: Tid)
    requires Around(w, s, b, a, c, u) && Added(s, b) && p.slot == s.bps[b].slot && Copy(p) && !p.phase.Copied?
    requires FlagOk(p) && b in w.text && v == Patched(p, w.text[b])
    ensures AroundAfter(w, PutBp(s, b, p).(mem := s.mem[b := v]), b, a, c, u)
  {
    hide FallsThrough, Patched;
  }

  lemma FaultKeeps<R(!new), D(!new)>(w: World<R, D>, s: State<R, D>, b: Addr, a: Addr, c: Addr, u: Tid)
    requires Around(w, s, b, a, c, u)
    ensures AroundAfter(w, s.(pages := s.pages.(faulted := true)), b, a, c, u)
  {
    hide FallsThrough, Patched, Sane;
  }

  lemma EnableKeeps<R(!new), D(!new)>(w: World<R, D>, s: State<R, D>, b: Addr, s': State<R, D>, a: Addr, c: Addr,
                                      u: Tid)
    requires Around(w, s, b, a, c, u) && Enable(w, s, b, s')
    ensures AroundAfter(w, s', b, a, c, u)
  {
    var p := s.bps[b];
    assert b in w.text && FlagOk(p);
    hide Around, AroundAfter, Stored;
    match p.phase
    case Ready => FlagKeeps(w, s, b, p.(phase := Arming, enabled := true), s', a, c, u);
    case Arming => FlagKeeps(w, s, b, p.(phase := ArmOpen), s', a, c, u);
    case ArmOpen => StoreKeeps(w, s, b, p.(phase := Armed), BRK, a, c, u);
    case Armed => FlagKeeps(w, s, b, p.(phase := Ready), s', a, c, u);
  }

  lemma DisableKeeps<R(!new), D(!new)>(w: World<R, D>, s: State<R, D>, b: Addr, s': State<R, D>, a: Addr, c: Addr,
                                       u: Tid)
    requires Around(w, s, b, a, c, u) && Disable(w, s, b, s')
    ensures AroundAfter(w, s', b, a, c, u)
  {
    var p := s.bps[b];
    assert b in w.text && FlagOk(p) && (Copy(p) ==> p.slot in s.mem && s.mem[p.slot] == w.text[b]);
    hide Around, AroundAfter, Stored;
    match p.phase
    case Ready => FlagKeeps(w, s, b, p.(phase := Disarming, enabled := false), s', a, c, u);
    case Disarming => FlagKeeps(w, s, b, p.(phase := DisarmOpen), s', a, c, u);
    case DisarmOpen => StoreKeeps(w, s, b, p.(phase := Disarmed), s.mem[p.slot], a, c, u);
    case Disarmed => FlagKeeps(w, s, b, p.(phase := Ready), s', a, c, u);
  }

  lemma BpStepKeeps<R(!new), D(!new)>(w: World<R, D>, s: State<R, D>, b: Addr, s': State<R, D>, a: Addr, c: Addr,
                                      u: Tid)
    requires Around(w, s, b, a, c, u) && BpStep(w, s, b, s')
    ensures AroundAfter(w, s', b, a, c, u)
  {
    hide Around, AroundAfter;
    if
    case AddEnter(w, s, b, s') => AddEnterKeeps(w, s, b, s', a, c, u);
    case AddSlot(w, s, b, s') => AddSlotKeeps(w, s, b, s', a, c, u);
    case AddCopy(s, b, s') => AddCopyKeeps(w, s, b, s', a, c, u);
    case AddReturn(s, b, s') => AddReturnKeeps(w, s, b, s', a, c, u);
    case Enable(w, s, b, s') => EnableKeeps(w, s, b, s', a, c, u);
    case Disable(w, s, b, s') => DisableKeeps(w, s, b, s', a, c, u);
  }

  lemma AroundHolds<R(!new), D(!new)>(w: World<R, D>, s: State<R, D>, b: Addr, a: Addr, c: Addr, u: Tid)
    requires Sane(w) && Core(w, s)
    ensures Around(w, s, b, a, c, u)
  {
    hide MemOk, BpOk, PairOk, ThreadOk, Sane;
    assert KeyOk(s, b) && KeyOk(s, a);
    if b in s.bps {
      assert KeyOk(s, s.bps[b].slot + 4);
    }
  }

  /** What a breakpoint step leaves alone. */
  ghost predicate OnlyBp<R, D>(s: State<R, D>, b: Addr, s': State<R, D>) {
    && s'.threads == s.threads && s'.data == s.data && s'.handler == s.handler && s'.hit == s.hit
    && (s'.bps == s.bps || (b in s'.bps && s'.bps == s.bps[b := s'.bps[b]]))
    && (Added(s, b) ==> Added(s', b) && s'.bps[b].slot == s.bps[b].slot)
  }

  lemma OnlyPut<R, D>(s: State<R, D>, b: Addr, p: Bp, s': State<R, D>)
    requires s'.bps == s.bps[b := p] && (Added(s, b) ==> Copy(p) && !p.phase.Copied? && p.slot == s.bps[b].slot)
    requires s'.threads == s.threads && s'.data == s.data && s'.handler == s.handler && s'.hit == s.hit
    ensures OnlyBp(s, b, s')
  {
  }

  lemma OnlyPages<R, D>(s: State<R, D>, b: Addr, p: Bp, pages: Pages)
    requires Copy(p) && !p.phase.Copied? && (b in s.bps ==> p.slot == s.bps[b].slot)
    ensures OnlyBp(s, b, PutBp(s, b, p).(pages := pages))
  {
  }

  lemma OnlyStored<R, D>(w: World<R, D>, s: State<R, D>, b: Addr, p: Bp, v: Word)
    requires Copy(p) && !p.phase.Copied? && (b in s.bps ==> p.slot == s.bps[b].slot)
    ensures OnlyBp(s, b, Stored(w, s, b, p, v))
  {
    if w.home(b) in s.pages.open {
      OnlyPut(s, b, p, Stored(w, s, b, p, v));
    }
  }

  lemma OnlyThisBpAdd<R(!new), D(!new)>(w: World<R, D>, s: State<R, D>, b: Addr, s': State<R, D>)
    requires AddEnter(w, s, b, s') || AddSlot(w, s, b, s')
    ensures OnlyBp(s, b, s')
  {
    hide FallsThrough, FreshSlot, OnlyBp;
    OnlyPut(s, b, s'.bps[b], s');
  }

  lemma OnlyThisBpCopy<R, D>(s: State<R, D>, b: Addr, s': State<R, D>)
    requires AddCopy(s, b, s')
    ensures OnlyBp(s, b, s')
  {
    hide OnlyBp;
    OnlyPut(s, b, s'.bps[b], s');
  }

  lemma OnlyThisBpReturn<R, D>(s: State<R, D>, b: Addr, s': State<R, D>)
    requires AddReturn(s, b, s')
    ensures OnlyBp(s, b, s')
  {
    if s.bps[b].slot + 4 !in s.index {
      hide OnlyBp;
      OnlyPut(s, b, s'.bps[b], s');
    }
  }

  lemma OnlyThisBpEnable<R, D>(w: World<R, D>, s: State<R, D>, b: Addr, s': State<R, D>)
    requires Enable(w, s, b, s')
    ensures OnlyBp(s, b, s')
  {
    hide OnlyBp, Stored, Added;
    var p := s.bps[b];
    match p.phase
    case Ready => OnlyPages(s, b, p.(phase := Arming, enabled := true), s.pages);
    case Arming => OnlyPages(s, b, p.(phase := ArmOpen), Opened(w, s, b).pages);
    case ArmOpen => OnlyStored(w, s, b, p.(phase := Armed), BRK);
    case Armed => OnlyPages(s, b, p.(phase := Ready), Shut(w, s, b).pages);
  }

  lemma OnlyThisBpDisable<R, D>(w: World<R, D>, s: State<R, D>, b: Addr, s': State<R, D>)
    requires Disable(w, s, b, s')
    ensures OnlyBp(s, b, s')
  {
    hide OnlyBp, Stored, Added;
    var p := s.bps[b];
    match p.phase
    case Ready => OnlyPages(s, b, p.(phase := Disarming, enabled := false), s.pages);
    case Disarming => OnlyPages(s, b, p.(phase := DisarmOpen), Opened(w, s, b).pages);
    case DisarmOpen => OnlyStored(w, s, b, p.(phase := Disarmed), s.mem[p.slot]);
    case Disarmed => OnlyPages(s, b, p.(phase := Ready), Shut(w, s, b).pages);
  }

  lemma OnlyThisBp<R(!new), D(!new)>(w: World<R, D>, s: State<R, D>, b: Addr, s': State<R, D>)
    requires BpStep(w, s, b, s')
    ensures OnlyBp(s, b, s')
  {
    hide OnlyBp, AddEnter, AddSlot, AddCopy, AddReturn, Enable, Disable;
    if
    case AddEnter(w, s, b, s') || AddSlot(w, s, b, s') => OnlyThisBpAdd(w, s, b, s');
    case AddCopy(s, b, s') => OnlyThisBpCopy(s, b, s');
    case AddReturn(s, b, s') => OnlyThisBpReturn(s, b, s');
    case Enable(w, s, b, s') => OnlyThisBpEnable(w, s, b, s');
    case Disable(w, s, b, s') => OnlyThisBpDisable(w, s, b, s');
  }

  lemma OtherPairs<R, D>(s: State<R, D>, s': State<R, D>, c: Addr, c': Addr)
    requires (c in s'.bps <==> c in s.bps) && (c in s.bps ==> s'.bps[c] == s.bps[c])
    requires (c' in s'.bps <==> c' in s.bps) && (c' in s.bps ==> s'.bps[c'] == s.bps[c'])
    ensures PairOk(s, c, c') == PairOk(s', c, c')
  {
  }

  lemma BpStepInv<R(!new), D(!new)>(w: World<R, D>, s: State<R, D>, b: Addr, s': State<R, D>)
    requires Sane(w) && Inv(w, s) && BpStep(w, s, b, s')
    ensures Inv(w, s')
  {
    hide MemOk, KeyOk, PairOk, BpOk, ThreadOk, Around, Sane, BpStep;
    OnlyThisBp(w, s, b, s');
    forall a
      ensures !s'.failed && MemOk(w, s', a) && KeyOk(s', a)
    {
      AroundHolds(w, s, b, a, b, 0);
      BpStepKeeps(w, s, b, s', a, b, 0);
    }
    forall c | c in s'.bps
      ensures BpOk(w, s', c)
    {
      AroundHolds(w, s, b, 0, c, 0);
      BpStepKeeps(w, s, b, s', 0, c, 0);
    }
    forall c, c'
      ensures PairOk(s', c, c')
    {
      if c == b || c' == b {
        var o := if c == b then c' else c;
        AroundHolds(w, s, b, 0, o, 0);
        BpStepKeeps(w, s, b, s', 0, o, 0);
      } else {
        OtherPairs(s, s', c, c');
      }
    }
    forall u | u in s'.threads
      ensures ThreadOk(w, s', u)
    {
      AroundHolds(w, s, b, 0, b, u);
      BpStepKeeps(w, s, b, s', 0, b, u);
    }
    assert MemOk(w, s', 0);
  }

  // ---- refinement ----

  /** A thread inside a slot is, for the program, at the breakpoint or just behind it. */
  function PlainPc<R, D>(s: State<R, D>, th: Thread<R>): Addr {
    if th.single.None? then th.pc
    else if th.single.value in s.bps && th.pc == s.bps[th.single.value].slot then th.single.value
    else th.single.value + 4
  }

  function Abs<R, D>(s: State<R, D>): Plain<R, D> {
    Plain(map t | t in s.threads :: (PlainPc(s, s.threads[t]), s.threads[t].regs), s.data)
  }

  /** Running an instruction, in place or in its slot, is one step of the plain program. */
  lemma ExecRefines<R(!new), D(!new)>(w: World<R, D>, s: State<R, D>, t: Tid, s': State<R, D>)
    requires Near(w, s, t) && Exec(w, s, t, s')
    ensures PlainStep(w, Abs(s), t, Abs(s'))
  {
    hide KeyOk, PairOk;
    var th, th' := s.threads[t], s'.threads[t];
    var pc := PlainPc(s, th);
    assert pc in w.text && s.mem[th.pc] == w.text[pc];
    assert w.exec(w.text[pc], pc, th.regs, s.data) == (PlainPc(s', th'), th'.regs, s'.data);
    var p := w.exec(w.text[pc], pc, th.regs, s.data);
    assert Abs(s').threads == Abs(s).threads[t := (p.0, p.1)];
  }

  /** Traps and handler runs are invisible to the plain program. */
  lemma TrapRefines<R(!new), D(!new)>(w: World<R, D>, s: State<R, D>, t: Tid, s': State<R, D>)
    requires Near(w, s, t) && (Trap(s, t, s') || Lookup(s, t, s') || Act(s, t, s')) && !s'.failed
    ensures Abs(s') == Abs(s)
  {
    hide PairOk, FallsThrough, Sane, MemOk;
    var th := s'.threads[t];
    assert PlainPc(s', th) == PlainPc(s, s.threads[t]);
    assert th.regs == s.threads[t].regs && s' == Put(s, t, th);
    hide Near, Trap, Lookup, Act;
    OneThreadMoves(s, t, th, s');
  }

  /** A run of the entry-point handler is invisible to the plain program exactly if the thread was where the handler
      takes it to be: at the entry breakpoint, the first time, and behind it, the second time. */
  lemma EntryActExact<R(!new), D(!new)>(w: World<R, D>, s: State<R, D>, t: Tid, s': State<R, D>)
    requires Sane(w) && Core(w, s) && EntryAct(w, s, t, s') && w.entry in s.bps
    ensures Abs(s') == Abs(s) <==> PlainPc(s, s.threads[t]) == if s.hit then w.entry + 4 else w.entry
    ensures EntryRight(w, s, s.threads[t]) ==> Abs(s') == Abs(s)
  {
    NearHolds(w, s, t);
    hide Core, PairOk, FallsThrough, Sane, MemOk, KeyOk;
    assert EntryRight(w, s, s.threads[t]) ==> PlainPc(s, s.threads[t]) == if s.hit then w.entry + 4 else w.entry;
    hide Near, ThreadOk, BpOk, EntryRight;
    var th := s'.threads[t];
    assert th.regs == s.threads[t].regs && s' == Put(s, t, th).(handler := s'.handler, hit := s'.hit);
    assert PlainPc(s', th) == if s.hit then w.entry + 4 else w.entry;
    hide EntryAct;
    OneThreadMoves(s, t, th, s');
  }

  /** A change of one thread alone shows exactly if it changes where the thread is for the plain program. */
  lemma OneThreadMoves<R, D>(s: State<R, D>, t: Tid, th: Thread<R>, s': State<R, D>)
    requires t in s.threads && th.regs == s.threads[t].regs
    requires s' == Put(s, t, th).(handler := s'.handler, hit := s'.hit)
    ensures Abs(s') == Abs(s) <==> PlainPc(s', th) == PlainPc(s, s.threads[t])
  {
    assert Abs(s).threads[t].0 == PlainPc(s, s.threads[t]) && Abs(s').threads[t].0 == PlainPc(s', th);
    assert forall u :: u in s.threads && u != t ==> PlainPc(s', s'.threads[u]) == PlainPc(s, s.threads[u]);
    if PlainPc(s', th) == PlainPc(s, s.threads[t]) {
      assert Abs(s').threads == Abs(s).threads;
    }
  }

  /** So are breakpoint operations. */
  lemma BpRefines<R(!new), D(!new)>(w: World<R, D>, s: State<R, D>, b: Addr, s': State<R, D>)
    requires Sane(w) && Core(w, s) && BpStep(w, s, b, s')
    ensures Abs(s') == Abs(s)
  {
    hide MemOk, KeyOk, PairOk, BpOk, BpStep;
    OnlyThisBp(w, s, b, s');
    forall t | t in s.threads
      ensures PlainPc(s', s.threads[t]) == PlainPc(s, s.threads[t])
    {
      assert ThreadOk(w, s, t);
    }
    assert Abs(s').threads == Abs(s).threads;
  }

  // ---- runs ----

  datatype Actor = OfThread(t: Tid) | OfBp(b: Addr)

  ghost predicate Step<R(!new), D(!new)>(w: World<R, D>, s: State<R, D>, who: Actor, s': State<R, D>) {
    && !s.pages.faulted
    && match who
       case OfThread(t) => ThreadStep(w, s, t, s')
       case OfBp(b) => BpStep(w, s, b, s')
  }

  ghost predicate Init<R, D>(w: World<R, D>, s: State<R, D>) {
    && s.mem == w.text && s.index == map[] && s.bps == map[] && s.handler.Entry? && !s.hit && !s.failed
    && s.pages == Pages({}, false)
    && forall t :: t in s.threads ==>
      s.threads[t].mode.Running? && s.threads[t].single.None? && !w.slots(s.threads[t].pc)
  }

  ghost predicate Run<R(!new), D(!new)>(w: World<R, D>, tr: seq<State<R, D>>, who: seq<Actor>) {
    && |tr| == |who| + 1 && Init(w, tr[0])
    && forall i :: 0 <= i < |who| ==> Step(w, tr[i], who[i], tr[i + 1])
  }

  /** Every trap under the entry-point handler is one that it is made for. */
  ghost predicate Orderly<R, D>(w: World<R, D>, tr: seq<State<R, D>>, who: seq<Actor>)
    requires |tr| == |who| + 1
  {
    forall i :: 0 <= i < |who| ==> OrderlyStep(w, tr[i], who[i], tr[i + 1])
  }

  ghost predicate OrderlyStep<R, D>(w: World<R, D>, s: State<R, D>, who: Actor, s': State<R, D>) {
    who.OfThread? && Trap(s, who.t, s') ==> OrderlyTrap(w, s, who.t)
  }

  lemma InitInv<R(!new), D(!new)>(w: World<R, D>, s: State<R, D>)
    requires Init(w, s)
    ensures Inv(w, s)
  {
  }

  lemma StepInv<R(!new), D(!new)>(w: World<R, D>, s: State<R, D>, who: Actor, s': State<R, D>)
    requires Sane(w) && Inv(w, s) && Step(w, s, who, s') && OrderlyStep(w, s, who, s')
    ensures Inv(w, s')
  {
    hide Inv, Sane, ThreadStep, BpStep, Trap, OrderlyTrap;
    match who
    case OfThread(t) => ThreadStepInv(w, s, t, s');
    case OfBp(b) => BpStepInv(w, s, b, s');
  }

  /** Over any interleaving, from the handler that lib_init installs on: no handler assertion fails and the -4 exit
      is not taken. */
  lemma {:induction false} RunSafe<R(!new), D(!new)>(w: World<R, D>, tr: seq<State<R, D>>, who: seq<Actor>, i: nat)
    requires Sane(w) && Run(w, tr, who) && Orderly(w, tr, who) && i < |tr|
    ensures Inv(w, tr[i]) && !tr[i].failed
  {
    hide Sane, Step, OrderlyStep, MemOk, BpOk, KeyOk, PairOk, GateOk;
    if i == 0 {
      InitInv(w, tr[0]);
    } else {
      RunSafe(w, tr, who, i - 1);
      assert Step(w, tr[i - 1], who[i - 1], tr[i]) && OrderlyStep(w, tr[i - 1], who[i - 1], tr[i]);
      StepInv(w, tr[i - 1], who[i - 1], tr[i]);
    }
  }

  /** The step ran an instruction of the program. */
  ghost predicate Visible<R, D>(w: World<R, D>, s: State<R, D>, who: Actor, s': State<R, D>) {
    who.OfThread? && Exec(w, s, who.t, s')
  }

  /** Every step is a step of the plain program by the same thread, or invisible to it. */
  lemma StepRefines<R(!new), D(!new)>(w: World<R, D>, s: State<R, D>, who: Actor, s': State<R, D>)
    requires Sane(w) && Inv(w, s) && Step(w, s, who, s') && OrderlyStep(w, s, who, s')
    ensures if Visible(w, s, who, s') then PlainStep(w, Abs(s), who.t, Abs(s')) else Abs(s') == Abs(s)
  {
    StepInv(w, s, who, s');
    match who
    case OfThread(t) => ThreadRefines(w, s, t, s');
    case OfBp(b) =>
      hide Sane, Core, GateOk, BpStep, Abs;
      BpRefines(w, s, b, s');
  }

  lemma ThreadRefines<R(!new), D(!new)>(w: World<R, D>, s: State<R, D>, t: Tid, s': State<R, D>)
    requires Sane(w) && Inv(w, s) && ThreadStep(w, s, t, s') && !s'.failed
    ensures if Exec(w, s, t, s') then PlainStep(w, Abs(s), t, Abs(s')) else Abs(s') == Abs(s)
  {
    OnlyThisThread(w, s, t, s');
    NearHolds(w, s, t);
    hide Sane, Core, Near, PlainStep, Exec, Trap, Lookup, Act, Abs;
    if Exec(w, s, t, s') {
      ExecRefines(w, s, t, s');
    } else if EntryAct(w, s, t, s') {
      EntryActExact(w, s, t, s');
    } else {
      TrapRefines(w, s, t, s');
    }
  }

  /** The plain states seen along a run, without the invisible steps, and the threads that made the visible ones. */
  ghost function PlainStates<R, D>(w: World<R, D>, tr: seq<State<R, D>>, who: seq<Actor>): seq<Plain<R, D>>
    requires |tr| == |who| + 1
    decreases |who|
  {
    var n := |who|;
    if n == 0 then [Abs(tr[0])]
    else PlainStates(w, tr[..n], who[..n - 1]) + if Visible(w, tr[n - 1], who[n - 1], tr[n]) then [Abs(tr[n])] else []
  }

  ghost function PlainThreads<R, D>(w: World<R, D>, tr: seq<State<R, D>>, who: seq<Actor>): seq<Tid>
    requires |tr| == |who| + 1
    decreases |who|
  {
    var n := |who|;
    if n == 0 then []
    else
      var last := if Visible(w, tr[n - 1], who[n - 1], tr[n]) then [who[n - 1].t] else [];
      PlainThreads(w, tr[..n], who[..n - 1]) + last
  }

  /** A run of the plain program, thread `ts[i]` making step `i`. */
  ghost predicate PlainRun<R, D>(w: World<R, D>, ps: seq<Plain<R, D>>, ts: seq<Tid>) {
    |ps| == |ts| + 1 && forall i :: 0 <= i < |ts| ==> PlainStep(w, ps[i], ts[i], ps[i + 1])
  }

  lemma PlainRunGrows<R, D>(w: World<R, D>, ps: seq<Plain<R, D>>, ts: seq<Tid>, p: Plain<R, D>, t: Tid)
    requires PlainRun(w, ps, ts) && PlainStep(w, ps[|ts|], t, p)
    ensures PlainRun(w, ps + [p], ts + [t])
  {
    hide PlainStep;
    var qs, us := ps + [p], ts + [t];
    forall i | 0 <= i < |us|
      ensures PlainStep(w, qs[i], us[i], qs[i + 1])
    {
      if i < |ts| {
        assert PlainStep(w, ps[i], ts[i], ps[i + 1]);
      }
    }
  }

  lemma RunPrefix<R(!new), D(!new)>(w: World<R, D>, tr: seq<State<R, D>>, who: seq<Actor>)
    requires Run(w, tr, who) && |who| > 0
    ensures Run(w, tr[..|who|], who[..|who| - 1])
    ensures Orderly(w, tr, who) ==> Orderly(w, tr[..|who|], who[..|who| - 1])
  {
    hide Step, OrderlyStep;
    var n := |who|;
    var tr', who' := tr[..n], who[..n - 1];
    forall i | 0 <= i < |who'|
      ensures Step(w, tr'[i], who'[i], tr'[i + 1])
    {
      assert Step(w, tr[i], who[i], tr[i + 1]);
    }
    if Orderly(w, tr, who) {
      forall i | 0 <= i < |who'|
        ensures OrderlyStep(w, tr'[i], who'[i], tr'[i + 1])
      {
        assert OrderlyStep(w, tr[i], who[i], tr[i + 1]);
      }
    }
  }

  /** Every instrumented run, of any threads with breakpoints added, enabled and disabled at any time,
      is a run of the original program by the same threads, from the same start to the same end. */
  lemma {:induction false} Simulation<R(!new), D(!new)>(w: World<R, D>, tr: seq<State<R, D>>, who: seq<Actor>)
    requires Sane(w) && Run(w, tr, who) && Orderly(w, tr, who)
    ensures var ps := PlainStates(w, tr, who);
      PlainRun(w, ps, PlainThreads(w, tr, who)) && ps[0] == Abs(tr[0]) && ps[|ps| - 1] == Abs(tr[|who|])
    decreases |who|
  {
    hide Sane, Step, OrderlyStep, Abs, PlainStep, Exec, Inv;
    var n := |who|;
    if n == 0 {
    } else {
      RunPrefix(w, tr, who);
      Simulation(w, tr[..n], who[..n - 1]);
      RunSafe(w, tr, who, n - 1);
      assert Step(w, tr[n - 1], who[n - 1], tr[n]) && OrderlyStep(w, tr[n - 1], who[n - 1], tr[n]);
      StepRefines(w, tr[n - 1], who[n - 1], tr[n]);
      var ps, ts := PlainStates(w, tr[..n], who[..n - 1]), PlainThreads(w, tr[..n], who[..n - 1]);
      assert tr[..n][n - 1] == tr[n - 1];
      if Visible(w, tr[n - 1], who[n - 1], tr[n]) {
        PlainRunGrows(w, ps, ts, Abs(tr[n]), who[n - 1].t);
      } else {
        assert ps + [] == ps && ts + [] == ts;
      }
    }
  }

  // ---- the patched text ----

  /** In every reachable state, where no operation is under way, the text is the original with brk at exactly the
      enabled breakpoints. */
  lemma QuietText<R(!new), D(!new)>(w: World<R, D>, tr: seq<State<R, D>>, who: seq<Actor>, i: nat, a: Addr)
    requires Sane(w) && Run(w, tr, who) && Orderly(w, tr, who) && i < |tr|
    requires a in w.text && (a in tr[i].bps ==> tr[i].bps[a].phase.Ready?)
    ensures a in tr[i].mem && tr[i].mem[a] == if a in tr[i].bps && tr[i].bps[a].enabled then BRK else w.text[a]
  {
    RunSafe(w, tr, who, i);
    hide Run, Sane, BpOk, ThreadOk, PairOk, KeyOk;
    assert MemOk(w, tr[i], a);
  }

  /** In every reachable state the slot of an added breakpoint holds the original instruction followed by brk. */
  lemma SlotContents<R(!new), D(!new)>(w: World<R, D>, tr: seq<State<R, D>>, who: seq<Actor>, i: nat, b: Addr)
    requires Sane(w) && Run(w, tr, who) && Orderly(w, tr, who) && i < |tr| && Added(tr[i], b)
    ensures var slot := tr[i].bps[b].slot;
      && b in w.text && slot in tr[i].mem && tr[i].mem[slot] == w.text[b]
      && slot + 4 in tr[i].mem && tr[i].mem[slot + 4] == BRK
  {
    RunSafe(w, tr, who, i);
    hide Run, Sane, ThreadOk, PairOk, KeyOk, MemOk;
    assert BpOk(w, tr[i], b);
  }

  /** In every reachable state the keys of the tree are exactly the enter addresses and the return addresses. */
  lemma Keys<R(!new), D(!new)>(w: World<R, D>, tr: seq<State<R, D>>, who: seq<Actor>, i: nat, a: Addr)
    requires Sane(w) && Run(w, tr, who) && Orderly(w, tr, who) && i < |tr|
    ensures a in tr[i].index <==> a in tr[i].bps || exists b :: Added(tr[i], b) && a == tr[i].bps[b].slot + 4
  {
    RunSafe(w, tr, who, i);
    hide Run, Sane, MemOk, PairOk, ThreadOk;
    var s := tr[i];
    assert KeyOk(s, a);
    if a in s.bps {
      assert BpOk(w, s, a);
    }
    if b :| Added(s, b) && a == s.bps[b].slot + 4 {
      assert BpOk(w, s, b);
    }
  }
}
