/** The ptrace breakpoints of src/: single bytes patched through 8-byte peeks and pokes that overlap. */
module X86 {
  type Addr = nat
  type Byte = nat
  type Word = nat
  type Id = nat

  const INT3: Byte := 0xCC

  function Pow256(n: nat): (r: nat)
    ensures r >= 1
  {
    if n == 0 then 1 else 256 * Pow256(n - 1)
  }

  /** The `n` bytes from `a` up, low byte first, as one number: PTRACE_PEEKTEXT. */
  function Peek(mem: map<Addr, Byte>, a: Addr, n: nat): Word
    requires forall i :: a <= i < a + n ==> i in mem
    decreases n
  {
    if n == 0 then 0 else mem[a] + 256 * Peek(mem, a + 1, n - 1)
  }

  /** PTRACE_POKETEXT */
  function Poke(mem: map<Addr, Byte>, a: Addr, w: Word, n: nat): map<Addr, Byte>
    decreases n
  {
    if n == 0 then mem else Poke(mem[a := w % 256], a + 1, w / 256, n - 1)
  }

  /** arch_make_breakpoint */
  function MakeBreakpoint(ori: Word): Word {
    ori - ori % 256 + INT3
  }

  /** arch_remove_breakpoint, after its assertion */
  function RemoveBreakpoint(instr: Word, ori: Word): Word {
    instr - instr % 256 + ori % 256
  }

  predicate Bytes(mem: map<Addr, Byte>) {
    forall a :: a in mem ==> mem[a] < 256
  }

  /** Writing back what was read changes nothing. */
  lemma {:induction false} PokePeek(mem: map<Addr, Byte>, a: Addr, n: nat)
    requires Bytes(mem) && forall i :: a <= i < a + n ==> i in mem
    ensures Poke(mem, a, Peek(mem, a, n), n) == mem
    decreases n
  {
    if n == 0 {
    } else {
      var w := Peek(mem, a, n);
      assert w % 256 == mem[a] && w / 256 == Peek(mem, a + 1, n - 1);
      assert mem[a := mem[a]] == mem;
      PokePeek(mem, a + 1, n - 1);
    }
  }

  /** Bytes below the poked range do not matter to the poke. */
  lemma {:induction false} PokeAbove(mem: map<Addr, Byte>, a: Addr, w: Word, n: nat, b: Addr, v: Byte)
    requires b < a
    ensures Poke(mem[b := v], a, w, n) == Poke(mem, a, w, n)[b := v]
    decreases n
  {
    if n == 0 {
    } else {
      assert mem[b := v][a := w % 256] == mem[a := w % 256][b := v];
      PokeAbove(mem[a := w % 256], a + 1, w / 256, n - 1, b, v);
    }
  }

  /** All eight bytes of the word at `a` are mapped. */
  predicate Readable(mem: map<Addr, Byte>, a: Addr) {
    forall i :: a <= i < a + 8 ==> i in mem
  }

  /** What ptrace returns: the word, or -1 if it is not mapped. */
  function PeekText(mem: map<Addr, Byte>, a: Addr): Word {
    if Readable(mem, a) then Peek(mem, a, 8) else Pow256(8) - 1
  }

  function PokeText(mem: map<Addr, Byte>, a: Addr, w: Word): map<Addr, Byte> {
    if Readable(mem, a) then Poke(mem, a, w, 8) else mem
  }

  lemma FailedPeek()
    ensures (Pow256(8) - 1) % 256 == 255
  {
    assert Pow256(8) == 256 * Pow256(7);
  }

  /** Reading a word, changing its low byte and writing it back changes one byte of memory. */
  lemma PatchOneByte(mem: map<Addr, Byte>, a: Addr, w: Word)
    requires Bytes(mem) && Readable(mem, a)
    requires w / 256 == Peek(mem, a, 8) / 256 && w % 256 < 256
    ensures Poke(mem, a, w, 8) == mem[a := w % 256]
  {
    var p := Peek(mem, a, 8);
    assert p / 256 == Peek(mem, a + 1, 7);
    PokePeek(mem, a + 1, 7);
    PokeAbove(mem, a + 1, w / 256, 7, a, w % 256);
  }

  // ---- breakpoints ----

  datatype Bp = Bp(address: Addr, ori: Word, enabled: bool)

  /** The bytes that breakpoints stand on. */
  ghost predicate At(bps: map<Id, Bp>, a: Addr) {
    exists id :: id in bps && bps[id].address == a && bps[id].enabled
  }

  /** Memory is the original with 0xCC at exactly the enabled breakpoints. */
  ghost predicate MemoryOk(orig: map<Addr, Byte>, mem: map<Addr, Byte>, bps: map<Id, Bp>) {
    mem.Keys == orig.Keys && forall a :: a in orig ==> mem[a] == if At(bps, a) then INT3 else orig[a]
  }

  /** Memory is the original with 0xCC at exactly the enabled breakpoints, whose saved low byte is the original one. */
  ghost predicate Patched(orig: map<Addr, Byte>, mem: map<Addr, Byte>, bps: map<Id, Bp>) {
    && MemoryOk(orig, mem, bps) && Bytes(orig)
    && (forall id, c :: id in bps && c in bps && id != c ==> bps[id].address != bps[c].address)
    && (forall id :: id in bps && bps[id].enabled ==>
          Readable(orig, bps[id].address) && bps[id].ori % 256 == orig[bps[id].address])
  }

  lemma PatchedBytes(orig: map<Addr, Byte>, mem: map<Addr, Byte>, bps: map<Id, Bp>)
    requires Patched(orig, mem, bps)
    ensures Bytes(mem)
  {
  }

  lemma SameReadable(orig: map<Addr, Byte>, mem: map<Addr, Byte>, bps: map<Id, Bp>, a: Addr)
    requires Patched(orig, mem, bps)
    ensures Readable(mem, a) <==> Readable(orig, a)
  {
  }

  /** Enabling keeps memory as it should be exactly if the whole word at the breakpoint is mapped. */
  lemma EnablePatches(orig: map<Addr, Byte>, mem: map<Addr, Byte>, bps: map<Id, Bp>, id: Id)
    requires Patched(orig, mem, bps) && id in bps && !bps[id].enabled
    ensures var b := bps[id]; var w := PeekText(mem, b.address);
      Patched(orig, PokeText(mem, b.address, MakeBreakpoint(w)), bps[id := Bp(b.address, w, true)]) <==>
      Readable(orig, b.address)
  {
    var b := bps[id];
    SameReadable(orig, mem, bps, b.address);
    var w := PeekText(mem, b.address);
    if Readable(orig, b.address) {
      PatchedBytes(orig, mem, bps);
      assert w % 256 == mem[b.address];
      assert MakeBreakpoint(w) / 256 == w / 256 && MakeBreakpoint(w) % 256 == INT3;
      PatchOneByte(mem, b.address, MakeBreakpoint(w));
      hide Patched, Peek, Poke;
      FlagEnable(orig, mem, bps, id, w);
    } else {
      assert bps[id := Bp(b.address, w, true)][id].enabled;
    }
  }

  /** For memory alone: where the word is not wholly mapped nothing is written, which shows exactly if the byte is
      mapped and is not 0xCC by itself. */
  lemma EnableMemory(orig: map<Addr, Byte>, mem: map<Addr, Byte>, bps: map<Id, Bp>, id: Id)
    requires Patched(orig, mem, bps) && id in bps && !bps[id].enabled
    ensures var b := bps[id]; var w := PeekText(mem, b.address);
      MemoryOk(orig, PokeText(mem, b.address, MakeBreakpoint(w)), bps[id := Bp(b.address, w, true)]) <==>
      Readable(orig, b.address) || b.address !in orig || orig[b.address] == INT3
  {
    var b := bps[id];
    var w := PeekText(mem, b.address);
    EnablePatches(orig, mem, bps, id);
    SameReadable(orig, mem, bps, b.address);
    if !Readable(orig, b.address) {
      hide PeekText, Readable;
      UnwrittenMemory(orig, mem, bps, id, w);
    }
  }

  lemma UnwrittenMemory(orig: map<Addr, Byte>, mem: map<Addr, Byte>, bps: map<Id, Bp>, id: Id, w: Word)
    requires Patched(orig, mem, bps) && id in bps && !bps[id].enabled
    ensures MemoryOk(orig, mem, bps[id := Bp(bps[id].address, w, true)]) <==>
      bps[id].address !in orig || orig[bps[id].address] == INT3
  {
    hide Readable;
    var b := bps[id];
    var bps' := bps[id := Bp(b.address, w, true)];
    assert !At(bps, b.address);
    assert At(bps', b.address) by { assert bps'[id].address == b.address; }
    forall a | a in orig && a != b.address
      ensures At(bps', a) <==> At(bps, a)
    {
      OtherAddress(bps, id, w, a);
    }
  }

  lemma OtherAddress(bps: map<Id, Bp>, id: Id, w: Word, a: Addr)
    requires id in bps && a != bps[id].address
    ensures At(bps[id := Bp(bps[id].address, w, true)], a) <==> At(bps, a)
  {
    var bps' := bps[id := Bp(bps[id].address, w, true)];
    if At(bps, a) {
      var c :| c in bps && bps[c].address == a && bps[c].enabled;
      assert bps'[c] == bps[c];
    }
  }

  lemma FlagEnable(orig: map<Addr, Byte>, mem: map<Addr, Byte>, bps: map<Id, Bp>, id: Id, w: Word)
    requires Patched(orig, mem, bps) && id in bps && !bps[id].enabled && Readable(orig, bps[id].address)
    requires w % 256 == mem[bps[id].address]
    ensures Patched(orig, mem[bps[id].address := INT3], bps[id := Bp(bps[id].address, w, true)])
  {
    var b := bps[id];
    var bps' := bps[id := Bp(b.address, w, true)];
    assert !At(bps, b.address);
    assert At(bps', b.address) by { assert bps'[id].address == b.address; }
    forall a | a in orig && a != b.address
      ensures At(bps', a) <==> At(bps, a)
    {
      forall c | c in bps && c != id ensures bps'[c] == bps[c] {}
    }
  }

  lemma FlagDisable(orig: map<Addr, Byte>, mem: map<Addr, Byte>, bps: map<Id, Bp>, id: Id)
    requires Patched(orig, mem, bps) && id in bps && bps[id].enabled
    ensures Patched(orig, mem[bps[id].address := bps[id].ori % 256], bps[id := bps[id].(enabled := false)])
  {
    var b := bps[id];
    var bps' := bps[id := b.(enabled := false)];
    assert !At(bps', b.address);
    forall a | a in orig && a != b.address
      ensures At(bps', a) <==> At(bps, a)
    {
      forall c | c in bps && c != id ensures bps'[c] == bps[c] {}
    }
  }

  /** The assertion in arch_remove_breakpoint holds, and disabling restores the original byte, even if the
      saved word holds the 0xCC of a neighbour. */
  lemma DisablePatches(orig: map<Addr, Byte>, mem: map<Addr, Byte>, bps: map<Id, Bp>, id: Id)
    requires Patched(orig, mem, bps) && id in bps && bps[id].enabled
    ensures var b := bps[id]; var w := PeekText(mem, b.address);
      && w % 256 == INT3
      && Patched(orig, PokeText(mem, b.address, RemoveBreakpoint(w, b.ori)), bps[id := b.(enabled := false)])
  {
    var b := bps[id];
    SameReadable(orig, mem, bps, b.address);
    var w := PeekText(mem, b.address);
    PatchedBytes(orig, mem, bps);
    assert At(bps, b.address);
    assert w % 256 == mem[b.address] == INT3;
    hide Patched;
    assert RemoveBreakpoint(w, b.ori) / 256 == w / 256 && RemoveBreakpoint(w, b.ori) % 256 == b.ori % 256;
    PatchOneByte(mem, b.address, RemoveBreakpoint(w, b.ori));
    hide Peek, Poke;
    FlagDisable(orig, mem, bps, id);
  }

  /** Where the word is not wholly mapped, disabling what enabling left behind fails the assertion. */
  lemma DisableAborts(mem: map<Addr, Byte>, a: Addr)
    requires !Readable(mem, a)
    ensures PeekText(mem, a) % 256 != INT3
  {
    FailedPeek();
  }

  /** What the peek, the change of the low byte and the poke of breakpoint_enable come to. */
  lemma EnableWrites(mem: map<Addr, Byte>, a: Addr)
    requires Bytes(mem)
    ensures var w := PeekText(mem, a);
      && PokeText(mem, a, MakeBreakpoint(w)) == (if Readable(mem, a) then mem[a := INT3] else mem)
      && (Readable(mem, a) ==> w % 256 == mem[a])
  {
    var w := PeekText(mem, a);
    if Readable(mem, a) {
      assert w % 256 == mem[a];
      assert MakeBreakpoint(w) / 256 == w / 256 && MakeBreakpoint(w) % 256 == INT3;
      PatchOneByte(mem, a, MakeBreakpoint(w));
    }
  }

  /** The assertion in arch_remove_breakpoint holds exactly if the word is mapped and its first byte is 0xCC, and then
      exactly that byte becomes the saved one. */
  lemma DisableWrites(mem: map<Addr, Byte>, a: Addr, ori: Word)
    requires Bytes(mem)
    ensures var w := PeekText(mem, a);
      && (w % 256 == INT3 <==> Readable(mem, a) && mem[a] == INT3)
      && (w % 256 == INT3 ==> PokeText(mem, a, RemoveBreakpoint(w, ori)) == mem[a := ori % 256])
  {
    var w := PeekText(mem, a);
    if Readable(mem, a) {
      assert w % 256 == mem[a];
      assert RemoveBreakpoint(w, ori) / 256 == w / 256 && RemoveBreakpoint(w, ori) % 256 == ori % 256;
      PatchOneByte(mem, a, RemoveBreakpoint(w, ori));
    } else {
      FailedPeek();
    }
  }

  class Tracer {
    ghost const orig: map<Addr, Byte>
    var mem: map<Addr, Byte>
    var bps: map<Id, Bp>

    constructor (mem: map<Addr, Byte>)
      requires Bytes(mem)
      ensures Valid() && this.mem == mem && bps == map[] && orig == mem
    {
      this.orig, this.mem, bps := mem, mem, map[];
    }

    ghost predicate Valid()
      reads this
    {
      Patched(orig, mem, bps)
    }

    /** breakpoint_enable */
    method Enable(id: Id)
      requires Bytes(mem) && id in bps
      modifies this
      ensures Bytes(mem) && bps.Keys == old(bps.Keys) && forall c :: c in bps && c != id ==> bps[c] == old(bps[c])
      ensures bps[id].enabled && bps[id].address == old(bps[id].address)
      ensures old(bps[id].enabled) ==> mem == old(mem) && bps[id].ori == old(bps[id].ori)
      ensures old(!bps[id].enabled) && Readable(old(mem), bps[id].address) ==>
        mem == old(mem)[bps[id].address := 0xCC] && bps[id].ori == Peek(old(mem), bps[id].address, 8)
      ensures old(!bps[id].enabled) && !Readable(old(mem), bps[id].address) ==>
        mem == old(mem) && bps[id].ori == Pow256(8) - 1
      ensures old(Valid()) ==> (Valid() <==> Readable(orig, old(bps[id].address)) || old(bps[id].enabled))
    {
      hide Patched, Readable, Pow256, Poke, Peek;
      if bps[id].enabled {
        return;
      }
      if Valid() {
        EnablePatches(orig, mem, bps, id);
      }
      EnableWrites(mem, bps[id].address);
      var ori := PeekText(mem, bps[id].address);
      mem := PokeText(mem, bps[id].address, MakeBreakpoint(ori));
      bps := bps[id := Bp(bps[id].address, ori, true)];
    }

    /** breakpoint_disable; `aborted` means that the assertion in arch_remove_breakpoint failed. */
    method Disable(id: Id) returns (aborted: bool)
      requires Bytes(mem) && id in bps
      modifies this
      ensures var a := old(bps[id].address);
        aborted <==> old(bps[id].enabled) && !(Readable(old(mem), a) && old(mem)[a] == 0xCC)
      ensures !aborted ==> bps == old(bps)[id := old(bps[id]).(enabled := false)]
      ensures !aborted ==>
        mem == if old(bps[id].enabled) then old(mem)[old(bps[id].address) := old(bps[id].ori) % 256] else old(mem)
      ensures aborted ==> bps == old(bps) && mem == old(mem)
      ensures Bytes(mem) && (old(Valid()) ==> Valid() && !aborted)
    {
      hide Patched, Readable, PeekText, PokeText;
      aborted := false;
      if !bps[id].enabled {
        return;
      }
      if Valid() {
        DisablePatches(orig, mem, bps, id);
      }
      DisableWrites(mem, bps[id].address, bps[id].ori);
      var data := PeekText(mem, bps[id].address);
      if data % 256 != INT3 {
        return true;
      }
      mem := PokeText(mem, bps[id].address, RemoveBreakpoint(data, bps[id].ori));
      bps := bps[id := bps[id].(enabled := false)];
    }

    /** breakpoint_resume; whether setting the pc and the single step succeed is up to the traced process.
        If the step fails the breakpoint stays disabled. */
    method Resume(id: Id, pc_set: bool, stepped: bool) returns (ret: int, aborted: bool)
      requires Bytes(mem) && id in bps
      modifies this
      ensures var a := old(bps[id].address);
        aborted <==> pc_set && old(bps[id].enabled) && !(Readable(old(mem), a) && old(mem)[a] == 0xCC)
      ensures !aborted ==> ret == if pc_set && stepped then 0 else -1
      ensures aborted || !pc_set ==> mem == old(mem) && bps == old(bps)
      ensures bps.Keys == old(bps.Keys) && forall c :: c in bps && c != id ==> bps[c] == old(bps[c])
      ensures bps[id].address == old(bps[id].address)
      ensures !aborted && pc_set ==> bps[id].enabled == stepped
      ensures !aborted && pc_set && !stepped && old(bps[id].enabled) ==>
        mem == old(mem)[bps[id].address := old(bps[id].ori) % 256] && bps[id].ori == old(bps[id].ori)
      ensures !aborted && pc_set && stepped && old(bps[id].enabled) ==>
        mem == old(mem) && bps[id].ori % 256 == old(bps[id].ori) % 256
      ensures pc_set && !stepped && old(!bps[id].enabled) ==> mem == old(mem)
      ensures pc_set && stepped && old(!bps[id].enabled) ==>
        mem == if Readable(old(mem), bps[id].address) then old(mem)[bps[id].address := 0xCC] else old(mem)
      ensures old(Valid()) ==>
        !aborted && (Valid() <==> (pc_set && stepped ==> Readable(orig, old(bps[id].address))))
    {
      hide Patched;
      ret, aborted := -1, false;
      if !pc_set {
        return;
      }
      ghost var mem0, b := mem, bps[id];
      aborted := Disable(id);
      if aborted || !stepped {
        return;
      }
      ghost var mem1 := mem;
      assert Readable(mem0, b.address) <==> Readable(mem1, b.address);
      Enable(id);
      if b.enabled {
        EnableWrites(mem1, b.address);
        assert mem1[b.address := INT3] == mem0;
      }
      ret := 0;
    }

    /** breakpoint_create as written: it enables before it stores the address, so the peek and poke go to address 0,
        and the flag is stored whether they succeed or not. */
    method Create(id: Id, address: Addr, enable: bool)
      requires Bytes(mem) && id !in bps
      modifies this
      ensures Bytes(mem) && mem == if enable && Readable(old(mem), 0) then old(mem)[0 := 0xCC] else old(mem)
      ensures bps == old(bps)[id := Bp(address, if enable then PeekText(old(mem), 0) else 0, enable)]
      ensures old(Valid()) && 0 !in old(mem) ==>
        (Valid() <==> !enable && forall c :: c in old(bps) ==> old(bps[c].address) != address)
    {
      hide Patched;
      var ori := 0;
      if enable {
        EnableWrites(mem, 0);
        ori := PeekText(mem, 0);
        mem := PokeText(mem, 0, MakeBreakpoint(ori));
      }
      bps := bps[id := Bp(address, ori, enable)];
      if old(Valid()) && 0 !in old(mem) {
        CreateValid(orig, mem, old(bps), id, bps[id]);
      }
    }

    /** breakpoint_delete */
    method Delete(id: Id) returns (aborted: bool)
      requires Bytes(mem) && id in bps
      modifies this
      ensures var a := old(bps[id].address);
        aborted <==> old(bps[id].enabled) && !(Readable(old(mem), a) && old(mem)[a] == 0xCC)
      ensures aborted ==> bps == old(bps) && mem == old(mem)
      ensures !aborted ==> bps == old(bps) - {id}
      ensures !aborted ==>
        mem == if old(bps[id].enabled) then old(mem)[old(bps[id].address) := old(bps[id].ori) % 256] else old(mem)
      ensures Bytes(mem) && (old(Valid()) ==> Valid() && !aborted)
    {
      hide Patched, Readable;
      aborted := Disable(id);
      if aborted {
        return;
      }
      if Valid() {
        DeleteValid(orig, mem, bps, id);
      }
      bps := bps - {id};
    }

    /** The way of src/atrace.c past the entry point: create an enabled breakpoint, resume over it, delete it.  Since
        nothing was patched, the first assertion fails unless the program has a 0xCC there by itself. */
    method PassEntry(id: Id, address: Addr, pc_set: bool, stepped: bool) returns (aborted: bool, passed: bool)
      requires Bytes(mem) && id !in bps && 0 !in mem
      modifies this
      ensures aborted <==> pc_set && !(Readable(old(mem), address) && old(mem)[address] == 0xCC)
      ensures passed <==> !aborted && pc_set && stepped
      ensures passed ==> bps == old(bps) && mem == old(mem)[address := 0xFF]
    {
      hide Patched, Peek;
      assert !Readable(mem, 0);
      Create(id, address, true);
      FailedPeek();
      assert bps[id].ori % 256 == 0xFF;
      hide Pow256, PeekText;
      var ret;
      ret, aborted := Resume(id, pc_set, stepped);
      passed := false;
      if aborted || ret < 0 {
        return;
      }
      var again := Delete(id);
      passed := true;
    }
  }

  /** A disabled breakpoint may be dropped. */
  lemma DeleteValid(orig: map<Addr, Byte>, mem: map<Addr, Byte>, bps: map<Id, Bp>, id: Id)
    requires Patched(orig, mem, bps) && id in bps && !bps[id].enabled
    ensures Patched(orig, mem, bps - {id})
  {
    var bps' := bps - {id};
    forall a | a in orig
      ensures At(bps', a) <==> At(bps, a)
    {
      if At(bps, a) {
        var c :| c in bps && bps[c].address == a && bps[c].enabled;
        assert c in bps' && bps'[c] == bps[c];
      }
    }
  }

  lemma CreateValid(orig: map<Addr, Byte>, mem: map<Addr, Byte>, bps: map<Id, Bp>, id: Id, b: Bp)
    requires Patched(orig, mem, bps) && id !in bps && (b.enabled ==> b.ori == Pow256(8) - 1)
    ensures Patched(orig, mem, bps[id := b]) <==> !b.enabled && forall c :: c in bps ==> bps[c].address != b.address
  {
    var bps' := bps[id := b];
    assert forall c :: c in bps ==> bps'[c] == bps[c];
    if c :| c in bps && bps[c].address == b.address {
      assert bps'[id].address == bps'[c].address;
      return;
    }
    assert !At(bps, b.address);
    if b.enabled {
      FailedPeek();
      hide Pow256;
      assert At(bps', b.address) by { assert bps'[id].address == b.address; }
      if Readable(orig, b.address) {
        assert b.address in orig && mem[b.address] == orig[b.address];
      } else {
        assert bps'[id].enabled;
      }
    } else {
      forall a | a in orig
        ensures At(bps', a) <==> At(bps, a)
      {
        if At(bps, a) {
          var c :| c in bps && bps[c].address == a && bps[c].enabled;
          assert bps'[c] == bps[c];
        }
      }
    }
  }
}
