# An in-process breakpoint engine, modelled and verified in Dafny

The repository's `signal_test/` directory is a breakpoint engine for AArch64 that lives inside the process it
traces. A breakpoint replaces a word of program text by `brk`; the displaced instruction is copied into a *slot*
with another `brk` behind it. A thread that meets the first `brk` is sent by the `SIGTRAP` handler into the slot,
runs the displaced instruction there, meets the second `brk` and is sent back behind the breakpoint. The engine
keeps an intrusive red-black tree from addresses to breakpoints, hands out slots from bitmap pages, reads
`/proc/self/maps` to learn where code is, and does all this in many threads under several locks. `src/` holds an
older x86 engine that patches single bytes through `ptrace` words.

The project proves, for all inputs, runs and interleavings:

* **The tree** (`rb_spec`, `rb_tree`, `rb_trail`, `rb_insert`, `rb_erase_color`, `rb_erase`, `rb_iter`,
  `rb_augment`, `rb_packed`). The C code is modelled pointer by pointer on the heap: `Root.Holds()` says that the
  left, right, parent and colour fields of exactly the nodes of the root spell out a ghost tree, and the fix-up
  loops carry that tree as a subtree in a context with a hole. Insertion and erasure keep every parent link, the
  search order and the colour rules, with at most 2 and 3 rotations; any augmentation stays right.
* **The index** (`bp_index`). Any sequence of find, search-insert and delete calls is a finite map from address to
  entry, and a search visits k nodes with 2^k <= (n+1)^2.
* **The slot allocator** (`slots`, `slots_conc`, `slots_alone`): one thread on the bitmap words, any number of threads
  as a step system with one step per lock operation or shared write, and the latter run by one thread as the former.
* **Adding, enabling and disabling** (`lifecycle`, `lifecycle_engine`, `lifecycle_history`, `lifecycle_runs`), with
  slots from the allocator: return codes, exactly which keys the tree has, which breakpoints are added and enabled, and
  exactly when text and slots hold what they should, after any sequence of calls.
* **The single-step protocol** (`stepping`): every run of any number of threads, from the entry-point handler on,
  with breakpoints added, enabled and disabled meanwhile, is a run of the program without breakpoints; and
  `stepping_slots` proves the same of the protocol run on top of the concurrent allocator. `stepping_pages` adds the
  write protection of the text, `stepping_effects` what operations achieve meanwhile, `stepping_traps` counts traps, and
  `stepping_runs` holds concrete runs.
* **Locks** (`locks`, `locks_access`): every call on every path takes its locks in one order and gives them back, so no
  run deadlocks, and touches shared state under the lock that guards it, with four named exceptions that can meet.
* **The maps parser** (`maps_parser`), **the lists** (`list`), **the thread hash** (`threads`) and **the x86 byte
  patcher** (`x86`).

How the parts fit: `rb_packed` justifies keeping parent and colour apart in the tree proofs; `bp_index` justifies
the maps that stand for the tree in `lifecycle` and `stepping`; `list` justifies the sequences that stand for
linked lists in `slots`, `threads` and `maps_parser`. That a new breakpoint's slot is nobody else's is proved from
the allocator, in `lifecycle` for one thread and in `stepping_slots` for any number. `common` holds what several
modules share.

## Where the code departs from its intent

The model follows the code; these are stated as lemmas or contracts and not assumed away.

* A slot set hands out 1024 slots of 8 bytes but maps 4096 bytes: a slot lies in the mapped page exactly if its
  index is below 512 (`Slots.SlotMapped`). The other results take a set's region to be 8192 bytes.
* `slot_free` aborts for every index from 32 up, although such slots are handed out (`Slots.SlotSet.SlotFree`,
  `Slots.AllocatedButNotFreeable`).
* `object_get_by_address` accepts the first address behind a text range, which may be the first word of a slot
  (`Lifecycle.EndCanBeASlot`). Then enabling such a breakpoint keeps text and slots intact exactly if no slot in use
  starts there (`Lifecycle.EnableKeepsMemory`); adding one exactly if the address held a word at the start and no slot
  in use there should hold another (`Lifecycle.AddKeepsMemory`); disabling one under the same condition on the slots
  (`Lifecycle.DisableKeepsMemory`); and adding any breakpoint overwrites the brk of an enabled one that stands on the
  first word of the new slot (`Lifecycle.AddKeepsArmed`). `Lifecycle.SoundExactly` puts these together for whole runs,
  `LifecycleRuns.EnablingSpoilsASlot` and `LifecycleRuns.AddingUnderABreakpoint` are runs in which a slot or a text
  word is damaged, and `Lifecycle.TidyRuns` shows that breakpoints below the end of the text are safe. The keys of the
  tree stay right regardless.
* `object_memory_unlock` removes the write protection of a text range without its end, so the store at an accepted
  end address faults unless the word is writable anyway (`LifecycleEngine.Engine.Enable`).
* Enabling and disabling remove and restore the protection of a whole object under the lock of one breakpoint. The
  store faults exactly if, since this operation removed the protection, another operation on the same object has
  restored it and none has removed it after that (`SteppingPages.StoreFaults`); `SteppingRuns.StoreFaulted` is such a
  run. No store faults if operations remove the protection only while no other one on the object is between removing
  and restoring it (`SteppingPages.NoFault`), and only then is it shown that no thread waits for ever
  (`SteppingPages.NotStuck`).
* The range test also accepts the first word of a barred object, the library's own code among them, exactly if an
  earlier object ends there (`LifecycleHistory.BarredExactly`, `LifecycleHistory.OwnCodeAccepted`).
* Some shared state is touched without its lock: `breakpoint_enable` and `breakpoint_disable` read a tree node in an
  assertion, `breakpoint_add` reads its breakpoint in one and again on its -4 exit, and the entry-point handler reads the
  slot of its breakpoint; the protection of text and `entry_hit` have no lock. No other accesses conflict
  (`Locks.NoRace`), and these do (`LockAccesses.TreeRaced`, `LockAccesses.SlotRaced`, `LockAccesses.ProtectionRaced`,
  `LockAccesses.EntryRaced`).
* Disabling an enabled breakpoint without a slot reads through a null set (`LifecycleEngine.Engine.Disable`).
* The entry-point handler, which is installed first, does not look at the trap address. A run of it goes unnoticed by
  the program exactly if the thread was at the entry point, the first time, or just behind it, the second time
  (`Stepping.EntryActExact`). The results about runs ask that, while it is installed, one thread at a time traps, at
  the entry breakpoint and then behind its slot (`Stepping.OrderlyTrap`). `SteppingRuns.SecondThreadMisled` says what
  happens to any other thread, and `SteppingRuns.EntrySkipped` is a run in which one skips the entry instruction.
* `breakpoint_create` in `src/` enables before it stores the address; the result is a consistent breakpoint exactly
  if it was not asked to enable (`X86.Tracer.Create`), and going past the entry point as `src/atrace.c` does fails an
  assertion (`X86.Tracer.PassEntry`).
* An x86 breakpoint in the last seven bytes of a mapping is accepted, but the peek and the poke of its word fail:
  enabling it works exactly if all eight bytes are mapped (`X86.EnablePatches`), and otherwise disabling it later
  fails the assertion on 0xCC (`X86.DisableAborts`).
* The parser keeps 32 bits of the inode number: a line counts as anonymous exactly if the number is zero or a 63-bit
  multiple of 2^32 (`MapsParser.ReadsAsAnonymous`); a range field of 17 digits is accepted and loses its top digit
  (`MapsParser.SeventeenDigits`).
* The comment on `list_del` says that the entry is left in an undefined state; the code reinitialises it
  (`List.Del`).

## Model

| member | source | states |
|---|---|---|
| `RbSpec.Split` | signal_test/rbtree.h:41-52 | the fields spell out a tree around a hole exactly if they spell out the subtree, the context and nothing else, all nodes being distinct |
| `RbSpec.PlugValid` | signal_test/rbtree.c:65-121 | a whole tree is red-black with a black root exactly if its context and its subtree fit in black height and colour, which is what both fix-up loops reason with |
| `RbTree.TurnSpells` | signal_test/rbtree.c:25-63 | the pointer writes of a rotation, in either direction and below any context, turn the fields of the slanted tree into those of the turned one |
| `RbTree.RotateLeft` | signal_test/rbtree.c:25-43 | the tree becomes the rotated tree, parent links and root pointer included, the in-order sequence is unchanged and only three nodes get other children |
| `RbTree.RotateRight` | signal_test/rbtree.c:45-63 | the mirror image |
| `RbTree.SetColor` | signal_test/rbtree.h:63-79 | exactly one node changes colour, and the tree with it |
| `RbInsert.InsertColor` | signal_test/rbtree.c:65-121 | from one red leaf that may sit under a red parent the loop reaches a valid red-black tree with the same in-order sequence in at most 2 rotations, and only nodes on the new node's path to the root and their siblings get other children |
| `RbInsert.FinishedTrail` | signal_test/rbtree.c:65-121 | every node the final rotations touch is on the path that augmentation will recompute |
| `RbEraseColor.SiblingExists` | signal_test/rbtree.c:123-186 | the sibling that the fix-up dereferences is never null, nor are the children of a red sibling |
| `RbEraseColor.LendStep` | signal_test/rbtree.c:141-181 | when the black sibling has a red child, the last one or two rotations restore a valid tree |
| `RbEraseColor.LentTrail` | signal_test/rbtree.c:141-181 | the nodes these rotations touch lie on the path above the removed position |
| `RbEraseColor.EraseColor` | signal_test/rbtree.c:123-186 | a subtree one black node short is repaired to a valid tree with the same in-order sequence in at most 3 rotations, changing children only along the path above the removed position |
| `RbErase.SpliceSpells` | signal_test/rbtree.c:233-244 | taking out a node with at most one child leaves fields that spell out the tree with the child in its place |
| `RbErase.PromoteSpells` | signal_test/rbtree.c:196-228 | the writes that put the successor in the place of a node with two children spell out the tree in which it was moved |
| `RbErase.PromoteColors` | signal_test/rbtree.c:196-228 | if the moved successor was red the tree is valid already, and if it was black exactly its old position is one black node short |
| `RbErase.Erase` | signal_test/rbtree.c:188-249 | erasing any node of a valid tree gives a valid tree over exactly the other nodes, in the same order without the erased one, with at most 3 rotations and all changed children on the path of the node that rb_augment_erase_begin picks |
| `RbIter.First` | signal_test/rbtree.c:319-328 | the first node in order, or null for an empty tree |
| `RbIter.Last` | signal_test/rbtree.c:330-339 | the last node in order, or null |
| `RbIter.Next` | signal_test/rbtree.c:341-366 | the node at the next position in order, null at the end and for an unlinked node |
| `RbIter.Prev` | signal_test/rbtree.c:368-389 | the node at the previous position, null at the start and for an unlinked node |
| `RbIter.InOrderNoDup` | signal_test/rbtree.c:316-366 | no node occurs twice in order, so positions are unique |
| `RbIter.NextIs` | signal_test/rbtree.c:341-366 | the successor is the leftmost node on the right or else the first node behind the subtree |
| `RbIter.PrevIs` | signal_test/rbtree.c:368-389 | the predecessor is the rightmost node on the left or else the last node before the subtree |
| `RbIter.Walk` | signal_test/rbtree.c:319-366 | from rb_first along rb_next every node of the tree is met exactly once, in order, and then null |
| `RbIter.ThereAndBack` | signal_test/rbtree.c:341-389 | rb_prev undoes rb_next and rb_next undoes rb_prev, except at the two ends |
| `RbIter.LinkedNotEmpty` | signal_test/rbtree.h:83-92 | RB_EMPTY_NODE is false for every node of a tree |
| `RbIter.ReplaceNode` | signal_test/rbtree.c:391-411 | the in-order sequence with just the victim swapped for the new node, links intact and validity unchanged |
| `BpIndex.Find` | signal_test/breakpoint.c:175-196 | finds an entry with the address exactly if there is one, visiting k nodes with 2^k <= (n+1)^2 |
| `BpIndex.HeightBound` | signal_test/rbtree.c:65-249 | the colour rules bound the height by twice the black height and the size from below by a power of two |
| `BpIndex.SearchBound` | signal_test/breakpoint.c:175-196 | a path of k nodes in a valid tree of n nodes has 2^k <= (n+1)^2 |
| `BpIndex.Link` | signal_test/rbtree.h:115-121 | the new red leaf hangs at the hole where the search ended, in a tree whose context is valid |
| `BpIndex.SortedInsert` | signal_test/breakpoint.c:219-234 | linking at the end of the search path keeps the addresses strictly increasing |
| `BpIndex.InsertInternal` | signal_test/breakpoint.c:211-237 | returns -1 and changes nothing if the address is present, else adds exactly the entry, keeps order, links and colours, with at most 2 rotations |
| `BpIndex.SearchInsert` | signal_test/breakpoint.c:251-268 | on the map from address to entry: -1 and no change for a present address, else the map with the entry added |
| `BpIndex.FindEntry` | signal_test/breakpoint.c:198-207 | the map's value at the address, or null |
| `BpIndex.MapsUnique` | signal_test/breakpoint.c:175-298 | the map is determined by the nodes, so the calls are compared on one abstract value |
| `BpIndex.DeleteInternal` | signal_test/breakpoint.c:270-286 | removes exactly that address from the map and returns its entry, which satisfies RB_EMPTY_NODE again and may be inserted again, or returns null and changes nothing |
| `BpIndex.SortedWithout` | signal_test/breakpoint.c:282-283 | the order without one node is still strictly increasing |
| `BpIndex.WalkAddresses` | signal_test/rbtree.c:319-366 | walking the index meets every address once, in strictly increasing order |
| `BpIndex.DoAll` | signal_test/breakpoint.c:175-298 | any sequence of find, insert and delete calls gives the replies and the map that the same calls give on a finite map, with entries inserted again after they were deleted |
| `RbAugment.AugmentPath` | signal_test/rbtree.c:251-268 | if all values off the path of a node and its siblings are right, recomputing that path makes all values of the tree right, for any rule on a node and its children's values |
| `RbAugment.AugmentInsert` | signal_test/rbtree.c:274-281 | the same, started at a child of the node if it has one |
| `RbAugment.InsertAugmented` | signal_test/rbtree.c:274-281 | inserting and then calling rb_augment_insert leaves every value right in spite of the rotations |
| `RbAugment.AugmentEraseBegin` | signal_test/rbtree.c:287-305 | picks the deepest node that will survive on the path along which the tree changes |
| `RbAugment.DeepestSurvives` | signal_test/rbtree.c:287-305 | that node is in the tree and is not the one erased |
| `RbAugment.EraseAugmented` | signal_test/rbtree.c:283-314 | erasing between rb_augment_erase_begin and rb_augment_erase_end leaves every value right |
| `RbPacked.PackedRefines` | signal_test/rbtree.h:59-92 | after any sequence of parent, colour, copy, link and init writes the parent and colour read from every packed word are those that separate fields would hold |
| `RbPacked.PackInjective` | signal_test/rbtree.h:41-60 | a word holds one parent and one colour, for 4-aligned nodes |
| `RbPacked.EmptyNode` | signal_test/rbtree.h:83-92 | rb_init_node makes RB_EMPTY_NODE true, and it is true of a word exactly if the parent is the node itself |
| `Slots.BitUpdates` | signal_test/breakpoint.c:107-132 | clearing and setting a bit change that bit and no other |
| `Slots.FfsLowest` | signal_test/breakpoint.c:86-92 | __builtin_ffs gives the lowest set bit of a word |
| `Slots.LowestFree` | signal_test/breakpoint.c:82-94 | the lowest bit of the first non-zero word is the lowest free slot of the page, and passes the bound test |
| `Slots.UpdatedFreeSet` | signal_test/breakpoint.c:107-132 | the two bitmap writes remove and add exactly one slot of the free set |
| `Slots.SlotSet.Scan` | signal_test/breakpoint.c:82-94 | the scan of a set that is not full finds the lowest free slot and never falls through |
| `Slots.SlotSet.Take` | signal_test/breakpoint.c:104-109 | exactly one slot leaves the free set, and free bits plus use count stay SLOT_NUM |
| `Slots.SlotSet.SlotFree` | signal_test/breakpoint.c:115-136 | aborts exactly for an index from 32 up; otherwise a slot in use becomes free with the count adjusted, and a free one changes nothing |
| `Slots.SlotList.TryAlloc` | signal_test/breakpoint.c:74-97 | one pass takes the lowest free slot of the first set that is not full, and touches no other set |
| `Slots.SlotList.SlotSetAdd` | signal_test/breakpoint.c:29-62 | a new set with every slot free at the head of the list |
| `Slots.SlotList.SlotAlloc` | signal_test/breakpoint.c:64-113 | adds a set exactly if all sets are full, then slot 0 of the new one; retries at most once; else the lowest free slot of the first set that is not full |
| `Slots.FreeUndoesTake` | signal_test/breakpoint.c:104-136 | freeing a slot just taken restores the bitmap word for word |
| `Slots.SlotsApart` | signal_test/breakpoint.h:11-28 | different slots are disjoint 8-byte ranges, within a set and across sets with disjoint regions |
| `Slots.SlotMapped` | signal_test/breakpoint.c:45-56 | every slot lies in its set's region, and in the page that is mapped exactly if its index is below 512 |
| `Slots.AllocatedButNotFreeable` | signal_test/breakpoint.c:115-120 | once the first 32 slots are taken the next slot handed out is one on which slot_free aborts |
| `SlotsConcurrent.StepKeeps` | signal_test/breakpoint.c:29-136 | every step of every thread keeps the invariant on locks, cursors, bitmaps, counts and the whereabouts of each slot |
| `SlotsConcurrent.LogKept` | signal_test/breakpoint.c:64-136 | every step keeps that a slot is handed out exactly if the last event about it is its allocation |
| `SlotsConcurrent.RunsAreSafe` | signal_test/breakpoint.c:29-136 | in every interleaving, also with two threads both adding a set, no slot is handed out again before it is freed, and a set whose mutex is free has free bits plus use count equal to SLOT_NUM |
| `SlotsConcurrent.ScanNeverFallsThrough` | signal_test/breakpoint.c:77-97 | in every run, a set that is not full has a free bit whenever its mutex is held for the scan |
| `SlotsConcurrent.LowestTaken` | signal_test/breakpoint.c:77-136 | in every run a bitmap changes only under the mutex of its set, which loses its lowest free slot or regains one |
| `SlotsConcurrent.PassedWereFull` | signal_test/breakpoint.c:72-101 | in every run a thread has seen each set that its scan has passed full, under its mutex, so a set is added only after every set of the list was seen full |
| `SlotsConcurrent.NoDeadlock` | signal_test/breakpoint.c:59-113 | in every reachable state with a call under way some call that is under way can take a step |
| `SlotsAlone.ListDistinct` | signal_test/breakpoint.c:58-61 | in every run the list of sets names no set twice |
| `SlotsAlone.AllocAlone` | signal_test/breakpoint.c:64-113 | from every reachable state with no call under way the concurrent steps of one call run through and leave the sets and return the slot that the sequential allocator does |
| `Lifecycle.GetByAddress` | signal_test/object.c:538-553 | the first object whose range holds the address, both ends included, or none |
| `Lifecycle.CodeMeans` | signal_test/breakpoint.c:326-342 | what each return code of the checks means, over the objects and the keys |
| `Lifecycle.CanStoreExactly` | signal_test/object.c:579-594 | a store at an accepted address goes through exactly if the address is below the end of the first range that holds it, writable anyway, or in a slot set |
| `LifecycleEngine.Engine.ObjectAt` | signal_test/object.c:538-553 | the scan computes that object |
| `LifecycleEngine.Engine.StoreWorks` | signal_test/object.c:579-594 | whether a store at the address goes through: below the end of its object, in a slot region, or writable anyway |
| `Lifecycle.AllocateFresh` | signal_test/breakpoint.c:64-113 | the slot that slot_alloc returns was taken by nobody, is taken afterwards, and all taken slots stay taken, in sets at different addresses |
| `LifecycleEngine.AllocSlot` | signal_test/breakpoint.c:64-113 | slot_alloc on the bitmap objects returns that slot and leaves the sets in that state |
| `Lifecycle.NextSlotUnused` | signal_test/breakpoint.c:344-349 | the slot that a new breakpoint gets belongs to no other breakpoint |
| `Lifecycle.ReturnNotAccepted` | signal_test/breakpoint.c:326-342 | no address that breakpoint_add accepts, the inclusive end of a range among them, is a return address |
| `Lifecycle.EndCanBeASlot` | signal_test/object.c:546-548 | the end of a range is accepted and can be the first word of a slot |
| `Lifecycle.NoCollision` | signal_test/breakpoint.c:361-366 | with a slot from the allocator, the return address is never a key when it is inserted, so the -4 exit is not taken |
| `Lifecycle.AddKeepsIndex` | signal_test/breakpoint.c:316-378 | a successful add, with a slot from the allocator, keeps the keys equal to enter and return addresses and the slots apart |
| `Lifecycle.AddKeepsMemory` | signal_test/breakpoint.c:344-359 | it changes neither text nor any other slot, and its own slot is right exactly if the address held a word at the start and no slot in use there should hold another |
| `Lifecycle.ReadsOriginalIff` | signal_test/breakpoint.c:354-354 | the word that an add copies is the original one exactly under that condition, since words that are no key and start no slot in use are never touched |
| `Lifecycle.AddKeepsArmed` | signal_test/breakpoint.c:351-355 | it leaves every enabled breakpoint on a brk exactly if none stands on the first word of the new slot, or the copied word is a brk itself |
| `Lifecycle.EnableKeepsMemory` | signal_test/breakpoint.c:415-439 | enabling keeps text and slots as they should be exactly if no slot in use starts at the patched address |
| `Lifecycle.DisableKeepsMemory` | signal_test/breakpoint.c:442-472 | disabling puts the original word back from the slot, and keeps text and slots right exactly if no slot in use starts at that address, unless it should hold the same word |
| `Lifecycle.BelowEndIsClean` | signal_test/object.c:546-548 | an accepted address below the end of its range is in no slot region |
| `Lifecycle.TextAndSlots` | signal_test/breakpoint.c:316-472 | after any sequence of calls that met their conditions a text word is brk exactly if an enabled breakpoint stands there and else the original word, and each slot holds its original word followed by brk |
| `Lifecycle.CallKeepsSound` | signal_test/breakpoint.c:316-472 | each call keeps text, slots and enabled breakpoints as they should be exactly if a condition holds that can be checked before it |
| `Lifecycle.SoundExactly` | signal_test/breakpoint.c:316-472 | text, slots and enabled breakpoints are as they should be all along a run exactly if every call of the run met its condition |
| `Lifecycle.TidyRuns` | signal_test/breakpoint.c:316-472 | with all breakpoints outside the slot regions every call of every run meets its condition |
| `LifecycleRuns.EnablingSpoilsASlot` | signal_test/object.c:546-548 | a run of seven calls from an empty allocator in which a breakpoint at the end of the text patches the slot of another, whose text word ends up as a brk although it is disabled |
| `LifecycleRuns.AddingUnderABreakpoint` | signal_test/object.c:546-548 | a run of six calls, after two threads added a set each, in which a new slot overwrites the brk of an enabled breakpoint, and disabling that one spoils the slot |
| `Lifecycle.KeysAreExact` | signal_test/breakpoint.c:316-472 | after any sequence of calls the keys are exactly the enter addresses of the added breakpoints and the return addresses of their slots, and no address is both |
| `LifecycleHistory.EnabledByHistory` | signal_test/breakpoint.c:415-472 | after any calls a breakpoint is enabled exactly if the last call that enables or disables it enables it |
| `LifecycleHistory.AddedByHistory` | signal_test/breakpoint.c:316-378 | after any calls the added breakpoints are exactly those of an add at an address that the first object holding it accepts and that was no key |
| `LifecycleHistory.NeverBarred` | signal_test/breakpoint.c:326-336 | after any calls an added breakpoint belongs to the first object that holds its address, and that is not barred |
| `LifecycleHistory.BarredExactly` | signal_test/object.c:546-548 | of the code of a barred object only the first word can be accepted, exactly if an earlier object that is not barred ends there |
| `LifecycleHistory.OwnCodeAccepted` | signal_test/object.c:546-548 | two adjacent ranges for which the first word of the library's own code is accepted |
| `LifecycleHistory.TextByHistory` | signal_test/breakpoint.c:316-472 | after any calls that met their conditions a text word is brk exactly if an add was accepted there for a breakpoint whose last enable or disable enabled it, and else the original word |
| `LifecycleEngine.Engine.Add` | signal_test/breakpoint.c:316-378 | 0 exactly if the first object whose inclusive range holds the address is not barred and the address is no key, and exactly when -1, -2 and -3; nothing changes unless 0, and then object, keys and a slot that nobody had, holding the displaced word and brk, are entered and nothing else; and exactly when text, slots and enabled breakpoints stay as they should be |
| `LifecycleEngine.Engine.Enable` | signal_test/breakpoint.c:415-439 | crashes exactly if the breakpoint is disabled and stands at the end of the first range that holds it, outside slot sets and writable words; else sets the flag, puts 0xD4200060 at the address if it was disabled, changes nothing else, and exactly when everything stays as it should be |
| `LifecycleEngine.Engine.Disable` | signal_test/breakpoint.c:442-472 | crashes exactly for an enabled breakpoint without a slot; else clears the flag, puts the word of the slot at the address if it was enabled, which is the original word wherever memory was sound, changes nothing else, and exactly when text and slots stay right |
| `Stepping.ThreadStepInv` | signal_test/hook_main.c:40-125 | instruction steps, traps, the entry-point handler and both halves of the regular handler keep the invariant |
| `Stepping.BpStepInv` | signal_test/breakpoint.c:316-472 | so does every step of add, enable and disable, interleaved with running threads |
| `Stepping.RunSafe` | signal_test/hook_main.c:40-125 | in every orderly run, from the entry-point handler on, no handler assertion fails and the -4 exit is not taken |
| `SteppingTraps.TrapsExactly` | signal_test/hook_main.c:40-125 | at any time of an orderly run a thread has trapped exactly twice for each instruction that it ran in a slot, give or take one for the visit under way, and at most twice for each instruction it ran, plus one |
| `Stepping.StepRefines` | signal_test/hook_main.c:40-125 | a step that runs an instruction, in place or in a slot, is one step of the plain program by that thread; every other step is invisible to it |
| `Stepping.Simulation` | signal_test/hook_main.c:40-125 | every orderly instrumented run is a run of the original program by the same threads between the same states |
| `Stepping.QuietText` | signal_test/breakpoint.c:415-472 | in every reachable state text is brk exactly at enabled breakpoints where no operation is under way |
| `Stepping.SlotContents` | signal_test/breakpoint.c:351-356 | in every reachable state the slot of an added breakpoint holds the original instruction and brk |
| `Stepping.Keys` | signal_test/breakpoint.c:338-366 | in every reachable state the keys are exactly the enter addresses and the return addresses, also while other operations are half done |
| `SteppingEffects.EnabledByHistory` | signal_test/breakpoint.c:415-472 | in every reachable state a breakpoint is enabled exactly if the last operation begun on it enables it |
| `SteppingEffects.TextByHistory` | signal_test/breakpoint.c:415-472 | so at rest a text word is brk exactly if the last operation begun on a breakpoint there enabled it |
| `SteppingEffects.EnableWorks` | signal_test/breakpoint.c:415-439 | from every reachable state, left to itself, enabling a disabled breakpoint below the end of its range runs through in four steps and puts brk there |
| `SteppingEffects.DisableWorks` | signal_test/breakpoint.c:442-472 | disabling an enabled one puts the original word back |
| `SteppingEffects.AddWorks` | signal_test/breakpoint.c:316-378 | adding one with a slot that nobody has enters both keys and fills the slot with the original word and brk |
| `SteppingPages.NotStuck` | signal_test/hook_main.c:40-125 | in every reachable state of an orderly run whose operations remove the protection only when they may, wherever the program could go on, the instrumented thread can step or waits for an operation that can |
| `SteppingPages.OperationGoesOn` | signal_test/breakpoint.c:421-469 | an operation that holds the lock of an added breakpoint can go on without a fault exactly if, where it is about to store, the text is writable |
| `SteppingPages.StoreFaults` | signal_test/breakpoint.c:427-434 | in every run the store faults exactly if, since this operation removed the protection, another one on the same object has restored it and none has removed it after that |
| `SteppingPages.NoFault` | signal_test/breakpoint.c:427-467 | in every run whose operations remove the protection only while no other one on the object is between removing and restoring it, no store faults |
| `SteppingRuns.StoreFaulted` | signal_test/breakpoint.c:427-434 | a run of fifteen steps in which enabling one breakpoint faults because another of the same object was enabled meanwhile |
| `Stepping.EntryActExact` | signal_test/hook_main.c:90-125 | a run of the entry-point handler is invisible to the program exactly if the thread was at the entry point, the first time, or just behind it, the second time |
| `SteppingRuns.SecondThreadMisled` | signal_test/hook_main.c:106-115 | while one thread is in the slot of the entry breakpoint any other thread that traps is sent behind the entry point without running anything, which goes unnoticed exactly if it was there already |
| `SteppingRuns.EntrySkipped` | signal_test/hook_main.c:90-136 | a run of two threads in which the second skips the instruction at the entry point |
| `SteppingRuns.EntryStepped` | signal_test/hook_main.c:90-136 | an orderly run of twelve steps in which a thread goes through the entry breakpoint and its slot and the regular handler is installed |
| `SteppingSlots.ReturnedApart` | signal_test/breakpoint.c:104-112 | the slot that slot_alloc returns in any reachable state of the allocator is disjoint from every slot that is handed out |
| `SteppingSlots.LeaveAddsSlot` | signal_test/breakpoint.c:344-349 | so the breakpoint that is being added gets a slot that no other has |
| `SteppingSlots.StepKeeps` | signal_test/breakpoint.c:29-113 | every step of the protocol and the allocator together keeps that each slot belongs to one breakpoint and is handed out |
| `SteppingSlots.RunProjects` | signal_test/breakpoint.c:316-378 | a run of both together is a run of the protocol between the same states |
| `SteppingSlots.EngineSafe` | signal_test/hook_main.c:40-125 | in every orderly run of both no assertion fails, the -4 exit is not taken, and no two breakpoints share a slot |
| `SteppingTraps.EngineTrapsExactly` | signal_test/hook_main.c:40-125 | the same count in runs of protocol and allocator together |
| `SteppingSlots.EngineSimulation` | signal_test/hook_main.c:40-125 | every orderly run of both is a run of the original program between the same states |
| `Locks.AddNeutral` | signal_test/breakpoint.c:316-378 | on each of its exits breakpoint_add takes its locks in rank order, makes its accesses under the lock that guards them, exclusively for writes, but for two bare reads, and releases all of its locks |
| `Locks.SlotAllocNeutral` | signal_test/breakpoint.c:64-113 | so does slot_alloc, over any number of scanned sets and retries, with the set written after the hand-over from the list lock to the set lock |
| `Locks.HandlerNeutral` | signal_test/hook_main.c:48-81 | so does the trap handler, for known and new threads |
| `Locks.PatchNeutral` | signal_test/breakpoint.c:415-472 | so do breakpoint_enable and breakpoint_disable, but for the read of a tree node in their assertion and the two changes of protection |
| `Locks.EntryNeutral` | signal_test/hook_main.c:90-125 | so does the entry-point handler, but for entry_hit and the slot of the entry breakpoint |
| `Locks.CallNeutral` | signal_test/breakpoint.c:316-472 | so does every modelled call on every path |
| `LockAccesses.CallAccesses` | signal_test/breakpoint.c:64-472 | without its locks every call on every path makes exactly the accesses of the sequential program, in order |
| `Locks.RunInv` | signal_test/breakpoint.c:64-472 | in every run of threads making such calls exclusive locks are held once and every thread's remaining lock operations are in order |
| `Locks.WaitsUpwards` | signal_test/breakpoint.c:64-113 | a thread that is waited for wants, if anything, a lock of higher rank |
| `Locks.NoDeadlock` | signal_test/breakpoint.c:64-472 | in every reachable state with an unfinished thread some thread can step |
| `Locks.NoCyclicWait` | signal_test/breakpoint.c:64-472 | in no reachable state do threads wait for each other in a circle of any length |
| `Locks.NoRace` | signal_test/breakpoint.c:64-472 | in no run are two threads at conflicting accesses to the same state, except to the protection of text and to entry_hit, and where a tree node or a breakpoint is read without its lock while it is written with it |
| `LockAccesses.TreeRaced` | signal_test/breakpoint.c:419-419 | a run in which the assertion of breakpoint_enable reads a tree node while breakpoint_add changes the tree, for any two breakpoints |
| `LockAccesses.ProtectionRaced` | signal_test/breakpoint.c:430-434 | a run in which two operations on one object change its protection at the same time |
| `LockAccesses.EntryRaced` | signal_test/hook_main.c:108-119 | a run in which one thread reads entry_hit while another sets it |
| `LockAccesses.SlotRaced` | signal_test/hook_main.c:122-122 | a run in which the entry-point handler reads the slot of a breakpoint that is being enabled or disabled |
| `MapsParser.HexToInt` | signal_test/object.c:50-81 | code 1 for more than 17 digits, 2 for a character that is no hex digit, else the value modulo 2^64 |
| `MapsParser.RangeRoundTrip` | signal_test/object.c:83-121 | the printed form of any pair of 64-bit addresses is read back exactly |
| `MapsParser.RangeExactly` | signal_test/object.c:83-121 | a range field gives two addresses exactly if it is two fields of 1 to 17 hex digits around a dash, with their values modulo 2^64, and a failed assertion exactly if the first address, or the second behind a good first, is empty |
| `MapsParser.SeventeenDigits` | signal_test/object.c:61-63 | a 17-digit address is accepted and read as its last 16 digits |
| `MapsParser.ParseRange` | signal_test/object.c:83-121 | the range field gives two addresses, a parse failure or a failed assertion, as its digits say |
| `MapsParser.ParseAttr` | signal_test/object.c:123-169 | exactly the flags whose letters occur in the permission field |
| `MapsParser.ParseInode` | signal_test/object.c:171-205 | on any text: skips two fields, takes the inode field and stops at the file name, or runs past the end |
| `MapsParser.ReadsAsAnonymous` | signal_test/object.c:198-198 | the inode is read as zero exactly if it is zero or a 63-bit multiple of 2^32, and exactly below 2^32 |
| `MapsParser.LinesPrinted` | signal_test/object.c:231-331 | for the printed form of any lines: exactly the entries before the first malformed range, and success exactly if there is none |
| `MapsParser.ParseLine` | signal_test/object.c:247-279 | on any text: the entry of its first line and what follows, or a parse failure, a failed assertion or a read past the end, each exactly when it happens |
| `MapsParser.LinePrinted` | signal_test/object.c:247-279 | a printed line followed by anything gives exactly its fields and leaves what follows |
| `MapsParser.LineExactly` | signal_test/object.c:247-279 | on any text a line is read exactly if the text starts with the printed form of a line with a good range, and then its entry and the rest are those |
| `MapsParser.NotReadExactly` | signal_test/object.c:247-258 | a parse failure and a failed assertion come exactly from a first field whose range is malformed in that way |
| `MapsParser.DoneExactly` | signal_test/object.c:231-331 | on any text the parse succeeds exactly if the text is the printed form of some lines with good ranges, and the entries read are then theirs |
| `MapsParser.ObjectList.Contains` | signal_test/object.c:297-304 | whether the range is listed already |
| `MapsParser.ObjectList.Append` | signal_test/object.c:281-328 | the list grows exactly if the line is executable, its inode number is not zero and no listed object has its range, by one object at the tail with the line's addresses, file and permissions, barred exactly if it holds the parser's own code |
| `MapsParser.ObjectList.ParseMmap` | signal_test/object.c:231-331 | on any text: the entries read are absorbed in order, and the outcome is success, failure, a failed assertion or a read past the end |
| `MapsParser.AppendsExactly` | signal_test/object.c:281-328 | absorbing appends, in order, exactly the objects of the executable entries with an inode whose range was neither listed nor met before |
| `MapsParser.ParsingAgain` | signal_test/object.c:293-308 | parsing the same text again, whatever it is, adds nothing |
| `MapsParser.NeverRepeats` | signal_test/object.c:293-308 | the list never holds a range twice |
| `MapsParser.ExactObject` | signal_test/object.c:310-322 | a printed executable mapping gives an object with exactly those addresses and permissions, barred from breakpoints exactly if it holds the parser's own code |
| `MapsParser.MappingsRead` | signal_test/object.c:231-331 | the printed form of any mappings is read in full, with exactly their addresses and permissions |
| `MapsParser.LoadMappings` | signal_test/object.c:231-331 | parsing the printed form of any mappings succeeds and appends, in order, exactly the objects of those that are executable, whose inode number is neither zero nor a 63-bit multiple of 2^32, and whose range was neither listed nor that of an earlier one, with the printed addresses and permissions, barred exactly if they hold the parser's own code |
| `List.Turn` | signal_test/list.h:36-49 | a ring is a ring from any of its entries on |
| `List.Init` | signal_test/list.h:45-49 | a ring of one |
| `List.Add` | signal_test/list.h:81-84 | the ring with the entry right behind the head |
| `List.AddTail` | signal_test/list.h:98-101 | the ring with the entry at the end |
| `List.Del` | signal_test/list.h:123-161 | the rest closes into a ring and the entry is a ring of its own |
| `List.Replace` | signal_test/list.h:138-145 | the ring with one entry swapped, also for a head that was empty |
| `List.ReplaceInit` | signal_test/list.h:147-152 | the same, with the old entry a ring of its own |
| `List.Move` | signal_test/list.h:168-172 | within a list, the entry goes to the front and the others keep their order |
| `List.MoveAcross` | signal_test/list.h:168-172 | from one list to the front of another, both staying rings |
| `List.MoveTail` | signal_test/list.h:179-184 | within a list, the entry goes to the end |
| `List.MoveTailAcross` | signal_test/list.h:179-184 | from one list to the end of another |
| `List.Empty` | signal_test/list.h:201-204 | true exactly if the list has no elements |
| `List.EmptyCareful` | signal_test/list.h:219-223 | true exactly if the list has no elements |
| `List.IsLast` | signal_test/list.h:191-195 | true exactly if nothing follows the entry |
| `List.Splice` | signal_test/list.h:244-248 | the spliced elements come first, in their order, then the old ones; an empty list changes nothing and stays a ring |
| `List.SpliceInit` | signal_test/list.h:257-264 | the same, with the spliced head an empty list |
| `List.Walk` | signal_test/list.h:280-282 | list_for_each meets the elements in order, each once |
| `Threads.ThreadMap.Find` | signal_test/thread.c:110-121 | the object of the thread id, or null |
| `Threads.ThreadMap.Add` | signal_test/thread.c:66-88 | -1 and no change for a known id, else the map with the thread added |
| `Threads.ThreadMap.ForThread` | signal_test/hook_main.c:48-54 | the handlers get the one object of the running thread, made on first use |
| `X86.PatchOneByte` | src/breakpoint.c:25-26 | reading a word, changing its low byte and writing it back changes one byte of memory |
| `X86.EnableWrites` | src/breakpoint.c:25-26 | the peek and the poke of breakpoint_enable put 0xCC at the address and change nothing else, or nothing at all where the word is not mapped |
| `X86.DisableWrites` | src/arch-x86/breakpoint.c:12-15 | the assertion holds exactly if the word is mapped and its first byte is 0xCC, and then exactly that byte becomes the saved one |
| `X86.EnablePatches` | src/breakpoint.c:17-31 | enabling keeps memory equal to the original with 0xCC at exactly the enabled addresses, for breakpoints at any distance, exactly if all eight bytes of the word are mapped |
| `X86.EnableMemory` | src/breakpoint.c:17-31 | for memory alone enabling works exactly if all eight bytes are mapped, or the byte is not mapped at all, or is 0xCC by itself |
| `X86.DisablePatches` | src/breakpoint.c:33-46 | the 0xCC assertion holds, and disabling keeps that too, even if the saved word holds a neighbour's 0xCC |
| `X86.DisableAborts` | src/arch-x86/breakpoint.c:12-15 | where the word is not wholly mapped the assertion on 0xCC fails |
| `X86.Tracer.Enable` | src/breakpoint.c:17-31 | for any state: nothing if it is enabled, else the flag, 0xCC at the address and the word as saved, or only the flag and a saved -1 where the word is not mapped; others unchanged; the invariant stays exactly if the word is mapped or it was enabled already |
| `X86.Tracer.Disable` | src/breakpoint.c:33-46 | for any state: aborts exactly if it is enabled and the word is not mapped or does not start with 0xCC, changing nothing; else the flag is cleared and, if it was set, exactly that byte becomes the saved one; under the invariant never aborts and keeps it |
| `X86.Tracer.Resume` | src/breakpoint.c:88-107 | for any state: aborts as disabling does, else the return code, the flag, the byte and the saved byte for each outcome of the pc update and the single step, the others unchanged, and exactly when the invariant stays |
| `X86.Tracer.Create` | src/breakpoint.c:60-70 | the breakpoint as written, with the word at address 0 saved and patched in place of its own; where that is not mapped the invariant stays exactly if it was not to be enabled and no other has the address |
| `X86.Tracer.Delete` | src/breakpoint.c:79-86 | disables as above and drops the breakpoint |
| `X86.Tracer.PassEntry` | src/atrace.c:46-79 | creating an enabled breakpoint and resuming over it aborts, once the pc is set, exactly if the program has no 0xCC there by itself; if it has, that byte ends up as 0xFF |

## Left out

- The effects of `mmap`, `mprotect`, cache flushing, `sigaction` and `ptrace` beyond the words they map, write or read and the protection of text; the addresses that `mmap` returns and the success of the x86 single step are parameters, and a failing `mprotect` is not modelled.
- Weak memory ordering: the step systems are sequentially consistent.
- Instructions under a breakpoint that branch, depend on the program counter or write text, and breakpoints without a slot in the single-step protocol: the scheme does not support them, and `Stepping.FallsThrough` says so.
- A signal that arrives in a thread which is inside one of the engine's own calls.
- Preference of read-write locks for waiting writers.
- `thread_map_del` (its test is inverted), `object_unload`, `slot_set_deinit` and the commented-out `breakpoint_remove`.
- Reading `/proc/self/maps`, `readlink`, the ELF entry point, `object_get_by_file`, timing output and the demos.
- `breakpoint_find` of `src/`, the rest of `src/atrace.c`, `src/thread.c`, `src/object.c` and `include/list.h`: process control around system calls, or near copies of files modelled here.
- `include/error.h` and `src/error.c`: a small bit field with no property beyond its definition.
- Lifecycle and Stepping: memory is modelled word by word, so text addresses are multiples of 4 (`Lifecycle.Aligned`, `Stepping.Sane`); `breakpoint_add` also accepts other addresses, whose 4-byte stores overlap.
- MapsParser.ObjectList.ParseMmap: what a read past the end of the text finds is not modelled; it ends the parse with its own outcome.
- Slots.SlotList.TryAlloc: the word index that slot_alloc does not reset between sets is reset here, because a set that is scanned at all always yields a slot.
- SteppingSlots.EngineSimulation: slot_free is not part of the combined runs, because breakpoint_add calls it only on the -4 exit, which is not taken, and nothing else calls it.
- X86.Tracer.Create: the test of the offset against the end of the text is left out.
- Locks.NoRace: the fields that are written before an object or a breakpoint is shared and never again (addresses, attributes, file name) are not counted as shared state, nor are the links that a neighbour in a chain gets.
- Stepping.Simulation: breakpoints stand on program text that is no slot, so one at the accepted end of a range where slots begin is not part of the runs; threads exist from the start of a run.
- LifecycleEngine.Engine.Add: the object list does not change, although the entry-point handler loads it again; words of a slot region that were never written are not in memory.
- Threads.ThreadMap.Add: the buckets hold sequences in place of linked lists.
- Allocation failure.
