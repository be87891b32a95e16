# Verified core of the Objective-C runtime

A model in Dafny of the parts of the runtime where a fast structure has to agree with
a simple one, or where a protocol has to stay safe over whole runs, with proofs that
they do. `dafny verify dfyconfig.toml` checks all of it.

| files | what they model |
|---|---|
| SparseNodes, SparseArray | the 256-way radix tree with shared nodes: copy-on-write insertion, lazy copy, release, expansion, unrolled lookup, enumeration |
| Hierarchy, Installation, Dispatch, DispatchTables, TableArrays | dispatch tables: installation down the subclass tree, creation, rebasing, the version that guards cached slots; how sparse arrays hold them |
| LookAside, Initialization | +initialize, nested and concurrent, and the list of temporary tables |
| Locks | the three-state lock word and the ordered guards |
| ImageUnload | the mutation epoch, the unload scan and the detach of an image |
| HopscotchCells, Hopscotch | the hash table used throughout |
| TrampolinePages, Trampolines | IMPs for blocks: pages, free lists, address arithmetic, references of retiring blocks |
| ClassLinks, ClassResolution | the queue of unresolved classes and the subclass tree, threaded through the same two fields |
| ReloadPlans, SafeReload | two-phase reload of a class in place |
| ClassCache, ClassLookups | the per-thread class lookup cache, called alone and under any interleaving |
| IvarLayout | offsets of non-fragile ivars along a superclass chain and their alignment in memory |
| EncodedTypes, TypeEncoding, Signatures | the size and alignment walkers over type encodings and the argument accessors |
| Basics, Arithmetic | an option type; remainders and powers of two |

Objects that the source updates in place are classes with `modifies` clauses; memory is
a map from addresses to records, so that sharing and freeing are explicit, and ghost
fields carry the handles, free lists and sequences that the links stand for. Protocols
are transition relations over arbitrarily many threads, with theorems about every run.
Allocation may fail wherever the source checks for it.

The main theorems:

- `Dispatch.RunsAgree` and `Dispatch.CachedSlotIsSafe`: dispatch tables are the nearest
  definitions in every run, and a cached slot with a current version is never stale.
  The exact condition is that no override has the IMP of what it overrides
  (`AddKeepsAgreement` and `CreateKeepsAgreement` are equivalences, and
  `SharedImpLosesOverride` is a run in which it fails).
- `SparseArray.Memory.Perform` and `Insert` with `SparseNodes.InsertIsIsolated`,
  `CopyIsIsolated`, `DestroyIsIsolated` and `NoHandlesNoNodes`: copy-on-write isolation over
  any forest of arrays and exact reference counts, also when any allocation fails.
  `TableArrays.DispatchFindsNearest` carries the agreement to the arrays that dispatch reads.
- `Locks.RunsAreSafe`, `NoWaitCycle`, `FreeLockIsTaken` and `LeaveFreesLocks`;
  `ImageUnload.DetachIsSafe` and `DetachAlone`; `Initialization.ReturnsAfterInitialize` and
  `InitializeOnceAfterSuperclasses`; `ClassLookups.LookupIsFresh` and `QuietLookupIsExact`.
- `Hopscotch.Table`, `Trampolines.Allocator`, `ClassResolution.ClassTable`,
  `SafeReload.Reloader`: each operation against the abstract contents.
- `IvarLayout.IvarsNeverOverlap` and `DeclaredAlignmentHolds`;
  `TypeEncoding.SizeofType` and `AlignofType`, which stop at the same place, and
  `Signatures.CopyArgumentType`, which undoes the printing of a signature.

Where documentation and code differ, the code is followed. The comment on
`SparseArrayExpandingArray` (src/internal/dispatch/sarray2.h:116-118) speaks of one level
only; the code expands to any larger depth. The comment on `SparseArrayNext`
(src/internal/dispatch/sarray2.h:130-135) lets an enumeration from 0 return the entry at
0 and sets the index behind what it returns; the code starts above the index and sets it
to what it returns. For depths 16 and 24 with an occupied last index an enumeration does
not stop there but starts over, which the last clause of `SparseArray.Memory.Next` states
as an equivalence.

## Model

| member | source | states |
|---|---|---|
| `SparseArray.Memory.constructor` | src/dispatch/sarray2.c:9-12 | Memory starts with the four static empty nodes and no handle, and the reference-count invariant holds |
| `SparseArray.Memory.NewWithDepth` | src/dispatch/sarray2.c:47-61 | NULL exactly for an invalid depth or a failed allocation, and then nothing changes; otherwise a new handle reads NULL at every index |
| `SparseArray.Memory.Insert` | src/dispatch/sarray2.c:149-190 | Into any array that a handle holds: fails exactly when an allocation on the way does, and then no cell of any node changes; otherwise one index of one array changes; shared nodes are replaced, not written; every other array keeps its contents, every handle stays the only reference to its array, and every reference count again equals the number of holders |
| `SparseArray.Memory.OwnChild` | src/dispatch/sarray2.c:158-177 | The child to descend to is held by its parent alone: the old one, or a fresh or copied node that reads the same; NULL exactly when the allocation failed |
| `SparseArray.Memory.Abandon` | src/dispatch/sarray2.c:179-183 | Releasing a replacement that could not be filled completes a failed insert with no handle left over |
| `SparseArray.Memory.Publish` | src/dispatch/sarray2.c:184-189 | Storing the replacement child and giving up the old one completes the insert with no handle left over |
| `SparseArray.Memory.Copy` | src/dispatch/sarray2.c:190-211 | The copy is a new node with the same cells whose children are each counted once more; NULL exactly for NULL or a failed allocation, and then nothing changes |
| `SparseArray.Memory.Destroy` | src/dispatch/sarray2.c:213-238 | Exactly one handle is given up; the last one frees the node and, level by level, what only it held; no other node loses a cell, every array still held keeps its contents, and its handles stay the only references |
| `SparseArray.Memory.Expand` | src/dispatch/sarray2.c:67-98 | Expansion to any larger valid depth keeps every lookup below the old capacity and gives NULL above, in an array that its handle alone holds; other arrays keep their contents; it fails exactly for a wrong depth or a failed allocation, and then memory is as it was |
| `SparseArray.Memory.TakeDown` | src/dispatch/sarray2.c:79-88 | The unwinding loop of a failed expansion restores the original memory |
| `SparseArray.Memory.Perform` | src/dispatch/sarray2.c:47-238 | Over any forest of arrays, each operation on a held array keeps memory valid for the next and leaves every other held array as it was |
| `SparseArray.Memory.FindFrom` | src/dispatch/sarray2.c:106-135 | The recursive search returns the least entry at or after the start in its range, and what it returns when the start has wrapped |
| `SparseArray.Memory.Next` | src/dispatch/sarray2.c:137-147 | The least entry above the index, else NULL and UINT32_MAX; after an occupied last index it stops if and only if the depth is 8 or 32 |
| `SparseArray.Memory.Enumerate` | src/dispatch/dtable.c:527-537 | Starting at 0 the calls of Next give every entry from index 1 on, once each, in ascending order |
| `SparseArray.Memory.CountHookReferences` | src/dispatch/dtable.c:312-325 | The loop counts exactly the registered hooks whose address is in the range |
| `SparseArray.UnrolledLookup` | src/internal/dispatch/sarray2.h:69-105 | The unrolled lookup of each depth equals the level-by-level lookup |
| `TableArrays.NextInArray` | src/dispatch/dtable.c:530-548 | Where the last index is safe, each step of a loop over SparseArrayNext finds what the enumeration of the table finds |
| `TableArrays.WrapsAtLast` | src/dispatch/dtable.c:530-548 | Where it is not, the step after the last entry returns an entry instead of ending the loop |
| `TableArrays.InsertRepresents` | src/dispatch/dtable.c:415-415 | Inserting a method into the array of a table is adding it to the table |
| `TableArrays.RemoveRepresents` | src/dispatch/dtable.c:542-548 | Storing NULL takes the entry out of the table |
| `TableArrays.SameReadsRepresent` | src/dispatch/dtable.c:632-632 | An array that reads the same, such as a copy or one left alone, holds the same table |
| `TableArrays.DispatchFindsNearest` | src/internal/dispatch/sarray2.h:69-105 | The unrolled lookup on the array of a table that agrees finds the nearest definition up the superclass chain |
| `SparseNodes.SameCellIsCongruence` | src/dispatch/sarray2.c:149-159 | Two indices select the same cell exactly when they agree modulo the capacity |
| `SparseNodes.InsertIsIsolated` | src/dispatch/sarray2.c:149-190 | An insert into one array leaves the contents of every array another handle holds unchanged |
| `SparseNodes.CopyIsIsolated` | src/dispatch/sarray2.c:190-211 | A copy has the contents of its original and changes those of no other node |
| `SparseNodes.DestroyIsIsolated` | src/dispatch/sarray2.c:217-238 | Giving up one handle leaves the contents of every array that is still held unchanged |
| `SparseNodes.SoleIsUnheld` | src/dispatch/sarray2.c:149-238 | A handle is the only reference to its array exactly if no cell points at it and no other handle holds it |
| `SparseNodes.SoleKept` | src/dispatch/sarray2.c:149-238 | A step that makes no cell point at a held array keeps every handle the only reference |
| `SparseNodes.InsertDescends` | src/dispatch/sarray2.c:158-183 | Inserting into a child that only its parent holds is inserting into the parent |
| `SparseNodes.InsertPublished` | src/dispatch/sarray2.c:162-189 | Replacing a shared or empty child by a filled private node inserts into the parent and nowhere else |
| `SparseNodes.InsertUndone` | src/dispatch/sarray2.c:179-183 | Releasing a replacement that could not be filled leaves every node with the cells it had |
| `SparseNodes.ExclusivePathHasNoRoots` | src/dispatch/sarray2.c:158-189 | No node below the root that an insert writes in place is held by a handle |
| `SparseNodes.HigherKeepContents` | src/dispatch/sarray2.c:149-190 | Nodes above the level of a changed root that nothing points at keep their contents |
| `SparseNodes.HeldNodesSurvive` | src/dispatch/sarray2.c:179-183 | A step that gives up no handle and cuts no counted cell frees no node |
| `SparseNodes.NoHandlesNoNodes` | src/dispatch/sarray2.c:217-238 | Without handles only the static empty nodes remain: nothing leaks |
| `SparseNodes.ExpandStep` | src/dispatch/sarray2.c:89-98 | One more level on top shows the old contents below and NULL above |
| `DispatchTables.Runtime.InstallMethodInDtable` | src/dispatch/dtable.c:388-461 | The guard is exact; an installation changes the entry of the class and of precisely those subclasses that inherit the replaced entry through classes with tables, and advances the version if and only if an entry was replaced |
| `DispatchTables.Runtime.AddMethod` | src/runtime/runtime.c:201-259 | Adds exactly when the class does not define the name and memory suffices; otherwise nothing changes |
| `DispatchTables.Runtime.AddMethodToTable` | src/dispatch/dtable.c:581-597 | The new method is offered to the table with the superclass entry as the only one it may replace |
| `DispatchTables.Runtime.CreateDtable` | src/dispatch/dtable.c:599-655 | The first table is the table of the superclass with the own methods installed in order, and tables of other classes stay |
| `DispatchTables.Runtime.RemoveFromSubclassList` | src/runtime/runtime.c:905-927 | The class is cut out of the sibling chain of its superclass and the others keep their order |
| `DispatchTables.Runtime.NextEntry` | src/dispatch/dtable.c:527-548 | The enumeration step used by the rebase finds the least entry above an index, as SparseArrayNext does where the last index is safe |
| `DispatchTables.Runtime.RebaseTable` | src/dispatch/dtable.c:504-549 | A rebased table keeps the own entries and has exactly the new parent entry everywhere else |
| `DispatchTables.Runtime.TakeFromParent` | src/dispatch/dtable.c:529-537 | Every entry of the parent that is not an own one is taken over and marked as kept |
| `DispatchTables.Runtime.DropStale` | src/dispatch/dtable.c:538-548 | Every entry that is neither own nor of the new parent disappears |
| `DispatchTables.Runtime.RebaseDtableRecursive` | src/dispatch/dtable.c:504-564 | The class and all its descendants with tables are rebased, parents first, and no other table changes |
| `DispatchTables.Runtime.Relink` | src/runtime/runtime.c:605-614 | Moving the class to the new superclass keeps the sibling chains and the class tree well formed |
| `DispatchTables.Runtime.SetSuperclass` | src/runtime/runtime.c:593-650 | Relinking, giving the new superclass its table where it has none, rebasing and advancing the version happen in this order, or nothing when the superclass is the same |
| `DispatchTables.Runtime.CreateDtableAbove` | src/dispatch/dtable.c:599-655 | A superclass table created while a class below it waits to be rebased changes no other table where its class defines the selector, and none that is not below |
| `DispatchTables.Runtime.InitializeAbove` | src/runtime/runtime.c:645-645 | The new superclass and the superclasses it needs get their tables, from the top down |
| `DispatchTables.Runtime.GetSlot` | src/dispatch/sendmsg2.c:362-402 | On a class with a table the slot is the nearest definition up the superclass chain, with the current version |
| `Installation.FollowsThroughSubclass` | src/dispatch/dtable.c:437-451 | Which descendants an installation reaches is decided subclass by subclass |
| `Installation.InstallAdvances` | src/dispatch/dtable.c:437-451 | Each round of the loop over the subclasses extends the installation to one more subtree |
| `Installation.InstallEnds` | src/dispatch/dtable.c:437-451 | After the last subclass the loop has changed exactly the descendants that inherited the replaced entry |
| `Dispatch.AddedMeaning` | src/dispatch/dtable.c:388-461 | Adding a method changes the nearest definition exactly for the classes an installation reaches |
| `Dispatch.AddGuardIsFreshImp` | src/dispatch/dtable.c:403-414 | The guard passes exactly if the inherited definition has another IMP |
| `Dispatch.AddKeepsAgreement` | src/runtime/runtime.c:201-259 | Tables agree with the nearest definitions after an addition if and only if the class has no table or the IMP differs from the inherited one |
| `Dispatch.CreateKeepsAgreement` | src/dispatch/dtable.c:599-655 | Tables agree after a creation if and only if no own method shares the IMP of what it overrides |
| `Dispatch.BuiltEntry` | src/dispatch/dtable.c:463-484 | The entry of a new table is the own definition unless it shares the inherited IMP |
| `Dispatch.SharedImpLosesOverride` | src/dispatch/dtable.c:411-414 | A concrete class whose override shares the inherited IMP later loses it to a change of the superclass |
| `Dispatch.RebaseMeaning` | src/dispatch/dtable.c:504-564 | After the rebase every entry of every table is the nearest definition in the new hierarchy, whatever the entries were that the classes do not define |
| `Dispatch.RelinkIsPending` | src/runtime/runtime.c:605-614 | After relinking, tables outside the moved subtree agree and those inside are right where their classes define the selector |
| `Dispatch.CreateKeepsPending` | src/dispatch/dtable.c:599-655 | Creating a superclass table in between keeps it so |
| `Dispatch.RebaseRestores` | src/dispatch/dtable.c:504-579 | Rebasing from there restores the agreement of all tables |
| `Dispatch.SetSuperclassKeepsAgreement` | src/runtime/runtime.c:593-650 | Changing a superclass to a non-descendant keeps agreement for all classes, also when the new superclass gets its table on the way |
| `Dispatch.RunsAgree` | src/dispatch/dtable.c:388-655 | In every run of additions, creations and superclass changes all tables agree with the nearest definitions |
| `Dispatch.StepKeepsCachedSlots` | src/dispatch/dtable.c:453-459 | A step that leaves the version alone leaves every existing entry alone |
| `Dispatch.CachedSlotIsSafe` | objc/dispatch/slot.h:14-22 | In every run a slot cached with a version that is still current is what a fresh lookup returns |
| `LookAside.Lists.DtableForClass` | src/internal/dispatch/dtable.h:61-107 | The installed table, else the one the list holds for the class; a table is found exactly when one of the two exists |
| `LookAside.Lists.RemoveDtable` | src/dispatch/dtable.c:797-822 | Both tables of the pair are installed and exactly the two adjacent entries are unlinked |
| `LookAside.PairOf` | src/dispatch/dtable.c:797-822 | Behind the entry of a metaclass stands the entry of its class |
| `Initialization.LockedCannotAbort` | src/dispatch/dtable.c:610-633 | The superclass of a class about to get its table has one: the abort is unreachable |
| `Initialization.StepIsSafe` | src/dispatch/dtable.c:824-956 | Every step of a nested or concurrent initialization keeps the invariant on flags, tables, list, call stacks and class locks: a lock is held by exactly the thread that is behind it |
| `Initialization.RunsAreSafe` | src/dispatch/dtable.c:824-956 | The invariant holds in every run, whatever classes the +initialize methods message |
| `Initialization.InitializeOnceAfterSuperclasses` | src/dispatch/dtable.c:840-955 | +initialize is sent at most once to a class, and when it is, all superclasses are marked |
| `Initialization.ReturnsAfterInitialize` | src/dispatch/dtable.c:856-868 | In every run, once the call for a class has returned to a thread, the class and all its superclasses are marked and no other thread is ever again inside the +initialize of one of them |
| `Initialization.ReturnIsSettled` | src/dispatch/dtable.c:881-890 | The step that returns finds the class marked and no other thread inside its +initialize |
| `Initialization.StepKeepsSupers` | src/dispatch/dtable.c:840-844 | Whoever is past the superclasses of a class has waited for the +initialize of all of them |
| `Initialization.GoesOnUnlessBlocked` | src/dispatch/dtable.c:856-885 | A thread is held up only while another is behind the lock of the same class; a +initialize that ends can always be cleaned up |
| `Initialization.CleanupInstallsItsOwn` | src/dispatch/dtable.c:797-822 | A running +initialize was sent; when it returns the list is a sequence of pairs that holds its own pair, with the tables created for it, and the others stay |
| `Locks.Ordered` | src/internal/support/spinlock.h:124-129 | The guard holds the same two locks in ascending order |
| `Locks.StepIsSafe` | src/internal/support/spinlock.h:66-97 | Every atomic step keeps mutual exclusion, and a sleeping thread implies a waiters word or a pending notification |
| `Locks.RunsAreSafe` | src/internal/support/spinlock.h:66-97 | Both hold in every interleaving of any number of threads |
| `Locks.GuardsBalance` | src/internal/support/spinlock.h:124-143 | A guard on one lock acquires it once, one on two acquires both once, and an idle thread has released all it acquired |
| `Locks.NoWaitCycle` | src/internal/support/spinlock.h:112-144 | Threads that each use one guard never form a wait-for cycle |
| `Locks.NeverStuck` | src/internal/support/spinlock.h:66-144 | While any thread is busy, some thread that is awake can take a step of its own |
| `Locks.FreeLockIsTaken` | src/internal/support/spinlock.h:66-75 | In every reachable state a thread that is awake takes a free lock within two of its own instructions |
| `Locks.BusyLockIsAwaited` | src/internal/support/spinlock.h:76-86 | While another thread holds the lock, the thread sleeps after at most four instructions, with the word telling the holder to wake it |
| `Locks.GuardTakesFreeLocks` | src/internal/support/spinlock.h:124-135 | A guard on two free locks, in either order, or on one lock twice, holds exactly them after one instruction for each |
| `Locks.LeaveFreesLocks` | src/internal/support/spinlock.h:89-97 | Giving up a guard ends with both locks free and with whoever still sleeps on them about to be woken |
| `ImageUnload.StepIsSafe` | src/runtime/loader.c:452-631 | Every step of writers, notes, scans and detaches keeps the invariant that ties epochs to mutations |
| `ImageUnload.RunsAreSafe` | src/runtime/hooks.c:26-47 | The invariant holds in every interleaving |
| `ImageUnload.EvenEpochMeansQuiet` | src/runtime/loader.c:452-602 | If the epoch is even and the same as before the scan, and has not gone all the way round, no bracketed mutation ran in between |
| `ImageUnload.ParityOfEpoch` | src/runtime/hooks.c:26-47 | The 64-bit wrap-around keeps the parity of the epoch |
| `ImageUnload.DetachIsSafe` | src/runtime/loader.c:604-631 | When a detach commits, the epoch is the one the caller named and not 0, no writer is inside, nothing has changed since the scan began, and the image is retired, of known range, without metadata and without a code address of the runtime inside |
| `ImageUnload.DetachAlone` | src/runtime/loader.c:604-631 | Undisturbed, a detach succeeds exactly if the image is retired, of known range, without metadata and unreferenced, and the epoch even, not 0 and the one named; nothing else changes |
| `ImageUnload.DetachRuns` | src/runtime/loader.c:452-631 | An idle thread can always go through with such a detach |
| `ImageUnload.ChangesShow` | src/runtime/hooks.c:26-47 | When an image changes or a mutation begins, ends or is noted, the epoch moves, and no detach commits for the one before |
| `ImageUnload.ImagesOnlyMoveForward` | src/runtime/loader.c:435-450 | An image only moves from active to retired, which a retirement achieves, to detached, and to detached only by a committed detach of that image |
| `ImageUnload.ScanMethodCode` | src/runtime/loader.c:371-416 | A report stays clean exactly if it was clean, the method list could be copied, and neither an implementation nor a cached constructor or destructor lies in the image; the counters do not wrap |
| `ImageUnload.CountCode` | src/runtime/loader.c:383-398 | The count and the flag stay clear exactly if they were and no implementation lies in the image |
| `Hopscotch.Table.constructor` | src/internal/support/hash_table.h:137-162 | A new table of power-of-two size is empty and well formed |
| `Hopscotch.Table.GetCell` | src/internal/support/hash_table.h:363-394 | A key is found exactly when the table holds a value of it |
| `Hopscotch.Table.FirstHop` | src/internal/support/hash_table.h:374-392 | The lowest set bit is the least hop |
| `Hopscotch.Table.Probe` | src/internal/support/hash_table.h:301-328 | A value is placed exactly if its home or one of the 32 cells after it is empty, in the nearest of them; it is added to the contents and counted; otherwise nothing changes |
| `Hopscotch.Table.MoveSecond` | src/internal/support/hash_table.h:396-414 | Filling the hole from its own hops, down the chain, loses no value and leaves no hole |
| `Hopscotch.Table.Remove` | src/internal/support/hash_table.h:416-451 | Exactly the value of the key disappears, and the count with it |
| `Hopscotch.Table.Resize` | src/internal/support/hash_table.h:185-231 | Twice the size, the same contents and count, with every value in the nearest empty cell from its new home; refused exactly without memory or beyond the size limit, and then unchanged; crowded exactly if some value finds no room, which never happens when no value lies before its home |
| `Hopscotch.Table.Insert` | src/internal/support/hash_table.h:301-358 | Adds exactly the value, and does so exactly if it has room now or the table is over four fifths full, can double, and has room then; a crowded table that does not grow is unchanged, and one that has grown keeps its contents |
| `HopscotchCells.FoundFromHome` | src/internal/support/hash_table.h:363-394 | Every value is in its home cell or at a hop that the home cell records |
| `HopscotchCells.PlaceAtHome` | src/internal/support/hash_table.h:305-314 | A value in its empty home cell keeps the invariant and adds itself |
| `HopscotchCells.PlaceAway` | src/internal/support/hash_table.h:315-328 | A value within reach of its occupied home cell, with its hop bit, keeps the invariant and adds itself |
| `HopscotchCells.PutKeeps` | src/internal/support/hash_table.h:305-328 | Putting a value into the nearest empty cell from its home keeps the invariant and adds the value |
| `HopscotchCells.RoomWithinReach` | src/internal/support/hash_table.h:301-328 | There is room exactly if one of the 33 cells selected by the hash with offsets 0 to 32 is empty |
| `HopscotchCells.PutIsNearest` | src/internal/support/hash_table.h:305-328 | The value goes to the nearest of them and every other cell keeps its value |
| `HopscotchCells.UnwrappedRefills` | src/internal/support/hash_table.h:185-231 | Growing a table in which no value lies before its home always finds room for every value |
| `HopscotchCells.OpenHole` | src/internal/support/hash_table.h:416-451 | Taking a value out leaves at most one cell that may be empty with hops |
| `HopscotchCells.MoveUp` | src/internal/support/hash_table.h:396-414 | Moving a value from a hop into the hole moves the hole and keeps the contents |
| `HopscotchCells.CloseHole` | src/internal/support/hash_table.h:396-414 | A hole without hops is an ordinary empty cell |
| `HopscotchCells.SlotIsHop` | src/internal/support/hash_table.h:241-246 | Hashing with an offset and reducing is stepping from the home cell, also around the end |
| `HopscotchCells.HopsNeedDivisor` | src/internal/support/hash_table.h:241-246 | The wrap-around of the hash agrees with the hops exactly for table sizes that divide its range |
| `HopscotchCells.LastHashBreaks` | src/internal/support/hash_table.h:241-246 | For any other size it already fails at the greatest hash |
| `Trampolines.Allocator.Bind` | src/blocks/block_to_imp.c:313-375 | A bound block gets an IMP that is not live and is what that IMP now stands for; it succeeds exactly for a block when a page has a free slot or a new page can be had, and otherwise nothing changes |
| `Trampolines.Allocator.AddPage` | src/blocks/block_to_imp.c:177-209 | A new page adds free slots only and keeps all pages apart |
| `Trampolines.Allocator.PickPage` | src/blocks/block_to_imp.c:339-351 | A page with a free slot is found exactly when the list has one |
| `Trampolines.Allocator.TakeSlot` | src/blocks/block_to_imp.c:351-370 | The first free slot leaves the free list and becomes live |
| `Trampolines.Allocator.IndexForImp` | src/blocks/block_to_imp.c:377-392 | The page whose code contains the address, and the slot by division; none exactly if no page contains it |
| `Trampolines.Allocator.Locate` | src/blocks/block_to_imp.c:377-409 | A live IMP is found at the very slot it was bound to |
| `Trampolines.Allocator.GetBlock` | src/blocks/block_to_imp.c:394-409 | imp_getBlock inverts the binding; an address outside all pages gives NULL, and that of a free slot the link of the free list |
| `Trampolines.Allocator.Snapshot` | src/blocks/block_to_imp.c:411-433 | The references taken before the slot is freed are those of the block bound to the IMP |
| `Trampolines.Allocator.BeginRemove` | src/blocks/block_to_imp.c:411-441 | Removal succeeds exactly for a live IMP with memory, and the block moves from live to retiring, with a snapshot of exactly its non-null addresses |
| `Trampolines.Allocator.FreeSlot` | src/blocks/block_to_imp.c:434-440 | The slot goes back to its free list and only its IMP stops being live |
| `Trampolines.Allocator.EndRemove` | src/blocks/block_to_imp.c:442-454 | After the release exactly this retiring entry is unlinked |
| `Trampolines.Capture` | src/blocks/block_to_imp.c:236-266 | The snapshot holds exactly the non-null ones of the code, block, invoke, descriptor, helper and signature addresses, the latter where the descriptor has them: seven entries always suffice |
| `Trampolines.CountSnapshot` | src/blocks/block_to_imp.c:268-279 | The saturating count is zero exactly if it was and no reference lies in the range |
| `Trampolines.Allocator.CountPage` | src/blocks/block_to_imp.c:281-296 | The live blocks of a page, and no free slot, are counted |
| `Trampolines.Allocator.CountList` | src/blocks/block_to_imp.c:281-296 | The same for all pages of a list |
| `Trampolines.Allocator.CountReferences` | src/blocks/block_to_imp.c:298-311 | The count is zero exactly if for every live slot the code, block, invoke and descriptor addresses and, where the descriptor has them, the helpers and the signature are NULL or outside the range, and so are all references of retiring blocks |
| `Trampolines.ImpIsUnique` | src/blocks/block_to_imp.c:351-370 | An address belongs to one slot of one page |
| `Trampolines.BindKeepsLive` | src/blocks/block_to_imp.c:351-370 | Binding keeps the live map equal to what the occupied slots hold |
| `Trampolines.FreeKeepsLive` | src/blocks/block_to_imp.c:434-440 | So does freeing |
| `TrampolinePages.FreeTestIsExact` | src/blocks/block_to_imp.c:228-234 | The test by address recognises exactly the slots on the free list |
| `TrampolinePages.SlotRoundTrip` | src/blocks/block_to_imp.c:377-392 | The slot computed from a slot address is that slot |
| `TrampolinePages.NextFree` | src/blocks/block_to_imp.c:353-363 | The link of the first free slot leads to the second, or nowhere from the last |
| `TrampolinePages.FreshPageOk` | src/blocks/block_to_imp.c:177-209 | The free list of a new page visits every slot once |
| `TrampolinePages.BindKeepsPage` | src/blocks/block_to_imp.c:353-366 | Taking the first slot keeps the free list exact |
| `TrampolinePages.FreeKeepsPage` | src/blocks/block_to_imp.c:437-439 | Putting a slot back keeps the free list exact |
| `TrampolinePages.SecondFreeBreaksList` | src/blocks/block_to_imp.c:437-439 | Removing an IMP whose slot is already free leaves the page without any free list |
| `TrampolinePages.FreeSlotHoldsLink` | src/blocks/block_to_imp.c:228-234 | The header of a free slot holds NULL or the address of another header |
| `ClassResolution.ClassTable.Insert` | src/runtime/class_table.c:192-203 | An unresolved class goes to the head of the queue, a resolved one is not queued, and both lists stay well formed |
| `ClassResolution.ClassTable.Resolve` | src/runtime/class_table.c:302-433 | The class becomes resolved, its superclasses before it, and leaves the queue; no class that ranks above it becomes resolved on the way |
| `ClassResolution.ClassTable.ResolveOne` | src/runtime/class_table.c:342-410 | Exactly the class and its metaclass become resolved and the invariant on queue and tree holds again |
| `ClassResolution.ClassTable.Dequeue` | src/runtime/class_table.c:342-358 | The class is unlinked from both directions of the queue and its two link fields are cleared |
| `ClassResolution.ClassTable.Join` | src/runtime/class_table.c:391-410 | Class and metaclass are put at the head of the lists of their superclasses and marked |
| `ClassResolution.ClassTable.RootMetaOf` | src/runtime/class_table.c:376-388 | The walk to the root finds the metaclass that the metaclass of the superclass already has |
| `ClassResolution.ClassTable.WalkQueue` | src/runtime/class_table.c:441-463 | A pass either shortens the queue or finds it empty; a resolved class met on the way implies that this pass resolved something |
| `ClassResolution.ClassTable.ResolveAll` | src/runtime/class_table.c:435-464 | The fixpoint loop ends with an empty queue and every registered class and its metaclass resolved |
| `ClassResolution.ResolveKeeps` | src/runtime/class_table.c:342-410 | Moving one class from the queue into the tree keeps the queue exactly the unresolved classes and each resolved node once in the chain of its parent |
| `ClassResolution.MetaclassLinks` | src/runtime/class_table.c:366-391 | The metaclass of a resolved class has the metaclass of the root as its own, and the metaclass of the superclass, or the root itself, as superclass |
| `ClassResolution.InsertKeeps` | src/runtime/class_table.c:192-203 | Registering a class keeps the same invariant |
| `ClassLinks.UnlinkKeepsQueue` | src/runtime/class_table.c:342-358 | Unlinking any member leaves a doubly linked list of the others in order |
| `ClassLinks.PushKeepsQueue` | src/runtime/class_table.c:192-203 | Pushing a class gives the doubly linked list with it in front |
| `ClassLinks.AdoptKeepsTree` | src/runtime/class_table.c:397-406 | A node without subclasses joins a sibling chain once and disturbs no other chain |
| `SafeReload.Reloader.FindMethod` | src/runtime/class_table.c:613-626 | The first method of the name, with an unreadable list ending the search |
| `SafeReload.Reloader.PlanContainsName` | src/runtime/class_table.c:628-637 | True exactly if the plan has an entry of the name |
| `SafeReload.Reloader.CountMethods` | src/runtime/class_table.c:653-664 | Succeeds exactly if all lists are readable and the total fits, and then with the number of methods |
| `SafeReload.Reloader.PlanOne` | src/runtime/class_table.c:697-718 | A record is skipped, refused for the stated reason, or extends the plan |
| `SafeReload.Reloader.PlanList` | src/runtime/class_table.c:695-719 | The records of one list extend the plan or are refused for the stated reason |
| `SafeReload.Reloader.PlanEntries` | src/runtime/class_table.c:692-720 | The entries are the first definitions of the candidate, each with the record it replaces, or a real fault is reported |
| `SafeReload.Reloader.FillAdditions` | src/runtime/class_table.c:747-762 | All copies are made, or an allocation failed and none is left behind |
| `SafeReload.Reloader.PreparePlan` | src/runtime/class_table.c:666-764 | A plan for the whole candidate and its additions, or a reason that is true of the candidate and memory as before; lack of memory is the reason exactly if an allocation failed |
| `SafeReload.Reloader.CommitPlan` | src/runtime/class_table.c:781-812 | The additions come first in the list of the class and the records of the other entries get their new IMPs in place |
| `SafeReload.Reloader.Reload` | src/runtime/class_table.c:836-882 | The reload happens whenever both metaclasses exist, the layout fits, no signature clashes, the records are good and no allocation fails; any refusal gives a true reason and leaves all lists and records as they were; on success every name of class and metaclass means the first definition of the candidate where there is one and otherwise what it meant, and every record keeps its address, name and types; then all lists of the candidate were readable and all its records complete |
| `SafeReload.BadRecords` | src/runtime/class_table.c:666-703 | Bad metadata means an unreadable list, a record without name, types or IMP, or more records than an int counts |
| `ReloadPlans.UnreadableEnds` | src/runtime/class_table.c:613-626 | What stands behind an unreadable list is not found |
| `ReloadPlans.CommitMeaning` | src/runtime/class_table.c:781-812 | What a name means after the commit, and that a record found before is found again |
| `ReloadPlans.PlanIsCompatible` | src/runtime/class_table.c:706-712 | A plan exists only if the signatures of all shared names match |
| `ReloadPlans.ClashIsReal` | src/runtime/class_table.c:706-712 | A refused signature is a mismatch of the first definition of the candidate |
| `ClassCache.CacheSet` | src/runtime/class_table.c:158-165 | Every address selects one of the sixteen sets |
| `ClassCache.ThreadCache.Flush` | src/runtime/class_table.c:217-223 | After a change of generation the cache is empty, otherwise untouched |
| `ClassCache.ThreadCache.ChooseWay` | src/runtime/class_table.c:238-246 | A free way if the set has one, else a way in range |
| `ClassCache.ThreadCache.Get` | src/runtime/class_table.c:213-252 | Whatever is cached, the result is that of a table lookup of the text the buffer holds now; only the result can be newly cached, and it is cached for this buffer and not the next of its set to be replaced |
| `ClassLookups.StepIsSafe` | src/runtime/class_table.c:192-252 | Every step of concurrent lookups and mutations keeps the invariant that cached classes were current in their generation |
| `ClassLookups.RunsAreSafe` | src/runtime/class_table.c:192-252 | The invariant holds in every interleaving |
| `ClassLookups.LookupIsFresh` | src/runtime/class_table.c:213-252 | Under any interleaving the result was in the table at a moment when all mutations completed before the lookup were in force |
| `ClassLookups.QuietLookupIsExact` | src/runtime/class_table.c:213-252 | Without a mutation under way the result is exactly that of a direct table lookup |
| `ClassLookups.PendingMutationShows` | src/runtime/class_table.c:931-934 | Between writing the table and advancing the generation the replaced class can still be returned |
| `IvarLayout.PlaceIvars` | src/runtime/ivar.c:63-110 | Every ivar gets the offset and the class the size that the layout defines, aliases those of their leader |
| `IvarLayout.Runtime.ComputeIvarOffsets` | src/runtime/ivar.c:15-125 | A late-bound class is laid out after its superclasses, those still to be done first, and nothing else changes; one laid out before is unchanged, also when its size is 0 and the code computes it again; a class without ivars whose superclass is not laid out copies its unfinished size |
| `IvarLayout.Runtime.CopySize` | src/runtime/ivar.c:17-25 | A class without an ivar list gets the size of its superclass, laid out or not |
| `IvarLayout.StrandedCopiesNegativeSize` | src/runtime/ivar.c:17-25 | A concrete chain in which that size is negative |
| `IvarLayout.IvarExtent` | src/runtime/ivar.c:92-109 | An ivar that is no alias begins after the superclass, ends within the instance size and is aligned with the reference count in front; a _Bool of size 0 gets one byte |
| `IvarLayout.IvarsArePacked` | src/runtime/ivar.c:92-109 | It begins less than its alignment after what precedes it, and the instance ends with the last ivar |
| `IvarLayout.AlignField` | src/internal/runtime/ivar.h:89-95 | The alignment is the power of two whose exponent is in the six bits above the lowest three of the flags |
| `IvarLayout.SetAlignIsRead` | src/internal/runtime/ivar.h:97-115 | ivarGetAlign reads back what ivarSetAlign stored: the greatest power of two that is no greater, 1 for 0; the other flags stay |
| `IvarLayout.IvarsNeverOverlap` | src/runtime/ivar.c:15-125 | Along any superclass chain two ivars that are no aliases never overlap |
| `IvarLayout.AliasesShareStorage` | src/runtime/ivar.c:84-92 | An alias has the offset of its leader and lies inside it exactly if it is no larger |
| `IvarLayout.LargerAliasEscapes` | src/runtime/ivar.c:88-92 | An ivar of size 0 turns the next one into an alias that ends beyond the object |
| `IvarLayout.StricterAliasIsMisaligned` | src/runtime/ivar.c:84-92 | Below a superclass of size 1 an int that became an alias of an empty ivar is misaligned in every allocation |
| `IvarLayout.AliasAligned` | src/runtime/ivar.c:84-104 | An alias that asks for no more alignment than its leader is aligned |
| `IvarLayout.FirstAliasAligned` | src/runtime/ivar.c:84-104 | An alias of the first ivar is aligned below every superclass exactly if it asks for no more than that ivar |
| `IvarLayout.AlignedWithAllocation` | src/memory/gc_none.c:36-47 | An ivar, also an alias that asks for no more alignment than its leader, is aligned in memory exactly if the allocation is aligned for it |
| `IvarLayout.AlignedInMemory` | src/memory/gc_none.c:25-47 | With the 64-byte aligned allocation every ivar of alignment up to 64 is aligned in memory, unless it is an alias that asks for more alignment than its leader |
| `IvarLayout.DeclaredAlignmentHolds` | src/memory/gc_none.c:25-47 | An ivar declared with any alignment from 1 to 64, or an alias of one declared with no less, is at a multiple of it in every 64-byte aligned allocation |
| `IvarLayout.EmptyLayoutIsStable` | src/runtime/ivar.c:43-46 | Computing the layout of a class of size 0 again gives the same offsets |
| `TypeEncoding.SkipQualifiers` | src/encoding/encoding2.c:23-31 | Stops at the first character that is no qualifier |
| `TypeEncoding.SizeofType` | src/encoding/encoding2.c:196-284 | Stops exactly at the end of the printed type, with the size that the structure of the type gives |
| `TypeEncoding.SizeofCompound` | src/encoding/encoding2.c:236-280 | The same for structures, arrays, unions and pointers |
| `TypeEncoding.SizeofUnionField` | src/encoding/encoding2.c:286-292 | Stops at the end of the field, with the larger of the two sizes |
| `TypeEncoding.AlignofType` | src/encoding/encoding2.c:301-380 | Stops exactly where the size walker does, with the larger of the alignment so far and that of the type |
| `TypeEncoding.AlignofTypeBytes` | src/encoding/encoding2.c:391-396 | The alignment of the type in bytes |
| `TypeEncoding.ParseArray` | src/encoding/encoding2.c:90-99 | Consumes the brackets, the count and the element, and returns the count as an int |
| `TypeEncoding.ParseStructOrUnion` | src/encoding/encoding2.c:101-135 | Consumes the aggregate, opaque or defined, and hands every field to the callback once |
| `TypeEncoding.ParseFields` | src/encoding/encoding2.c:112-134 | The loop stops behind the closing bracket with the accumulated fields, named or unnamed |
| `TypeEncoding.SkipName` | src/encoding/encoding2.c:103-111 | Stops behind the name and tells an opaque type from a defined one |
| `TypeEncoding.SkipObject` | src/encoding/encoding2.c:164-187 | Stops at the last character of an object or block type with its class name or signature |
| `TypeEncoding.Call` | src/encoding/encoding2.c:85-88 | All three callbacks consume exactly the type they are given |
| `EncodedTypes.AlignOfFields` | src/encoding/encoding2.c:338-349 | Walking the fields one after the other accumulates their greatest alignment |
| `EncodedTypes.ValueOfDecimal` | src/encoding/encoding2.c:94-94 | The printed element count is read back |
| `EncodedTypes.PrimitiveSizes` | src/internal/support/type_encoding_cases.h:11-35 | The size and alignment of every primitive and complex type |
| `EncodedTypes.CountAsInt` | src/encoding/encoding2.c:94-94 | The element count is the number itself below 2^31, otherwise what is left of it in an int |
| `EncodedTypes.ArraySize` | src/encoding/encoding2.c:244-252 | An array is as large as its elements together |
| `EncodedTypes.StructSizeIsC` | src/encoding/encoding2.c:203-243 | A structure of scalars has the size of its C layout if every pointer in it is aligned without padding |
| `EncodedTypes.UnalignedPointerIsTooSmall` | src/encoding/encoding2.c:273-280 | A concrete structure whose size is smaller than in C, because a pointer is not aligned |
| `EncodedTypes.UnionSize` | src/encoding/encoding2.c:253-260 | A union is as large as its largest field |
| `EncodedTypes.GreatestAlignment` | src/encoding/encoding2.c:338-349 | An aggregate is aligned for its most demanding field |
| `Signatures.SkipTypespec` | src/encoding/encoding2.c:36-40 | Stops at the end of the type |
| `Signatures.SkipArgspec` | src/encoding/encoding2.c:43-48 | Stops at the next argument, behind the frame offset if there is one |
| `Signatures.LengthOfTypeEncoding` | src/encoding/encoding2.c:50-56 | The length of the first printed type, 0 for an empty string |
| `Signatures.NumberOfArguments` | src/encoding/encoding2.c:475-486 | The number of printed types less one, as an unsigned int |
| `Signatures.PrintedSignature` | src/encoding/encoding2.c:475-486 | Every sequence of well-formed types prints to a signature that the accessors read |
| `Signatures.FindParameterStart` | src/encoding/encoding2.c:67-80 | The position of the argument exactly if the signature has it |
| `Signatures.CopyTypeEncoding` | src/encoding/encoding2.c:58-65 | The copy is the print of the type |
| `Signatures.CopyArgumentType` | src/encoding/encoding2.c:495-504 | A printed signature gives back the type of each argument, and nothing beyond the last |
| `Signatures.GetArgumentType` | src/encoding/encoding2.c:447-472 | The terminated type if it fits, otherwise as much as fits |

## Left out

- Type-dependent dispatch, forwarding and mismatch hooks, tracing hooks other than their count: foreign callbacks.
- Replacing or exchanging IMPs in place and categories that override an own method of an installed table: outside the agreement that the tables promise.
- Resizing all dispatch tables, hidden classes and duplicated classes: an enumeration over classes outside the tree.
- Selectors are indices from 1 on, as the selector table hands them out (src/dispatch/selector_table.cc:366); tables in the dispatch modules are finite maps, and their radix form is SparseArray.
- DispatchTables.Runtime.SetSuperclass: moves one node of the hierarchy; the source moves a class and its metaclass, which are two such moves. Giving a table to a new superclass assumes that the classes concerned share no IMP with what they override, as creating a table does.
- DispatchTables.Runtime.DropStale: runs over a finite map, as TakeFromParent does.
- DispatchTables.Runtime.TakeFromParent: the loop runs over a finite map and always ends; over a sparse array it does so where the last index is safe (`TableArrays.NextInArray`) and not where it is occupied at depth 16 or 24 (`TableArrays.WrapsAtLast`).
- DispatchTables.Runtime.GetSlot: does not model the second search by untyped selector, which returns an uncacheable slot with version 0.
- Reference counts, the dispatch version, the class table generation and the tickets of retiring blocks are unbounded; the mutation epoch is taken modulo 2^64.
- Initialization.RunsAreSafe: has the steps that StepIsSafe has.
- Initialization.StepIsSafe: does not model a metaclass that is already initialized when its class is, because only a metaclass messaged as an object leads there.
- Hopscotch.Table.Insert: ends with `Crowded` where the source goes on to rebalance (src/internal/support/hash_table.h:248-298), whose intermediate holes break reachability.
- Hopscotch.Table.constructor: a size that is no power of two is not part of the model, because the hops then break (`HopsNeedDivisor`); every table of the runtime is created with a power of two.
- Hopscotch.Table.Resize: ends with `Crowded` where the source goes on to rebalance; does not model readers of the old cells while the new ones are filled; hop bits are sets of offsets.
- ImageUnload.StepIsSafe: mutations that are not bracketed by begin and end, and the fields of the report other than the references, are not part of the model.
- Trampolines.Allocator.Snapshot: does not model an IMP that BeginRemove does not.
- Trampolines.Allocator.BeginRemove: does not model an IMP of an existing page that is not live, because the source then takes a link of the free list for a block object; `SecondFreeBreaksList` shows what that does to the list.
- Trampolines.Allocator.Bind: copying the block, page protection and the code of the trampolines are not part of the model; the Thumb bit is not set.
- SafeReload.Reloader.Reload: the layout comparison is a parameter; the entries of dispatch tables, the cached C++ constructors and the events are not part of the model.
- ClassResolution.ClassTable.Resolve: +load messages, the load callback and the old ABI's lookup of a superclass by name are not part of the model.
- ClassCache.ThreadCache.Get: the caller's buffer does not change during the call; it may between calls.
- IvarLayout.Runtime.ComputeIvarOffsets: offsets are unbounded; by `IvarExtent` they fit the source's int whenever the instance size does. A class with ivars below a class without them whose own superclass is not laid out, where the source starts from a negative size (`StrandedCopiesNegativeSize`), statically laid-out classes and legacy ivar lists are not part of the model.
- TypeEncoding.AlignofType: reads the types that SizeofType does.
- TypeEncoding.SizeofType: bit-fields are not part of the model, nor are a bare ? outside a pointee or a named field behind a bare @; sizes are those of a 64-bit target and follow the code, which does not align pointers and nested aggregates as C does.
- EncodedTypes.StructSizeIsC: is about structures of scalars; nested aggregates are not compared with C.
- Exceptions, ARC, weak references, associated objects, properties, protocols, the legacy ABI and platform files.
