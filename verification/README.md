# Roanix: a model of its shared structures, proved in Dafny

Roanix is a kernel written in Rust. This project models the parts of it in which a fast or concurrent
structure has to agree with a simple one, and proves that it does.

| files | what they model |
|---|---|
| `RunLength.dfy`, `Anon.dfy` | anonymous maps: slots shared by many range references, per-slot counts run-length encoded in place, five ways to grow |
| `HeapPages.dfy`, `RetireQueue.dfy`, `HeapRetire.dfy` | the kernel heap's pages: first-fit search by stored spans, and frames quarantined until every processor has acknowledged a shootdown |
| `SlabHeap.dfy` | slabs with intrusive free lists and doubly linked partial lists, per-processor magazines |
| `NameCache.dfy` | the component-name cache gated by a sequence word per directory |
| `TmpfsTree.dfy`, `Tmpfs.dfy`, `TmpfsReaddir.dfy` | the memory filesystem: a tree under create, link, unlink and rename, and its listings |
| `MountTable.dfy` | the mount table and the gate between directory mutations and topology changes |
| `Block.dfy`, `Partition.dfy` | block devices over one flat disk, partition discovery |
| `Extents.dfy`, `ExtentTree.dfy`, `Ext4Readdir.dfy` | ext4 extents read directly and through a merged memory object, extent trees, directory listings |
| `Fat.dfy`, `FatReaddir.dfy` | FAT files read through a cached cluster chain, directory listings |
| `Irq.dfy`, `DevfsLifecycle.dfy`, `IdentityCache.dfy` | lifetime protocols: interrupt handlers, device nodes, shared file objects |
| `Tty.dfy` | terminal output post-processing |
| `Common.dfy`, `Arith.dfy`, `Sorting.dfy`, `LittleEndian.dfy`, `RawDisk.dfy`, `Batches.dfy` | what the others share |

Code that updates fields is modelled by classes whose methods are proved against the values of those fields;
loops stay loops. Concurrent code is modelled by a state machine: a state is a value, a step is one atomic
instruction or one section under a lock, `Next` is the choice of any step, and `RunsKeep` proves the invariant
for every state of every run. Atomic instructions are sequentially consistent. Allocation failures, device
failures and the outcome of callbacks are parameters of a step, or chosen freely inside a method. Where a method
reads or writes a device, the device may be declared reliable: then nothing is chosen, and the contract says when
the method still fails.

Dafny's integers are unbounded. Limits of the original's integers that matter are written out: the `i32` counts
of anonymous maps, the 64-bit cookies of the memory filesystem, checked additions of block addresses, the cut of a
block count to 32 bits, the fields of the lifecycle word, the saturating and wrapping column of the terminal.

Where a property does not hold of the code, the model keeps the code, shows an input on which it fails and
states exactly when it holds:

- The page search misses a free run that straddles its hint. `HeapPages.StraddlingRunIsMissed` gives one for every
  hint, `HeapPages.MissARun` reaches one from an empty heap, and `HeapPages.WindowsCover` says exactly which runs are
  seen.
- A large allocation that fails half-way frees the frames of the pages it had mapped without a shootdown. If another
  processor has loaded such a page meanwhile, it can still translate to the freed frame.
  `HeapRetire.RollbackCanLeaveStaleFrame` gives the run, and `HeapRetire.FreeFramesUnreachable` says that over any run
  this is the only way.
- A byte range of 2^32 whole blocks or more is refused even where the device has them, because the count of blocks is
  cut to 32 bits (`Block.LargeTransferIsRefused`). `Block.Disk.ReadBytes` and `Block.Disk.WriteBytes` say that on a
  reliable disk nothing else that fits is refused, and `Extents.PagerRead` what that means for mapped files.
- The column of the terminal is not always the position of the cursor. A tab that goes out as it is counts as one column
  (`Tty.TabIsMiscounted`), where the same counter goes to the next tab stop when a tab is echoed
  (kernel/src/dev/tty.rs:1861-1866), and at its limit the counter wraps around (`Tty.ColumnMayWrap`).
  `Tty.ColumnIsCursorExactly` says that nothing else goes wrong.

## Model

| member | source | states |
|---|---|---|
| `RunLength.DecodesTo` | kernel/src/mem/anon.rs:397-414 | walking stored runs to slot i reads the count that the plain counters have there |
| `RunLength.SetRunEncodes` | kernel/src/mem/anon.rs:404-414 | a run written at one place stands for equal counts over its whole length |
| `RunLength.EncodesConcat` | kernel/src/mem/anon.rs:397-414 | runs for two adjacent ranges, side by side, are the runs of the joined range |
| `RunLength.PutRun` | kernel/src/mem/anon.rs:404-414 | writing one run makes a range stand for one count and leaves the cells outside it alone |
| `RunLength.CutRun` | kernel/src/mem/anon.rs:356-382 | splitting the run that straddles a position changes no count and puts a run boundary there |
| `Anon.SeekRun` | kernel/src/mem/anon.rs:349-370 | finds the run that holds a position, with the run before it, without changing what the cells stand for |
| `Anon.AdjustRun` | kernel/src/mem/anon.rs:371-394 | changes one run by a delta, joins it to the run before when the counts agree, and stands for the changed counters |
| `Anon.SingleCoverage` | kernel/src/mem/anon.rs:284-290 | the runs written for a single reference stand for its coverage |
| `Anon.AmapState.Insert` | kernel/src/mem/anon.rs:291-298 | slots, used list and back index stay in exact bijection; one slot gets the page |
| `Anon.AmapState.Remove` | kernel/src/mem/anon.rs:299-310 | the swap with the last used entry keeps the bijection and empties just the one slot |
| `Anon.AmapState.Wipe` | kernel/src/mem/anon.rs:311-328 | both traversals, over slots and over the used list, empty exactly the range |
| `Anon.AmapState.Establish` | kernel/src/mem/anon.rs:329-348 | turning counts on keeps them equal to the coverage of the one reference there is |
| `Anon.AmapState.Adjust` | kernel/src/mem/anon.rs:349-395 | adds a delta to a range of counters held as runs, and empties exactly the slots whose counter reaches zero |
| `Anon.AmapState.AddReference` | kernel/src/mem/anon.rs:445-455 | a further reference is counted on each slot it covers; contents stay |
| `Anon.AmapState.Clone` | kernel/src/mem/anon.rs:204-213 | copying a reference keeps the counts equal to the coverage of all live references |
| `Anon.AmapState.Drop` | kernel/src/mem/anon.rs:221-243 | a slot is emptied exactly when the last reference covering it goes; counts stay exact |
| `Anon.AmapState.ExtendActive` | kernel/src/mem/anon.rs:75-103 | growing into active slots, forwards or backwards, keeps old pages in place and adds only empty ones |
| `Anon.AmapState.ExtendShift` | kernel/src/mem/anon.rs:104-117 | growing backwards by shifting pages up in place keeps their relative positions, and the used and back entries with them |
| `Anon.AmapState.ExtendActivate` | kernel/src/mem/anon.rs:118-130 | growing forwards by activating spare slots keeps every page in place |
| `Anon.AmapState.Reallocate` | kernel/src/mem/anon.rs:132-169 | growing into a larger map moves every page to its place there; added pages are empty |
| `Anon.AmapState.Extend` | kernel/src/mem/anon.rs:75-169 | all five ways to grow keep old pages at the same relative positions and add empty ones; which error comes when; an error leaves the reference's pages alone |
| `Anon.AmapState.constructor` | kernel/src/mem/anon.rs:263-283 | a new map is empty and has one reference over all its slots |
| `Anon.AmapState.Commit` | kernel/src/mem/anon.rs:521-566 | a page goes in only if the slot still holds what was expected; a commit inside a live reference keeps the map valid |
| `Anon.AmapState.Slice` | kernel/src/mem/anon.rs:456-479 | a copied range has the same pages, in a map of its own |
| `Anon.DecodedCount` | kernel/src/mem/anon.rs:349-414 | in every valid state the count read from the runs at slot i is the number of live references covering i |
| `Anon.CoverageShrinks` | kernel/src/mem/anon.rs:221-243 | dropping a reference takes one off the coverage of exactly its slots |
| `HeapPages.AlignUpLeast` | kernel/src/mem/alloc.rs:918-922 | rounding up gives the least aligned number not below |
| `HeapPages.SkipIsSafe` | kernel/src/mem/alloc.rs:649-677 | skipping to the end of an occupied page's span passes over no aligned free run |
| `HeapPages.HeapArena.FindRunRange` | kernel/src/mem/alloc.rs:649-677 | the search with span skipping returns the lowest aligned free run of the window, and none only if there is none |
| `HeapPages.HeapArena.FindRun` | kernel/src/mem/alloc.rs:641-648 | the two windows are searched in order, each exactly |
| `HeapPages.WindowsCover` | kernel/src/mem/alloc.rs:641-648 | a free run is found by one of the two windows unless it straddles the hint |
| `HeapPages.StraddlingRunIsMissed` | kernel/src/mem/alloc.rs:641-648 | on the code's heap, whatever the hint: if only the page before the hint and the page at it are free, neither window holds the run of two that they are |
| `HeapPages.MissARun` | kernel/src/mem/alloc.rs:616-648 | from an empty heap, a few reservations and releases lead to such a heap, and the next reservation of two pages fails |
| `HeapPages.HeapArena.ReserveRun` | kernel/src/mem/alloc.rs:616-632 | reserves the run that the search found and no other page |
| `HeapPages.HeapArena.ClearRun` | kernel/src/mem/alloc.rs:633-640 | frees exactly the pages of the run |
| `RetireQueue.RetireRing.Push` | kernel/src/mem/alloc.rs:371-380 | the ring holds a queue; a push appends, or reports that the ring is full |
| `RetireQueue.RetireRing.Peek` | kernel/src/mem/alloc.rs:381-384 | shows the oldest entry and changes nothing |
| `RetireQueue.RetireRing.Pop` | kernel/src/mem/alloc.rs:385-391 | takes the oldest entry off the queue |
| `HeapRetire.RunsKeep` | kernel/src/mem/alloc.rs:129-800 | over all interleavings of reserve, map, rollback, release, publish, quarantine, flush, reclaim, translation loads and polls the metadata, the queues and the ownership of frames stay in order |
| `HeapRetire.FreeFramesUnreachable` | kernel/src/mem/alloc.rs:181-800 | over any run no processor ever translates to a frame the physical allocator owns if and only if each page that was rolled back had been loaded by no other processor |
| `HeapRetire.RollbackExact` | kernel/src/mem/alloc.rs:181-197 | after one rollback no processor translates to a free frame if and only if no other processor had loaded the page |
| `HeapRetire.RollbackCanLeaveStaleFrame` | kernel/src/mem/alloc.rs:139-187 | on every heap with two pages, a free frame and a second processor there is a run in which the first page of a run that cannot be mapped completely is rolled back and that processor still translates to its freed frame |
| `HeapRetire.MappedIsUnloaded` | kernel/src/mem/alloc.rs:139-160 | a page that was just mapped has been loaded by nobody, so it may be rolled back |
| `HeapRetire.MappedFramesAreNotFree` | kernel/src/mem/alloc.rs:594-800 | in every run, rollbacks included, the page table maps no page to a free frame |
| `HeapRetire.Enqueue` | kernel/src/mem/alloc.rs:750-757 | a push into the ring of the arena is the quarantine step, refused exactly when the ring is full |
| `HeapRetire.Collect` | kernel/src/mem/alloc.rs:759-776 | given what every processor has applied, takes the oldest entry of the ring exactly when that covers its sequence, and then it may be reclaimed |
| `HeapRetire.RetiredExactlyOnce` | kernel/src/mem/alloc.rs:679-777 | a page is retired exactly when it is queued, and then once, in the ring or in the pending batch |
| `HeapRetire.SearchSpansClosed` | kernel/src/mem/alloc.rs:616-677 | in every reachable state no free page lies inside an occupied page's span, which is what the search relies on |
| `HeapRetire.DrainAfterFlush` | kernel/src/mem/alloc.rs:778-783 | after a full flush that every processor has applied, everything queued before it may be reclaimed without a check |
| `HeapRetire.ReclaimKeeps` | kernel/src/mem/alloc.rs:784-800 | giving a frame back turns its pages free and keeps the rest of the heap's bookkeeping |
| `HeapRetire.PollTranslations` | kernel/src/mem/alloc.rs:714-749 | a processor that applies shootdown records loses the translations they name before it acknowledges |
| `SlabHeap.Link` | kernel/src/mem/alloc.rs:529-542 | putting a slab at the front of its doubly linked partial list gives the list with it in front |
| `SlabHeap.Unlink` | kernel/src/mem/alloc.rs:543-563 | taking a slab out of the middle of the list gives the list without it |
| `SlabHeap.InitSlabPage` | kernel/src/mem/alloc.rs:957-999 | a fresh slab page has every slot on its intrusive free list |
| `SlabHeap.SlabHeap.InsertPartial` | kernel/src/mem/alloc.rs:529-542 | the slab joins the partial list of its class and nothing else changes |
| `SlabHeap.SlabHeap.RemovePartial` | kernel/src/mem/alloc.rs:543-563 | the slab leaves its partial list and nothing else changes |
| `SlabHeap.SlabHeap.GrowSlab` | kernel/src/mem/alloc.rs:475-514 | a new slab brings exactly its slots, all free |
| `SlabHeap.SlabHeap.AllocSlab` | kernel/src/mem/alloc.rs:413-441 | hands out a slot nobody had, of the class asked for; fails exactly when no slab has room and no page can be had |
| `SlabHeap.SlabHeap.DeallocSlab` | kernel/src/mem/alloc.rs:442-474 | the slot becomes free; a page is released only when all its slots are free and another free slab is cached |
| `SlabHeap.SlabHeap.TrimClass` | kernel/src/mem/alloc.rs:515-528 | releases the cached slab, all of whose slots are free, and touches no other slot |
| `SlabHeap.SlabHeap.MagazinePop` | kernel/src/mem/alloc.rs:60-67 | the most recently cached slot becomes held |
| `SlabHeap.SlabHeap.MagazinePush` | kernel/src/mem/alloc.rs:68-73 | a held slot becomes cached, on top |
| `SlabHeap.SlabHeap.Allocate` | kernel/src/mem/alloc.rs:96-115 | hands out a slot of the class that nobody held; what callers hold stays held; if magazine, pool or a page can serve it nothing else moves; a final failure means all magazines are empty, the pool has no room and no page was to be had |
| `SlabHeap.SlabHeap.DrainAndAllocate` | kernel/src/mem/alloc.rs:109-112 | the second attempt after all caches were drained, with the same promises |
| `SlabHeap.SlabHeap.CacheDeallocation` | kernel/src/mem/alloc.rs:246-275 | the slot ends up cached even if a full magazine spills first; what others hold is untouched |
| `SlabHeap.SlabHeap.DrainCaches` | kernel/src/mem/alloc.rs:215-245 | empties the magazines of all processors; what callers hold is untouched |
| `SlabHeap.SlotInExactlyOnePlace` | kernel/src/mem/alloc.rs:60-127 | each slot of each mapped slab is on its free list, in one magazine once, or held, and only one of these |
| `SlabHeap.PartialListExact` | kernel/src/mem/alloc.rs:413-474 | the partial list is exactly the slabs with a free slot, and a wholly free slab is the cached one |
| `NameCache.ChooseSlot` | kernel/src/fs/namecache.rs:148-165 | the slot of the same name, else the first empty one, else the first least recently used |
| `NameCache.WordMoves` | kernel/src/fs/namecache.rs:26-65 | the two increments of the sequence word change its writer count by one up and one down |
| `NameCache.InsertKeeps` | kernel/src/fs/namecache.rs:141-177 | a publication under an unmoved stamp agrees with the directory and never makes a second entry for a name |
| `NameCache.MutateKeeps` | kernel/src/fs/vnode.rs:542-628 | the backing directory changes only names that purged guards protect, so no cached answer goes stale |
| `NameCache.RunsKeep` | kernel/src/fs/namecache.rs:26-180 | the invariant holds over all interleavings of lookups, guards, mutations, evictions and publications |
| `NameCache.CacheAgreesWithDirectory` | kernel/src/fs/namecache.rs:108-180 | in every reachable state each cached answer, positive or negative, is the directory's, and no name is cached twice |
| `NameCache.LookupsAreTrue` | kernel/src/fs/namecache.rs:108-180 | the answer of every finished lookup was the directory's at some instant of that lookup |
| `TmpfsTree.TreeMeaning` | kernel/src/fs/tmpfs.rs:92-108 | a live directory has one name, in its parent, and lies below the root; its links are two plus its subdirectories; a file's links are its names |
| `TmpfsTree.CutKeeps` | kernel/src/fs/tmpfs.rs:137-142 | removing an entry keeps names and cookies inverse |
| `TmpfsTree.PutKeeps` | kernel/src/fs/tmpfs.rs:119-130 | adding an entry under an unused cookie keeps names and cookies inverse |
| `TmpfsTree.DetachKeeps` | kernel/src/fs/tmpfs.rs:543-547 | taking an entry out keeps the tree but for the node taken out; the parent's links were above two if it is a directory |
| `TmpfsTree.AttachKeeps` | kernel/src/fs/tmpfs.rs:666-684 | entering a loose node, and moving a directory's parent pointer, puts the tree in order, provided the new parent is not below it |
| `TmpfsTree.ReleaseKeeps` | kernel/src/fs/tmpfs.rs:393-408 | dropping the link of a loose file or empty directory puts the tree in order |
| `TmpfsTree.WalkAvoids` | kernel/src/fs/tmpfs.rs:358-375 | a walk of parents to the top that does not meet a directory shows that the start is not below it |
| `TmpfsTree.ParentAvoidsChild` | kernel/src/fs/tmpfs.rs:143-151 | a directory is never below its own child, so renames within a directory need no walk |
| `Tmpfs.Tmpfs.constructor` | kernel/src/fs/tmpfs.rs:165-177 | a new filesystem is a tree with an empty root |
| `Tmpfs.Tmpfs.Create` | kernel/src/fs/tmpfs.rs:476-496 | succeeds exactly when the name is free in a live directory and there is room; adds one node and one entry, keeps the tree; an error changes nothing |
| `Tmpfs.Tmpfs.Link` | kernel/src/fs/tmpfs.rs:498-518 | succeeds exactly for a file of this filesystem and a free name in a live directory; adds one entry, keeps the tree |
| `Tmpfs.Tmpfs.RemoveLink` | kernel/src/fs/tmpfs.rs:393-408 | a directory loses all links, a file one, and a file without links is reported |
| `Tmpfs.Tmpfs.ReleaseDirectoryLink` | kernel/src/fs/tmpfs.rs:412-420 | takes one directory link off, or reports corruption at two |
| `Tmpfs.Tmpfs.Unlink` | kernel/src/fs/tmpfs.rs:520-551 | succeeds exactly for an entry of the kind asked for with nothing below it; removes just that entry and keeps the tree; corruption is never reported |
| `Tmpfs.Tmpfs.EnsureAcyclic` | kernel/src/fs/tmpfs.rs:358-375 | succeeds exactly when the bounded walk reaches a top without meeting the source; refuses exactly when it meets it |
| `Tmpfs.WalkIsClear` | kernel/src/fs/tmpfs.rs:358-375 | success of the walk from a live directory means the directory is not below the source |
| `Tmpfs.Tmpfs.RenameInside` | kernel/src/fs/tmpfs.rs:570-611 | rename within a directory: exact success condition, same cookie, replaced entry gone, tree kept |
| `Tmpfs.Tmpfs.RenameBetween` | kernel/src/fs/tmpfs.rs:613-689 | rename between directories: exact success condition, new cookie, parent and links follow, tree kept |
| `Tmpfs.Tmpfs.Rename` | kernel/src/fs/tmpfs.rs:553-689 | succeeds exactly when the move is allowed; moves just the one entry, replacing what was there; a failed rename changes nothing and corruption is never reported |
| `Tmpfs.Tmpfs.Free` | kernel/src/fs/tmpfs.rs:807-813 | freeing a node without links changes no entry and keeps the tree |
| `TmpfsReaddir.Readdir` | kernel/src/fs/tmpfs.rs:752-804 | returns the first entries of what is left and a cookie that leaves exactly the others |
| `TmpfsReaddir.ListedExactlyOnce` | kernel/src/fs/tmpfs.rs:752-804 | an entry present under one cookie at every call of a complete listing is returned exactly once, whatever else changed in between |
| `TmpfsReaddir.BatchesMakeListing` | kernel/src/fs/tmpfs.rs:752-804 | without changes the batches make up the one-shot listing |
| `MountTable.RunsKeep` | kernel/src/fs/vfs.rs:144-521 | the invariant holds over all interleavings of lookups, busy checks, unlink, rename, creation, mount, unmount and root replacement |
| `MountTable.CoveredEntriesStay` | kernel/src/fs/vfs.rs:365-521 | in every reachable state each covered directory is still where it was mounted over, and hints and counter agree with the table when its lock is free |
| `MountTable.CoveredEntryStays` | kernel/src/fs/vfs.rs:402-521 | between two states in which a directory is covered throughout, its entry is not unlinked, renamed or replaced |
| `MountTable.PlacesAreFixed` | kernel/src/fs/vfs.rs:457-521 | a mount stays at the entry it was made at while it is mounted |
| `MountTable.MountsHangBelowRoot` | kernel/src/fs/vfs.rs:483-521 | every attached mount hangs below the root through parents that are themselves mounted |
| `MountTable.MountsStayAttached` | kernel/src/fs/vfs.rs:457-521 | so does every mount in the table, in every state of every run |
| `MountTable.UnlinkKeeps` | kernel/src/fs/devfs.rs:434-455 | removal of names that passed the busy check, also device nodes checked by their hint, touches no covered entry |
| `MountTable.RenameKeeps` | kernel/src/fs/vfs.rs:402-455 | a rename whose two names passed the busy check moves and replaces no covered entry |
| `MountTable.WalkKeeps` | kernel/src/fs/vfs.rs:674-689 | resolution that crosses into a mount or ascends out of one stays within attached mounts |
| `Block.BlockDevice.InDisk` | kernel/src/fs/partition.rs:35-45 | every registered device, partitions of partitions included, lies within the disk |
| `Block.BlockDevice.Cut` | kernel/src/dev/block.rs:295-322 | a byte range falls into a part of the first block, whole blocks and a part of the last, and where each starts |
| `Block.Disk.ReadBlocks` | kernel/src/dev/block.rs:202-240 | in chunks of any limit, through any number of partitions, copies exactly the blocks asked for; an error leaves the rest of the buffer alone, and a reliable disk refuses only transfers that do not fit |
| `Block.Disk.WriteBlocks` | kernel/src/dev/block.rs:242-261 | the same for writes, and a failed write changes nothing outside the blocks it was for |
| `Block.Disk.BackendRead` | kernel/src/fs/partition.rs:47-51 | a partition reads its parent's blocks from its first block on |
| `Block.Disk.BackendWrite` | kernel/src/fs/partition.rs:53-56 | a partition writes its parent's blocks from its first block on |
| `Block.CutCount` | kernel/src/dev/block.rs:187-200 | a transfer of whole blocks is accepted exactly if cutting their count to 32 bits leaves it as it is |
| `Block.LargeTransferIsRefused` | kernel/src/dev/block.rs:187-200 | so 2^32 blocks or more are refused on every device that has them |
| `Block.Disk.ReadBytes` | kernel/src/dev/block.rs:287-324 | copies as many bytes as device and buffer have, from any offset, through the bounce buffer where blocks are cut; on a reliable disk fails exactly if 2^32 whole blocks or more are asked for |
| `Block.Disk.WriteBytes` | kernel/src/dev/block.rs:395-436 | on success changes exactly the bytes written, and never a byte outside the device; on a reliable disk fails exactly if the bytes do not fit or have 2^32 whole blocks or more |
| `Block.ReadIsSlice` | kernel/src/dev/block.rs:287-324 | what is read is a slice of the device's bytes |
| `RawDisk.ReadDevice` | kernel/src/fs/io.rs:118-127 | what file systems ask of a device, as a read of the block layer: the bytes asked for or a failure; on a reliable disk it fails exactly if they are not on the device or have 2^32 whole blocks or more |
| `Block.WriteIsSplice` | kernel/src/dev/block.rs:395-436 | what is written is a splice into the device's bytes |
| `Block.PartitionsAreIndependent` | kernel/src/fs/partition.rs:35-56 | a write through one of two disjoint partitions, failed or not, leaves every byte of the other |
| `Partitions.ValidateRanges` | kernel/src/fs/partition.rs:297-317 | accepts exactly the sets of ranges that are on the disk and pairwise disjoint, and returns them by number |
| `Partitions.Ebrs.OneChain` | kernel/src/fs/partition.rs:250-291 | the links leave no choice: a container has at most one whole chain of boot records |
| `Partitions.WalkEbrs` | kernel/src/fs/partition.rs:250-291 | ends on every disk, and succeeds exactly if there is a whole chain that visits no boot record twice; returns the partitions of its records, numbered in order, all in the container |
| `Partitions.DiscoverEbr` | kernel/src/fs/partition.rs:237-291 | succeeds exactly if the container is on the disk and has a whole chain, and returns the partitions of that chain |
| `Partitions.CollectSlots` | kernel/src/fs/partition.rs:206-230 | succeeds exactly if every extended partition can be read; has exactly the primary partitions of the table, and the logical ones numbered on from 5 |
| `Partitions.DiscoverMbr` | kernel/src/fs/partition.rs:203-235 | succeeds exactly if there is a partition and all are sound together, and returns them by number; reports none found exactly if there is none |
| `Partitions.ReadEntries` | kernel/src/fs/partition.rs:183-199 | succeeds exactly if all used entries lie within the usable blocks, and returns their partitions in order |
| `Partitions.ReadHeader` | kernel/src/fs/partition.rs:124-160 | succeeds exactly if block 1 has signature, checksum and own address right and its fields are in range; returns those fields |
| `Partitions.ReadTable` | kernel/src/fs/partition.rs:161-182 | succeeds exactly if the blocks from the header's address on are on the disk and have the stored checksum; returns the bytes of the entries |
| `Partitions.DiscoverGpt` | kernel/src/fs/partition.rs:124-201 | succeeds exactly if header and table are good and the used entries sound, and returns exactly those by number |
| `Partitions.Discover` | kernel/src/fs/partition.rs:107-122 | succeeds exactly if the GPT, where the first block protects one, or else the MBR describes sound ranges, and returns exactly those by number; reports none found exactly for a disk without a table or with an empty one |
| `Partitions.DiscoveredAreIndependent` | kernel/src/fs/partition.rs:73-105 | devices registered for two discovered partitions are valid, and writing through one changes nothing readable through the other |
| `Extents.ValidateExtents` | kernel/src/fs/ext4.rs:854-869 | accepts exactly the ordered, disjoint, non-empty extents that lie on the disk |
| `Extents.ExtentAt` | kernel/src/fs/ext4.rs:317-327 | finds the extent that covers a block, or shows that none does up to the next one |
| `Extents.ReadIntoSink` | kernel/src/fs/ext4.rs:389-415 | in windows of up to 1024 bytes copies the bytes asked for, and on a reliable disk fails exactly if they are not on the device |
| `Extents.ReadExtent` | kernel/src/fs/ext4.rs:342-373 | within an extent the bytes are the disk's, or zeros if it is uninitialized |
| `Extents.ReadHole` | kernel/src/fs/ext4.rs:374-384 | in a hole the bytes are zeros, and there is always at least one to fill |
| `Extents.ReadPiece` | kernel/src/fs/ext4.rs:336-384 | reads on to the end of an extent or a hole, where the next piece has a block number of 32 bits again |
| `Extents.ReadData` | kernel/src/fs/ext4.rs:329-387 | returns as many bytes as buffer and file have, each the byte the extents give it; with valid extents on a reliable disk fails exactly if the first block has no number of 32 bits |
| `Extents.FileExtents` | kernel/src/fs/ext4.rs:625-638 | the byte extents of a memory object mean the same file as the block extents |
| `Extents.Merge` | kernel/src/fs/io.rs:56-93 | merging preserves the meaning, and fails exactly for extents that overlap or leave the device |
| `Extents.MemoryObject` | kernel/src/fs/ext4.rs:615-641 | for validated extents the memory object is always built, and means the same file |
| `Extents.MergedAddress` | kernel/src/fs/io.rs:79-84 | an extent that continues the last one in file and on disk may be joined to it |
| `Extents.PagerRead` | kernel/src/fs/io.rs:97-131 | fills the buffer with the bytes the merged extents give, and zeros past the end of the file; with valid extents on a reliable disk fails exactly if what it asks of some extent has 2^32 whole blocks or more |
| `Extents.SmallPiecesFit` | kernel/src/fs/io.rs:97-131 | a read of fewer than 2^32 bytes never asks that much |
| `Extents.LargePieceIsRefused` | kernel/src/fs/io.rs:97-131 | a file of 2^32 blocks or more in one extent, read at once, does |
| `Extents.ReadersAgree` | kernel/src/fs/ext4.rs:615-641 | direct read and paged read return the same bytes |
| `ExtentTree.CollectExtents` | kernel/src/fs/ext4.rs:239-297 | terminates on every disk image, succeeds exactly when every node of the tree is well formed and one level below its parent, and appends the leaves from left to right |
| `ExtentTree.InodeExtents` | kernel/src/fs/ext4.rs:214-223 | succeeds exactly when the tree can be read and its leaves are valid in some order, and returns them in the one order in which they are |
| `Fat.FatPager.constructor` | kernel/src/fs/fat32.rs:107-118 | a new pager has an empty chain, and a file size of 32 bits |
| `Fat.FatPager.ExtendChain` | kernel/src/fs/fat32.rs:143-160 | the cached chain stays a duplicate-free prefix of the true chain, also when following it fails; on a reliable disk it fails exactly if the true chain is too short or has a cluster twice |
| `Fat.FatPager.FindRuns` | kernel/src/fs/fat32.rs:161-180 | the coalesced runs name, for each byte asked for, the disk address the cluster walk gives, and are found if those addresses are on the disk |
| `Fat.Append` | kernel/src/fs/fat32.rs:170-176 | joining a stretch to the run before it changes no address |
| `Fat.ReadRuns` | kernel/src/fs/fat32.rs:181-193 | each output byte is the disk byte its run names; on a reliable disk runs that are on it can be read |
| `Fat.FatPager.ReadFile` | kernel/src/fs/fat32.rs:128-194 | after any earlier reads, returns the bytes of the plain cluster walk, and zeros past the end; on a reliable disk succeeds exactly if the chain reaches them without a cycle and they are on the disk |
| `Ext4Readdir.BatchesMakeListing` | kernel/src/fs/ext4.rs:661-718 | batches obtained by resuming from returned cookies concatenate to the listing: the two dots and then every listed record |
| `FatReaddir.BatchesMakeListing` | kernel/src/fs/fat32.rs:576-628 | the same for FAT directories, whose cookies stay within the directory |
| `Ext4Readdir.VisitRecord` | kernel/src/fs/ext4.rs:441-482 | refuses a record only if it fails the checks, or its kind, which a record may leave to the inode, cannot be found; passes it over or lists it; on a reliable disk a record of a well-formed directory is never refused |
| `Ext4Readdir.VisitBlock` | kernel/src/fs/ext4.rs:436-484 | on a well-formed directory each record of the block is listed or passed over once; if a record is refused for what it is, no walk gets past it |
| `Ext4Readdir.Visit` | kernel/src/fs/ext4.rs:418-487 | starting at the block that holds the cookie lists what starting at the front would list from there; a walk that comes to the end has met no damaged record, and on a reliable disk one that fails has |
| `Ext4Readdir.Resume` | kernel/src/fs/ext4.rs:432-434 | resuming at a record returns exactly what a listing had not passed there |
| `Ext4Readdir.List` | kernel/src/fs/ext4.rs:661-718 | each call returns the next entries, with their kinds, and a cookie that leaves exactly the others; on a reliable disk it fails only for a record that is damaged, or without a kind and with an unusable inode |
| `Ext4Readdir.Readdir` | kernel/src/fs/ext4.rs:418-718 | the same for records decoded from the bytes of the directory, with the checks of the original |
| `FatReaddir.Resume` | kernel/src/fs/fat32.rs:311-341 | a walk that has collected no long name may begin anew there |
| `FatReaddir.VisitSlot` | kernel/src/fs/fat32.rs:357-404 | one slot: end, deleted, long-name piece, label or entry, with the pieces collected so far |
| `FatReaddir.ChainFits` | kernel/src/fs/fat32.rs:342-346 | a chain that ends has no cluster twice and no more clusters than the volume, so the count of clusters passed refuses no such chain |
| `FatReaddir.Seek` | kernel/src/fs/fat32.rs:320-336 | follows the table to the cluster that holds the cookie, or finds that the chain ends before it; on a reliable disk never fails for a chain that ends |
| `FatReaddir.Visit` | kernel/src/fs/fat32.rs:311-412 | skipping along the chain and resuming inside a cluster lists what a walk from the front would list from there |
| `FatReaddir.List` | kernel/src/fs/fat32.rs:576-628 | each call returns the next entries and a cookie that leaves exactly the others; on a reliable disk a cookie within the directory is refused exactly if it is no slot boundary |
| `FatReaddir.Readdir` | kernel/src/fs/fat32.rs:311-628 | the same for slots decoded from clusters that are on the disk |
| `Irq.RunsKeep` | kernel/src/driver/irq.rs:652-999 | the invariant holds over all interleavings of dispatches, requests, releases and worker threads on a line |
| `Irq.DrainKeeps` | kernel/src/driver/irq.rs:780-787 | when the in-flight count is seen at zero, no dispatch can still reach the removed handler |
| `Irq.ReleasedIsGone` | kernel/src/driver/irq.rs:739-796 | from the return of a release on, no processor is in the handler or will call it, the list does not have it, and its worker has exited |
| `DevfsLifecycle.Unpack` | kernel/src/fs/devfs.rs:349-357 | the three packed fields are read back |
| `DevfsLifecycle.RunsKeep` | kernel/src/fs/devfs.rs:682-792 | the invariant holds over all interleavings of opens, closes, callbacks and revocations |
| `DevfsLifecycle.WordDecodes` | kernel/src/fs/devfs.rs:682-742 | in every reachable state the word is exactly revoked flag, open descriptions and running callbacks |
| `DevfsLifecycle.RevokedStaysQuiet` | kernel/src/fs/devfs.rs:733-738 | after a successful revocation nothing runs, nothing is open and no callback can start |
| `DevfsLifecycle.OneCloseForEachOpen` | kernel/src/fs/devfs.rs:763-792 | each successful driver open gets exactly one driver close, forced revocation or not |
| `IdentityCache.RunsKeep` | kernel/src/fs/cache.rs:37-61 | the invariant holds over all interleavings of openers, constructions and drops |
| `IdentityCache.OneObjectPerKey` | kernel/src/fs/cache.rs:37-61 | two live objects handed out for one key are the same object |
| `IdentityCache.SweepsAmortize` | kernel/src/fs/cache.rs:50-57 | all sweeps together scan at most two entries per publication |
| `Tty.Tty.Put` | kernel/src/dev/tty.rs:1016-1090 | adds a byte's transform to the batch, writing the batch out first if it would not fit; a refusal changes nothing |
| `Tty.Tty.Flush` | kernel/src/dev/tty.rs:1092-1108 | writes out the last batch |
| `Tty.Tty.WriteTransformed` | kernel/src/dev/tty.rs:1009-1112 | has delivered exactly the transform of the consumed prefix and keeps its column; an error means nothing was delivered; short only after a refusal, which a reliable backend never makes |
| `Tty.CursorStep` | kernel/src/dev/tty.rs:1016-1068 | for one byte the column kept is where its transform leaves a terminal's cursor if and only if that fits the counter and the byte is no miscounted tab, one that goes out as it is from a column other than the last before a tab stop |
| `Tty.ColumnIsCursorExactly` | kernel/src/dev/tty.rs:1009-1112 | after every prefix of a write the column kept is the cursor's if and only if the cursor stays below the limit of the counter and no tab is miscounted |
| `Tty.TabIsMiscounted` | kernel/src/dev/tty.rs:1060-1066 | without TAB3 a first tab leaves column 1, where the cursor is in column 8 |
| `Tty.ColumnMayWrap` | kernel/src/dev/tty.rs:1038-1042 | a tab at the largest column wraps the counter around, where the cursor goes on |
| `Tty.ColumnIsCursor` | kernel/src/dev/tty.rs:1009-1112 | if the column and eight for each byte stay below the limit, the column kept is the cursor's after every prefix if and only if no tab is miscounted |

## Left out

- C interfaces, driver kits, headers, build scripts, userland and system call argument copying: plumbing over calls.
- `mem/fault.rs`, `mem/index.rs`, `mem/map_lock.rs`, `mem/metadata.rs`: they rest on code that is not part of this model, or are small.
- Raw pointers, page-table writes, physical allocation and the transport of shootdowns: pages, frames and sequences stand for them.
- `mem/tlb.rs`: the ring that carries shootdown records is represented by the log of records each processor applies in order.
- Weak memory ordering, timestamps, inotify, logging and signals.
- Anonymous maps: pages are values, the locks around a map are not modelled, and a reference is a value that names its range; fewer than 2^31 - 1 references exist at a time, as the stored counts require.
- Anon.AmapState.AddReference: asks for fewer than 2^31 - 1 references, as the original does by the type of its counts.
- Processors coming online or going offline, and the path for a single processor, in the heap's retirement.
- NameCache.RunsKeep: sequence words and bucket clocks do not wrap around at 64 bits, fewer than 65536 guards are active on a directory, and lookups that end in an error other than a miss are not steps.
- The hash that assigns names to buckets: nothing depends on which one it is.
- The memory filesystem's locks: operations are atomic. Replacing the source directory itself takes one lock twice in the original, so nothing is claimed about deadlocks. File contents, modes and sizes are not modelled.
- Tmpfs.Tmpfs.Create: link counts and node numbers do not wrap around at 64 bits.
- Path parsing, symbolic links and permission checks of `resolve`: a resolution is any walk through mounts.
- Lookups that run beside mount changes without the gate: they only read the table and its hints.
- MountTable.RunsKeep: a mount is detached only if no mounted filesystem has it as parent; the original refuses in more cases, whenever anybody else refers to it.
- `read_into`, `write_from`, `discard` and `flush` of block devices: loops over the modelled reads and writes.
- Partitions.DiscoverGpt: the checksum is a parameter; nothing depends on how it is computed.
- Superblocks, inodes and boot sectors: block size, cluster size and counts are parameters, within the ranges that mounting checks.
- Ext4Readdir.Readdir: reading an inode for the kind of an entry is a parameter.
- FatReaddir.VisitSlot: how a name is made of long-name pieces or of a short entry (checksum, UTF-16, letter case) is a parameter.
- Masking, sharing flags and domains of interrupts, and waking every threaded handler of a shared line: only who may be inside a handler is modelled. `force_unregister_domain`, which edits handler lists without the registration mutex, is not a step.
- DevfsLifecycle.RunsKeep: fewer than 2^32 - 1 callbacks run at a time, because close enters without looking at the counter. Directory nodes, which have no driver, and the record tree of devfs are not modelled.
- Terminal input, echo, flow control and the path without post-processing. The terminal of `Tty.Moved` shows one byte in one column, so characters of several bytes are not modelled, and has no right margin.
- `driver/work.rs`: only safety would hold, and it is small.
