# RustyPI, modelled and verified in Dafny

RustyPI is a bare-metal multicore kernel for the Raspberry Pi 3 B+. This project models the parts
of it that carry deep invariants, in Dafny 4.11, and proves what they promise.
`dafny verify dfyconfig.toml` checks all of it.

- **FAT16/32 filesystem** (`Fat*.dfy`). A device is a map from block number to block, and every
  block written adds its contents to `seen`, the set of states a power cut could leave. `WellFormed`
  says which volumes are sound: every live entry points at a terminated chain of its own, chains are
  disjoint and hold no free cluster, directories have nothing after their end marker. The operations
  are methods of class `Fat`, with the one-sector pending overlay, the one-sector cache, the FAT
  copies and the free count as fields. The main results quantify over `seen`: after every prefix of
  the writes of an operation the volume is consistent, and every path reads as before, or the one
  path concerned reads as after.
- **Scheduler, wait protocol and mutexes** (`RunQueues`, `KernelSwitch`, `WaitUntil`, `Mutexes`).
  The run queue and the lock are classes proved against functions on values; the protocols between
  cores are state machines over those functions, with theorems over every run.
- **Heap** (`FreeLists`, `Heaps`). The free list lies in the free memory and refines a set of bytes.
- **Memory of programs** (`Frames`, `PageTables`, `AddressSpaces`, `Elf`, `Processes`). Page tables
  are bytes in RAM frames, walked as the MMU does; an address space refines a flat map from
  addresses to bytes; ELF parsing, loading, the stack and the heap are proved on top of that, with
  frames from the modelled bitmap allocator.
- **USB tree** (`UsbTree`). Enumeration and hot-plug against a bus that may answer anything.
- **Calendar, CRC-32 and updates, packets** (`Calendar`, `Crc`, `Updates`, `Packets`).

`Bytes`, `Arithmetic` and `Ranges` are shared helpers.

## What turned out not to hold

- A wait and the switch after it are two steps in the kernel (src/sched.rs:324-325). If the task is
  woken in between, another core may pick it while it still runs. `KernelSwitch.SplitRunsRace` is
  such a run; `KernelSwitch.SwitchSafe` says exactly which switches are safe, and
  `KernelSwitch.MergedRunsSafe` takes the two as one step.
- The pieces of a long name that a power cut left without their 8.3 slot can rename a later 8.3
  entry (`FatNewEntries.OrphanTakesOver`). A new entry reads back under its name exactly if
  `ReadsBack` holds where it is put: it is a long name without U+FFFF, or no such pieces with its
  checksum stand before it. `WriteFile` and `CreateDir` promise that the new name reads as asked under
  that condition (`FileKept`: the name is there already, or its new slots will read back), which can
  be checked before the call. Without it every state is still consistent and reads as before but at
  one name, whichever the entry came to have.
- Removing is not atomic for an entry whose slots lie in two blocks and whose 8.3 name is another than
  its name: one state on the way has the whole file under the 8.3 name. This is the exact condition
  (`Removal.Renames`, `FatVolume.Fat.Remove`, `FatRemovals.RenamedShows`); for every other entry each
  state has everything as before or the entry gone. `FatWitnesses.EntryInTwoBlocks` is such a volume.
- Removing a name leaves nothing under it if and only if no second entry matches it, which FAT volumes
  may have: 8.3 names are not checked against existing entries. Otherwise the name reads as the second
  entry did (`FatRemovals.RemovedReads`). `FatWitnesses.TwoOfOneName` is such a volume.
- `Heap::init` with a range that holds no whole block makes a free block of size 0
  (`Heaps.Heap.Init` is valid exactly if there is a whole block).
- A datagram or packet longer than its 16-bit length field can say does not parse back
  (`Packets.UdpRoundTrip`, `Packets.Ipv4RoundTrip`).

## Model

| member | source | states |
|---|---|---|
| `FatVolume.Fat.WriteFile` | rustypi-core/src/fat/write.rs:216-255 | Fails exactly for the reasons listed by `WriteFails` (too big, bad name, path, a directory in the way, too few free clusters for the bytes and for growing the directory, a full fixed root). A failure leaves every read, every state on the way and the set of free clusters as before. Success: every contents the device had on the way is a consistent volume that mounts the same and reads and lists as before, or as before but at one name in the directory: this one, with the file wholly new, if it is there already or will read back, and then the file reads back as `data`; the free clusters lose as many as the bytes and a grown directory take and gain exactly those of the file replaced; nothing is pending, the free count is exact, FSInfo agrees, FAT copies stay equal |
| `FatVolume.Fat.CreateDir` | rustypi-core/src/fat/write.rs:258-290 | The same for a new directory: exact failures, every state before the entry is whole reads as before, the new directory lists as empty, and exactly the clusters it takes are no longer free |
| `FatVolume.Fat.Remove` | rustypi-core/src/fat/write.rs:293-320 | Refused exactly for a path that does not lead there, nothing of that name, or a directory that is not empty. Otherwise every state on the way is consistent and has everything as before, or the entry gone and all else as before, or, exactly if its slots lie in two blocks and its 8.3 name is another (`Renames`), the whole file under its 8.3 name, and then such a state is among them. At the end the entry is gone, the name reads as nothing exactly if no second entry matches it, and exactly the entry's clusters have come free |
| `FatRemovals.RemovedReads` | rustypi-core/src/fat/write.rs:293-320 | In every such state the name reads as before, or as the second entry it matches did, or as nothing if there is none; and the 8.3 name, where it is another, as before or as the whole file removed |
| `FatRemovals.RenamedShows` | rustypi-core/src/fat/write.rs:513-520 | A state with the entry under its 8.3 name is neither as before nor one with the entry gone, so `Renames` is exactly when removing is not atomic |
| `FatRemovals.GoneReads` | rustypi-core/src/fat/write.rs:293-320 | Once the entry is gone its name reads as nothing if and only if no second entry matches it |
| `FatRemovals.SeenDeleted` | rustypi-core/src/fat/write.rs:513-520 | Written block by block, the deleted slots give only states with everything as before, the entry gone, or renamed, and a renamed one exactly if `Renames` |
| `FatRemovals.RemovedState` | rustypi-core/src/fat/write.rs:314-319 | What a directory with some of an entry's slots deleted shows: renamed, or as before or gone if its 8.3 name is the same or none |
| `FatReads.NoWayBack` | rustypi-core/src/fat/mod.rs:323-334 | Directories form a tree: no path to a directory leads through that directory, so changing it leaves every path to it |
| `FatWitnesses.EntryInTwoBlocks` | rustypi-core/src/fat/write.rs:513-520 | A volume with an entry whose removal passes a state under its 8.3 name |
| `FatWitnesses.TwoOfOneName` | rustypi-core/src/fat/write.rs:293-320 | A volume with two entries of one name, the second of which removing it leaves |
| `FatVolume.Fat.ReplaceEntry` | rustypi-core/src/fat/write.rs:237-245 | Pointing an entry at a new chain: every state shows wholly the old or wholly the new bytes, other paths as before, and exactly the old chain's clusters come free |
| `FatVolume.Fat.AddEntry` | rustypi-core/src/fat/write.rs:524-542 | A new entry appears in one step with all its fields, or the directory reads as before; fails exactly when there is no place and the root is fixed or too few clusters are free; a failure writes nothing |
| `FatVolume.Fat.AddOrFree` | rustypi-core/src/fat/write.rs:246-253 | If the entry cannot be added, the chain written for it is given back: the set of free clusters is as before |
| `FatVolume.Fat.GrowDir` | rustypi-core/src/fat/write.rs:546-570 | A directory grown by zeroed clusters hooked on last lists as before in every state, and has the slots asked for; fails exactly for a fixed root or too few free clusters |
| `FatVolume.Fat.FindPlace` | rustypi-core/src/fat/write.rs:534-537 | The first free run of slots, or the end of the directory grown; exact failures |
| `FatVolume.Fat.DeleteEntry` | rustypi-core/src/fat/write.rs:314-319 | Deleting an entry's slots: every state is as before, or has the entry gone, or renamed exactly if `Renames`; at the end it is gone, and exactly its chain is free |
| `FatVolume.Fat.StoreDir` | rustypi-core/src/fat/write.rs:513-520 | Every state on the way holds the new slots up to a block boundary and the old ones after it, and every such boundary between the slots written is one of the states; no other sector changes |
| `FatVolume.Fat.PutFile` | rustypi-core/src/fat/write.rs:234-254 | Writing the chain before the entry: the crash and failure statements of `WriteFile`, once path and name are known |
| `FatVolume.Fat.PutDir` | rustypi-core/src/fat/write.rs:272-289 | The same for a directory's first cluster, with `.` and `..` in it |
| `FatVolume.Fat.WriteChain` | rustypi-core/src/fat/write.rs:354-362 | `NoSpace` exactly when too few clusters are free, and then nothing was written. Otherwise the data reads back from a new chain of clusters that were free, and only they changed in any state |
| `FatVolume.Fat.PutChain` | rustypi-core/src/fat/write.rs:354-362 | The clusters taken are exactly as many as asked for, all free before, and hold the data padded with zeros |
| `FatVolume.Fat.FillChain` | rustypi-core/src/fat/write.rs:354-362 | Contents before links: every state changes only clusters that were free |
| `FatVolume.Fat.Allocate` | rustypi-core/src/fat/write.rs:365-383 | `NoSpace` exactly when fewer than `count` clusters are free; otherwise `count` different free clusters |
| `FatVolume.Fat.WriteClusters` | rustypi-core/src/fat/write.rs:387-405 | Written in runs, the clusters hold the data, zero padded, and no other block changes in any state |
| `FatVolume.Fat.Link` | rustypi-core/src/fat/write.rs:408-419 | The clusters are one terminated chain, the free set and the count lose exactly them, and every state changes only their entries |
| `FatVolume.Fat.FreeChain` | rustypi-core/src/fat/write.rs:422-436 | The free set gains exactly the chain's clusters and the count stays exact; a chain that cannot be walked is an error that changes nothing |
| `FatVolume.Fat.SetFatEntry` | rustypi-core/src/fat/write.rs:440-465 | The volume as reads see it changes in this one entry, with the pending sector overlaid; another pending sector is written out first; FAT copies stay equal |
| `FatVolume.Fat.FlushFat` | rustypi-core/src/fat/write.rs:468-475 | Writing the pending sector to every copy changes nothing reads see, in any state on the way; copies that were equal still are; nothing is pending |
| `FatVolume.Fat.SetEntries` | rustypi-core/src/fat/write.rs:408-436 | A list of entries set through the one-sector overlay ends up on the device, the others untouched |
| `FatVolume.Fat.Hook` | rustypi-core/src/fat/write.rs:561-563 | The one entry that joins grown clusters to a directory changes in a single step |
| `FatVolume.Fat.FinishChange` | rustypi-core/src/fat/write.rs:340-351 | FSInfo says the exact free count and the next cluster to try; nothing else changes |
| `FatVolume.Fat.FreeClusters` | rustypi-core/src/fat/write.rs:323-329 | The count is the number of zero FAT entries |
| `FatVolume.Fat.BeginChange` | rustypi-core/src/fat/write.rs:332-337 | On FAT32 the free count is known, and exact |
| `FatVolume.Fat.WriteBlock` | rustypi-core/src/fat/write.rs:5-16 | One block written is one state more that a power cut could leave |
| `FatVolume.Fat.LoadDir` | rustypi-core/src/fat/write.rs:478-495 | The image holds the directory's sectors, in chain order, and their slots |
| `FatVolume.Fat.MakeSlots` | rustypi-core/src/fat/write.rs:525-533 | The slots of a new entry, under an alias none of the entries in use has |
| `FatVolume.Fat.Chain` | rustypi-core/src/fat/write.rs:498-510 | The clusters of the plain walk, or its error, through the pending sector and the cache |
| `FatVolume.Fat.Entry` | rustypi-core/src/fat/mod.rs:432-445 | The entry of the volume as it will be once the pending sector is written: the overlay wins over the cache, the cache equals the device |
| `FatVolume.Fat.Following` | rustypi-core/src/fat/mod.rs:448-458 | End, bad cluster or link, as the plain walk sees them |
| `FatVolume.Fat.ExtendRun` | rustypi-core/src/fat/mod.rs:370-400 | A run of consecutive clusters goes exactly as far as the plain walk does, with the same error |
| `FatVolume.Fat.ReadChain` | rustypi-core/src/fat/mod.rs:370-416 | For any FAT contents, loops and bad entries included: terminates with the same bytes or the same error as the plain cluster by cluster walk |
| `FatVolume.Fat.Read` | rustypi-core/src/fat/mod.rs:299-305 | Reads what the tree of the volume holds at the path, or the error of the first component that fails |
| `FatVolume.Fat.FindDir` | rustypi-core/src/fat/mod.rs:323-334 | The directory the components lead to, cluster 0 meaning the root |
| `FatVolume.Fat.FindIn` | rustypi-core/src/fat/mod.rs:336-341 | The first entry whose name matches |
| `FatVolume.Fat.ListEntries` | rustypi-core/src/fat/mod.rs:343-351 | The entries of the directory's slots, by chain or fixed region |
| `FatLayout.Mount` | rustypi-core/src/fat/mod.rs:201-271 | A volume accepted has a cluster count that decides its type, sectors in order, and no more clusters than its type can number |
| `FatLayout.ClustersAreNoMarkers` | rustypi-core/src/fat/mod.rs:236-245 | No valid cluster number can be taken for the end or bad marker |
| `FatSafety.UnownedWrites` | rustypi-core/src/fat/write.rs:5-16 | Whatever is written to clusters no chain owns, the volume stays well formed and reads the same |
| `FatSafety.FormattedIsWellFormed` | rustypi-core/src/fat/write.rs:5-16 | A volume with an empty root directory is well formed, so the volumes the operations are promised for exist and are what they keep to |
| `FatSafety.GrowStored` | rustypi-core/src/fat/write.rs:546-570 | Zeroed clusters hooked onto a directory leave it well formed, reading the same, with unused slots more |
| `FatSafety.ReplaceStored` | rustypi-core/src/fat/write.rs:237-245 | An entry rewritten in one block shows the new file, and everything else as before |
| `FatSafety.AddStoredPart` | rustypi-core/src/fat/write.rs:538-541 | While some slots of a new entry are unwritten the volume reads as before |
| `FatSafety.AddStoredWhole` | rustypi-core/src/fat/write.rs:538-541 | Once the last is written the entry shows, and everything else is as before |
| `FatSafety.DeleteStored` | rustypi-core/src/fat/write.rs:314-319 | Partly or wholly deleted, an entry is gone or there under its 8.3 name, with all its fields; every other entry, file and directory is as before |
| `FatRewrites.ChangeKeepsWellFormed` | rustypi-core/src/fat/write.rs:5-16 | Changing one directory's entries so that they still point at chains of their own keeps the volume well formed |
| `FatChains.ChainHasNoRepeats` | rustypi-core/src/fat/write.rs:498-510 | A chain that ends never visits a cluster twice |
| `FatChains.WalkIsChain` | rustypi-core/src/fat/write.rs:498-510 | What the bounded walk comes to the end of is a chain |
| `FatChains.WalkFindsChain` | rustypi-core/src/fat/mod.rs:370-416 | And it finds every chain there is |
| `FatNames.ExactShortReadsBack` | rustypi-core/src/fat/write.rs:103-119 | A name with an 8.3 form reads back from its slot and case flags exactly |
| `FatLongNames.LongNameReadsBack` | rustypi-core/src/fat/write.rs:183-206 | The pieces of a long name collect back to it if and only if it does not hold U+FFFF |
| `FatLongNames.Alias` | rustypi-core/src/fat/write.rs:123-154 | The alias is the first not taken, found within one more try than there are taken names |
| `FatLongNames.CandidatesDiffer` | rustypi-core/src/fat/write.rs:123-154 | Aliases with different numbers differ |
| `FatNewEntries.NewEntryReads` | rustypi-core/src/fat/write.rs:524-542 | The slots of a new entry parse to exactly its name, kind, cluster and size, in those slots, if its name reads back after what stands before them |
| `FatUpdates.AddedEntries` | rustypi-core/src/fat/write.rs:524-542 | A directory with a new entry's slots has one entry more, or none, pointing where it should; and it is the entry asked for if and only if its name reads back after what stands before it |
| `FatNewEntries.OrphanTakesOver` | rustypi-core/src/fat/mod.rs:510-553 | The condition is needed: pieces left without their 8.3 slot rename an 8.3 entry put right after them that has their checksum |
| `FatNewEntries.SetFields` | rustypi-core/src/fat/write.rs:171-180 | Setting what an entry points at and when it changed keeps its name, attributes and created stamp |
| `FatDirectory.ParseLocated` | rustypi-core/src/fat/mod.rs:565-603 | The loop with its collector gives the entries of the slot by slot reading |
| `FatDirectory.LongName.Add` | rustypi-core/src/fat/mod.rs:523-539 | Collects a piece, or drops the name for one out of sequence, as the pure collector does |
| `FatDirectory.LongName.Take` | rustypi-core/src/fat/mod.rs:542-552 | Gives the collected name only if it is complete and has the entry's checksum |
| `FatDirectoryChanges.RewriteEntry` | rustypi-core/src/fat/write.rs:237-245 | Rewriting an entry's fields past its name changes that entry alone |
| `FatDirectoryChanges.DeleteEntry` | rustypi-core/src/fat/write.rs:314-319 | Marking an entry's slots deleted removes it alone; marking only some leaves its 8.3 name |
| `FatDirectoryChanges.AddWhole` | rustypi-core/src/fat/write.rs:524-542 | Slots written over free ones add what they stand for, and no other entry changes |
| `FatDirectoryChanges.AddPart` | rustypi-core/src/fat/write.rs:524-542 | All but the last of them add nothing |
| `FatImages.DirImage.FreeRun` | rustypi-core/src/fat/write.rs:63-76 | The first place with `count` free slots and no end marker before it, if there is one |
| `FatImages.DirImage.ShortNames` | rustypi-core/src/fat/write.rs:53-60 | The 8.3 names of the slots in use, and no others |
| `FatDirs.DotsAreHidden` | rustypi-core/src/fat/write.rs:274-284 | A new directory's `.` and `..` read as no entries |
| `RunQueues.RunQueue.PickNext` | rustypi-core/src/sched.rs:309-333 | The task the policy chooses: the next ready one around from the current, not one another core leaves, else the current if it may go on, else the core's idle task |
| `RunQueues.IdleOnlyAlone` | rustypi-core/src/sched.rs:309-333 | A core gets its idle task only if no other task it could run is ready |
| `RunQueues.RunQueue.Notify` | rustypi-core/src/sched.rs:263-277 | Every waiter for the event is ready, nothing else changes, and the event's generation moves on |
| `RunQueues.RunQueue.Tick` | rustypi-core/src/sched.rs:281-303 | Exactly the sleepers whose time has come are ready |
| `RunQueues.RunQueue.Sleep` | rustypi-core/src/sched.rs:191-196 | Sleeps, unless an interrupt came meanwhile, which it uses up |
| `RunQueues.RunQueue.Wait` | rustypi-core/src/sched.rs:206-211 | Waits only if the generation seen is still the event's, and no interrupt came |
| `RunQueues.RunQueue.Block` | rustypi-core/src/sched.rs:215-221 | Blocks, unless a wake-up came before, which it uses up |
| `RunQueues.RunQueue.Wake` | rustypi-core/src/sched.rs:225-237 | A blocked task is ready, any other keeps the wake-up for its next block |
| `RunQueues.RunQueue.Interrupt` | rustypi-core/src/sched.rs:242-254 | A sleeping or waiting task is ready, a running or ready one keeps the interrupt |
| `RunQueues.RunQueue.Done` | rustypi-core/src/sched.rs:337-342 | Exactly the finished tasks no core runs, each once, in order |
| `RunQueues.RunQueue.constructor` | rustypi-core/src/sched.rs:108-118 | One task, running on core 0 |
| `KernelSwitch.SwitchSafe` | src/sched.rs:472-528 | A switch keeps the stacks apart if and only if no other core runs the task picked |
| `KernelSwitch.GuardedRunsSafe` | src/sched.rs:461-528 | In every run whose switches are so guarded, no two cores are on or leaving one stack, and no stack in use is freed |
| `KernelSwitch.MergedRunsSafe` | src/sched.rs:461-528 | In every run from boot, for any number of cores, in which a wait and its switch are one step: the same |
| `KernelSwitch.SplitRunsRace` | src/sched.rs:322-326 | A run that wakes a task between its wait and its switch puts two cores on one stack |
| `KernelSwitch.BlockedUntilWoken` | rustypi-core/src/sched.rs:215-237 | A blocked task stays so until it is woken, whatever step is taken |
| `WaitUntil.NothingIsLost` | src/sched.rs:329-342 | Every step keeps: a waiting task has seen the current generation, and if its condition holds, a notification is still to come |
| `WaitUntil.NoLostWakeUp` | src/sched.rs:329-342 | So over every run of waiters, changers and notifiers |
| `Mutexes.LockState.TryLock` | rustypi-core/src/lock.rs:44-56 | Takes a free lock, queues at the end of a held one, also a task that is queued already, and refuses only the task that has it |
| `Mutexes.LockState.Unlock` | rustypi-core/src/lock.rs:61-67 | Hands the lock to the longest waiter, or frees it; refuses a task that does not hold it |
| `Mutexes.StepKeeps` | src/synchronization.rs:164-191 | Every step of locking, blocking, waking and releasing keeps: a queued task has no wake-up, its heir exactly one on the way or at hand, queue and owner agree with where tasks are |
| `Mutexes.RunsHold` | src/synchronization.rs:164-191 | Over every interleaving of any tasks and locks: at most one task in a critical section, a block returns only to the owner, ownership passes in arrival order, each queued task gets exactly one wake-up |
| `Mutexes.MutualExclusion` | src/synchronization.rs:164-191 | At most one task is in each critical section |
| `Mutexes.ReturnsOwner` | src/synchronization.rs:175-178 | A block returns only once the lock is the task's own |
| `Heaps.Heap.Alloc` | rustypi-core/src/heap.rs:85-121 | The lowest suitably aligned address whose whole range is free, or null exactly if there is none; the free bytes lose exactly that range; `used` stays exact |
| `Heaps.Heap.GiveBack` | rustypi-core/src/heap.rs:135-171 | Refused exactly when the range meets free memory; otherwise the free bytes gain exactly it and the list is sorted and coalesced again, in the memory it describes |
| `Heaps.Heap.Dealloc` | rustypi-core/src/heap.rs:128-132 | The same for what an allocation took, with `used` |
| `Heaps.Heap.Init` | rustypi-core/src/heap.rs:60-67 | The whole blocks of the range are free; valid exactly if there is one |
| `Heaps.Heap.Extend` | rustypi-core/src/heap.rs:75-82 | Adds exactly the whole blocks of the range |
| `Heaps.Heap.Restored` | rustypi-core/src/heap.rs:135-171 | Once everything is freed, in whatever order, the free list is the list of the memory given |
| `FreeLists.OnlyList` | rustypi-core/src/heap.rs:135-171 | There is one sorted coalesced list for a set of bytes |
| `FreeLists.TakenList` | rustypi-core/src/heap.rs:98-116 | Carving a range out of a block leaves the list of the other bytes, with as many fewer |
| `FreeLists.GivenList` | rustypi-core/src/heap.rs:135-171 | Merging a range in makes the list of its bytes as well |
| `FreeLists.ApartIs` | rustypi-core/src/heap.rs:137-149 | Looking at the two neighbours tells whether the range meets anything free |
| `Heaps.FirstFit` | rustypi-core/src/heap.rs:85-121 | The first block that fits gives the lowest address of all |
| `Heaps.NoneFits` | rustypi-core/src/heap.rs:85-121 | If no block fits, no address does |
| `Heaps.ScribblesAreHarmless` | rustypi-core/src/heap.rs:128-171 | Whatever is written to memory that is not free, the list stays |
| `PageFrames.Frames.constructor` | rustypi-core/src/frames.rs:38-47 | Every whole page of the range, all free, and no bit past the last ever clear |
| `PageFrames.Frames.Allocate` | rustypi-core/src/frames.rs:50-58 | None exactly if none is free; otherwise a page not handed out before, and only it becomes taken |
| `PageFrames.Frames.Free` | rustypi-core/src/frames.rs:61-74 | Not a frame, not allocated, or free again: exactly; only that frame changes |
| `PageTables.WalkFindsRecorded` | rustypi-core/src/paging.rs:218-236 | For every address, the walk over the tables in RAM finds exactly the page recorded, with its access |
| `PageTables.DescriptorRoundTrip` | rustypi-core/src/paging.rs:70-110 | A descriptor gives back the frame and the access it was made of |
| `PageTables.IndexesName` | rustypi-core/src/paging.rs:153-163 | The three indexes name the page of an address, and no other entries do |
| `PageTables.AddTable` | rustypi-core/src/paging.rs:196-205 | Hooking in a zeroed level 3 table keeps the tables right and the program's memory as it was |
| `PageTables.AddPage` | rustypi-core/src/paging.rs:206-208 | Mapping a zeroed frame adds exactly that page |
| `PageTables.PokeChangesPage` | rustypi-core/src/paging.rs:262-281 | Bytes copied to where an address translates change that page of the program's memory, and no table |
| `PageTables.OthersAreHarmless` | rustypi-core/src/paging.rs:140-151 | Whatever happens to frames it does not own leaves an address space as it was |
| `AddressSpaces.SpacesAreApart` | rustypi-core/src/paging.rs:186-209 | What one address space does leaves every other as it was, with frames of its own |
| `AddressSpaces.AddressSpace.New` | rustypi-core/src/paging.rs:168-178 | Fails exactly with fewer than two free frames, giving back what it took; else an empty window over the kernel's entries |
| `AddressSpaces.AddressSpace.Map` | rustypi-core/src/paging.rs:186-209 | Not aligned, outside the window, mapped already, or out of memory: exactly, in that order. Success adds one zeroed page; failure none, though a table may stay; other frames are untouched |
| `AddressSpaces.AddressSpace.MapRange` | rustypi-core/src/paging.rs:212-215 | The pages up to the first that is refused are mapped and zeroed, and the error is that page's |
| `AddressSpaces.AddressSpace.Translates` | rustypi-core/src/paging.rs:233-236 | Translation is the flat map of recorded pages |
| `AddressSpaces.AddressSpace.Store` | rustypi-core/src/paging.rs:240-266 | The fault is the lowest address that may not be accessed; exactly the bytes below it were copied, across pages, and every other byte is as before; the sum of address and offset never overflows |
| `AddressSpaces.AddressSpace.Load` | rustypi-core/src/paging.rs:262-266 | The same whatever the access |
| `AddressSpaces.AddressSpace.WriteUser` | rustypi-core/src/paging.rs:277-281 | The same for writable pages |
| `AddressSpaces.AddressSpace.ReadUser` | rustypi-core/src/paging.rs:269-274 | The buffer holds the program's bytes below the fault, and is untouched from there on |
| `AddressSpaces.ReadAfterWrite` | rustypi-core/src/paging.rs:262-281 | What `IsStored` and `IsRead` mean together: what was stored reads back, and what was elsewhere reads as it did. That the code stores and reads so is `Store` and `ReadUser` |
| `AddressSpaces.AddressSpace.Drop` | rustypi-core/src/paging.rs:289-296 | Every frame of its pages and tables is given back, each exactly once, and no other |
| `AddressSpaces.Memory.Free` | src/sys/memory.rs:24-31 | Freeing a frame that is handed out cannot panic |
| `Elf.Parse` | rustypi-core/src/elf.rs:107-181 | The first header at fault decides the error; segments sharing any page are refused, and only they; every file accepted is a program: aligned segments in order, in the program area, on pages of their own, with an executable one that holds the entry |
| `Elf.NeighboursSuffice` | rustypi-core/src/elf.rs:168-173 | Neighbours in address order that share no page leave no two segments that do |
| `Elf.SortKeepsApart` | rustypi-core/src/elf.rs:168 | Sorting does not change whether any two share a page |
| `Processes.LoadProgram` | rustypi-core/src/elf.rs:185-191 | Every byte of every segment is in memory, data then zeros, with its access, and nothing else is; it fails only for want of memory |
| `Processes.SetUp` | src/process/mod.rs:251-278 | Segments, a writable stack, and the arguments at its top, aligned; only memory can be short, so no `unreachable!` is reached |
| `Processes.Process.Spawn` | src/process/mod.rs:233-302 | A program started is set up whole on frames of its own; one that fails has given every frame back, and was short of frames |
| `Processes.Process.Grow` | src/process/mod.rs:533-553 | The heap grows by whole zeroed pages, as far as there is memory; refused only past the guard page or for want of frames |
| `Processes.GuardsStayUnmapped` | rustypi-abi/src/lib.rs:24-36 | What `Laid`, part of `Process.Valid`, means for the guard pages: those below and above the stack are not accessible. That it always holds is `Process.Spawn` and `Process.Grow` |
| `UsbTree.Enumerator.Take` | rustypi-core/src/usb/tree.rs:179-183 | The lowest free address, or none exactly if all are used |
| `UsbTree.Enumerator.Free` | rustypi-core/src/usb/tree.rs:186-190 | Gives back exactly the addresses of a device and everything behind it |
| `UsbTree.Enumerator.Enumerate` | rustypi-core/src/usb/tree.rs:245-259 | Whatever the bus answers: a device found takes its addresses and those behind it, once each, the lowest free one itself; a failure takes none; on a bus that answers, it fails only for want of addresses |
| `UsbTree.Enumerator.Addressed` | rustypi-core/src/usb/tree.rs:262-283 | The rest of it, from the address on |
| `UsbTree.Enumerator.EnumerateHub` | rustypi-core/src/usb/tree.rs:286-296 | What is found on the ports takes its addresses; a hub that fails has taken none |
| `UsbTree.Enumerator.EnumeratePort` | rustypi-core/src/usb/tree.rs:305-331 | Empty exactly if nothing is connected; a device found has the translator its path asks for and is not too deep |
| `UsbTree.Enumerator.ResetPort` | rustypi-core/src/usb/tree.rs:362-383 | The speed is that of a status read after the reset was done and with the port enabled; it gives up after exactly 50 looks that all found it going on |
| `UsbTree.Enumerator.PollHub` | rustypi-core/src/usb/tree.rs:335-359 | Addresses in use minus addresses in the subtree stay the same, whatever came or went; no change reported means none happened |
| `UsbTree.Enumerator.PollPort` | rustypi-core/src/usb/tree.rs:338-358 | The same for one port |
| `UsbTree.Tree.New` | rustypi-core/src/usb/tree.rs:211-215 | The table is exactly the addresses in the tree |
| `UsbTree.Tree.PollChanges` | rustypi-core/src/usb/tree.rs:221-226 | It stays so over any number of polls |
| `UsbTree.AddressesAreDistinct` | rustypi-core/src/usb/tree.rs:169-191 | Addresses in a tree are distinct and from 1 to 127 |
| `UsbTree.NearestIsAncestor` | rustypi-core/src/usb/tree.rs:315-321 | A translator is the nearest high speed hub above the device, and the port on the way |
| `Calendar.ConversionCounts` | rustypi-core/src/time.rs:93-117 | The date of a day number is the one counted day by day from 1970-01-01 by the rules of the Gregorian calendar |
| `Calendar.DayRoundTrip` | rustypi-core/src/time.rs:93-117 | Every day number's date is one of the calendar, and gives the number back |
| `Calendar.DateRoundTrip` | rustypi-core/src/time.rs:25-34 | Every date of the calendar comes back from its day number |
| `Calendar.TomorrowIsNext` | rustypi-core/src/time.rs:25-34 | The date after has the number after |
| `Calendar.LastSundayIsLast` | rustypi-core/src/time.rs:37-41 | It is a Sunday of that month, and no later day of the month is |
| `Calendar.WeekdayCounts` | rustypi-core/src/time.rs:115-116 | Weekdays follow one another from Thursday 1970-01-01 |
| `Calendar.TimeRoundTrip` | rustypi-core/src/time.rs:93-117 | For every time: the date and weekday counted, and a time of day that add up to it |
| `Calendar.SummerTime` | rustypi-core/src/time.rs:72-82 | For every 64-bit time: two hours ahead exactly from 01:00 UTC on the last Sunday of March to that of October, although the bounds and the time are compared as wrapped signed numbers |
| `Calendar.SwitchesFit` | rustypi-core/src/time.rs:77-78 | The bounds of the year of a time fit a signed 64-bit number exactly for times up to the end of year 292277026596, in which the seconds themselves stop fitting; both wrap or neither does |
| `Crc.Compute` | rustypi-core/src/update.rs:26-35 | The register loop computes the CRC-32 function |
| `Crc.BurstsAreDetected` | rustypi-core/src/update.rs:26-35 | Images of one length that differ only within four consecutive bytes never share a CRC-32 |
| `Crc.ShiftsLinear` | rustypi-core/src/update.rs:26-35 | The register is linear in what goes in |
| `Crc.DifferenceStays` | rustypi-core/src/update.rs:26-35 | Registers that differ stay different over equal bytes |
| `Updates.Receiver.Handle` | rustypi-core/src/update.rs:77-123 | For any datagrams in any order: a complete image has the announced size and CRC-32, and every chunk is the first that came for it since the last begin |
| `Updates.Receiver.Begin` | rustypi-core/src/update.rs:80-90 | Starts afresh, refuses a short begin leaving things be, and a bad size forgetting them |
| `Updates.Receiver.Data` | rustypi-core/src/update.rs:91-109 | Taken exactly if it fits its place; a repeat changes nothing but is acknowledged |
| `Updates.Receiver.End` | rustypi-core/src/update.rs:110-120 | Chunks missing exactly if nothing came for some place; otherwise the image if its CRC-32 matches, and the transfer is over |
| `Updates.AssembledOnce` | rustypi-core/src/update.rs:77-123 | There is only one image the chunks make |
| `Updates.FirstIsFirst` | rustypi-core/src/update.rs:100-105 | The chunk kept is the earliest of those for its place |
| `Packets.AddUp` | rustypi-core/src/net/mod.rs:75-84 | The loop computes the sum of big endian words without overflowing 32 bits |
| `Packets.FoldUp` | rustypi-core/src/net/mod.rs:87-92 | The folding loop ends with the one's complement |
| `Packets.ZeroMeansMultiple` | rustypi-core/src/net/mod.rs:87-97 | A checksum is 0 exactly if the sum is a multiple of 65535 and not 0 |
| `Packets.ChecksumChecks` | rustypi-core/src/net/mod.rs:94-97 | Data that includes its own checksum has checksum 0, also with all ones sent for 0 |
| `Packets.ChangedWordShows` | rustypi-core/src/net/mod.rs:87-97 | A changed word shows, exactly unless it went between 0 and all ones |
| `Packets.UdpRoundTrip` | rustypi-core/src/net/udp.rs:26-55 | A datagram built parses back exactly if its length fits 16 bits |
| `Packets.Ipv4RoundTrip` | rustypi-core/src/net/ipv4.rs:24-54 | A packet built parses back, whatever padding follows it, if and only if its length fits 16 bits |
| `Packets.EthernetRoundTrip` | rustypi-core/src/net/ethernet.rs:23-38 | A frame built parses back with its padding still on |
| `Packets.FrameRoundTrip` | rustypi-core/src/net/ethernet.rs:23-38 | A datagram in a packet in a padded frame comes out as it went in |
| `Packets.AccumulatorsFit` | rustypi-core/src/net/udp.rs:17-22 | The sum of any datagram and its pseudo-header fits the accumulator |

## Left out

- Device errors in FAT operations: the modelled device does not fail.
- FatVolume.Fat.WriteFile: for volumes that `WellFormed` and `Sound` describe, which `mount` does not check: each FAT is big enough, FSInfo lies before the FATs, directories have only unused slots after their end marker, chains are disjoint. Directories of 9,999,999 slots or more, where alias numbers run out, are excluded by `DirsFit`. Names are text: UTF-16 without unpaired surrogates, as the callers' strings always are. For a new name that will not read back (`FileKept` fails), which name the entry shows under is not stated.
- FatVolume.Fat.CreateDir: the same as for `WriteFile`.
- FatVolume.Fat.Remove: the same, without the limit on slots.
- FatLayout.Mount: reads the boot sector only; a card's partition table and the device's block size check are not modelled.
- Splitting path strings: paths are sequences of components. Unicode case folding is an arbitrary function `fold` on names.
- FAT time stamps: an entry's created and modified fields hold the stamp given; clocks are not modelled.
- KernelSwitch.MergedRunsSafe: assumes that a task's wait call and the switch of its core that follows are one step.
- Mutexes.RunsHold: steps of the scheduler other than blocking and waking are taken from kernels that are `Safe`, which `KernelSwitch.MergedRunsSafe` keeps under the same assumption.
- Mutexes.StepKeeps: the same as for `RunsHold`.
- Lazy floating point register ownership, CPU time accounting and task names in the scheduler.
- WaitUntil.NoLostWakeUp: is a safety statement; that a notification still to come does come is the notifier's business.
- Heaps.Heap.Alloc: addresses are unbounded; overflow of 64-bit addresses is not modelled.
- AddressSpaces.AddressSpace.Drop: frees frames in map order; the order is not modelled, nor are the TLB and cache maintenance around it.
- PageTables.WalkFindsRecorded: descriptors are 64-bit numbers built by addition of disjoint bits; what the MMU does with attribute bits beyond access is not modelled.
- Elf.Parse: the library sort is modelled as an insertion sort with the same result.
- Processes.Process.Spawn: address space identifiers, handles, and the built-in programs' image are left out; the program given is one `Elf.Parse` accepted.
- UsbTree.Enumerator.PollHub: the tree is a value and the polled device is returned, where the source updates ports in place; descriptors are what a reply says of them, and the delays are left out.
- Updates.Receiver.Handle: replies are values (`Begun`, `Acknowledged`, `Refused`), not their bytes.
- Calendar.SummerTime: arithmetic wraps around, as in the release build build.sh makes; with overflow checks the bounds overflow for the years that `SwitchesFit` says. Adding the offset to a time near the end of 64 bits is not modelled, nor are names of zones and formatting.
- ARP, DHCP, DNS, ICMP, SNTP and the network interface: they would add protocol plumbing only.
- Register-level drivers, assembly, the shell, the console, system call encoding, pipes: hardware effects or one-branch facts.
