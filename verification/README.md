# A verified model of a Raspberry Pi kernel

The repository is a bare-metal kernel for the Raspberry Pi Zero. This project models six of its
parts in Dafny and proves what they promise: the FAT32 engine with its sector cache, the memory
allocator with its lists and block moves, the two-level page tables, the scheduler, path
resolution with directory paging and ELF loading, and the small exact arithmetic they rest on.

Code that works in place is modelled in place: methods over arrays and objects with the source's
loops, each proved equal to a function on values. The theorems are about those functions.

- **Sectors.** `SectorCache` is the direct-mapped, write-invalidate cache over a card of 2^23
  sectors; the 32-bit byte offset of a seek wraps, and the transparency theorem says exactly when
  that shows. `FatVolume` reads a volume (FAT entries and data clusters) out of the card's
  sectors, `FatStore` does single FAT and cluster accesses through the cache.
- **FAT.** `FatChains` and `FatFamily` see the FAT as disjoint acyclic chains; `FatContent` and
  `FatTight` see a chain as one byte sequence; `FatDir`, `FatDirLaws`, `FatCreate`,
  `FatRoundTrip`, `FatUnlink`, `FatUndo` treat directories, create and unlink on values;
  `FatSearch` compares what is listed with what can be found; `FatTable`,
  `FatFile`, `FatSectors`, `FatFiles` are the loops of the source; `FatRuns` and
  `FatOwners` are the run theorems. `FatLayout`, `FatSlots` and `FatPadding` say which bytes of
  the card and of a slot all this is about.
- **Memory.** `BlockMove` moves bytes and words over one array. `LinkedList` relinks nodes in a
  word memory; `Arenas`, `Blocks` and `Heap` are the allocator whose free lists live in that
  memory. `Frames` says what storing into a live block leaves alone, `HeapRuns` what runs of the
  allocator and its clients keep.
- **Address spaces.** `PageTables`, `Spaces`, `Vm`, `Fork`, `Teardown`, `UserSpace`, `UserMap`
  build, copy and free page tables out of allocator blocks in the same word memory; `Translation`
  is the table walk, `SpaceRuns` many spaces over time.
- **Scheduling.** `Sched` is the step machine, `ThreadLives` what a thread's calls do to it over a
  run, `ThreadQueues` the linked queues, `Scheduler` the globals in place.
- **Paths and programs.** `Paths` and `SafePath` normalise paths, `Names` and `NameCases` translate
  8.3 names, `PathLookup` finds names in directories of the volume, `DirStream` and `DirPages` page them.
  `UserMemory`, `Elf` and `ElfLoader` build a process image, `ElfFormat` and `ElfStart` say what the
  image's bytes and the first stack mean; `ProcessView` is how page tables
  provide it.
- **Arithmetic.** `CrcTable`, `Crc`, `CrcSerial`, `Division`, `Printing`.

Conditions the theorems carry are those the code needs: sectors below 2^23, a geometry whose
regions cover every cluster the scans visit, offsets inside the existing chain, legal frees,
memory that suffices, `PT_LOAD` ranges that do not overlap. Where a promise of the design does
not hold on all inputs the exact condition is proved instead:

- The cache is transparent below sector 2^23 and not beyond (`SectorCache.TransparencyBound`).
- Blocks above 64 KiB are never aligned to their size (`Arenas.BlockAligned`), although the
  comment at `lib/src/mem.c:151` wants megabyte alignment for sections.
- Create answers "bytes do not match" exactly when the rounding sum wraps (`FatCreate.ErrorThree`).
- A forked address space is private exactly when rows 512 to 515 hold no second-level table
  (`Teardown.ForkIsolation`).
- Mapping covers the requested range exactly when aligning its end up does not wrap
  (`UserMap.CoversRange`).
- A sleep of 0 ticks waits 2^32 ticks (`Sched.Duration` in `Sched.SleepsThrough`).
- Forked threads have different numbers exactly when no multiple of 2^32 forks lies between
  them (`ThreadLives.NumbersUnique`).
- The free scans reach past the end of the partition unless the reserved and FAT sectors fit what
  the division by the cluster size leaves over (`FatLayout.ScansInside`).
- Mapping a page of a row that held a 1 MB section takes the section's other pages away
  (`Translation.OutsideRange`).
- Listing needs fewer than 21 long-name slots in a row, the size of a local buffer
  (`FatSectors.LongFitsExact`).
- A search by name stops altogether at a never-used slot, a listing only in its own cluster: every
  listed entry can be found exactly when nothing is listed behind the first cluster with such a
  slot (`FatSearch.ReachedAll`), which the kernel's own operations keep (`FatOwners.RunFinds`).
- A segment at address 0 is not copied, as `memcpy` refuses a null destination: it is loaded
  exactly when its file bytes were there before (`ElfLoader.SegmentLoaded`, with the failing input
  in `ElfLoader.NullSegment`).
- The first stack pointer is aligned to 8 bytes exactly when the number of argument and environment
  strings is odd (`ElfLoader.StackAligned`).
- A lookup by name may take an entry whose trimmed name is a proper prefix
  (`PathLookup.EntryFound`), and takes files for directories (`PathLookup.NoDirectoryTest`).
- Names with lower-case letters or stray dots do not survive the trip through a listing
  (`Names.NameRoundTrip`).
- The environment pointers of a new process lie in reverse order, unlike the argument pointers
  (`ElfLoader.StackOk`, which `ElfLoader.Process.BuildStack` establishes).

The cluster count at `lib/src/pifat.c:325` and `:356` does not subtract the reserved and FAT
sectors (`FatLayout.ClusterCount`); the model keeps that formula and asks the geometry to cover it.

Verify with `dafny verify --resource-limit 2000000 --verification-time-limit 0 dfyconfig.toml`.

## Model

| member | source | states |
|---|---|---|
| SectorCache.Cache.constructor | lib/src/pifat.c:263-271 | a fresh cache has no valid slot, hence is coherent over any card |
| SectorCache.Cache.ReadSector | lib/src/pifat.c:34-53 | one cached read is `State.Read`, 32-bit seek included; on a coherent cache below sector 2^23 it returns the card's bytes and stays coherent |
| SectorCache.Cache.WriteSector | lib/src/pifat.c:54-64 | a write reaches the card and drops the matching slot; below 2^23 the card changes in that sector only and the cache stays coherent |
| SectorCache.Cache.ReadMultSector | lib/src/pifat.c:66-93 | a multi-sector read returns the card's sectors in order, whatever mix of hits and misses serves it |
| SectorCache.RunTransparent | lib/src/pifat.c:34-93 | every interleaving of single reads, multi-sector reads and writes below sector 2^23 reads exactly what the bare card would give |
| SectorCache.StaleAlias | lib/src/pifat.c:45-62 | read 0, write 2^23, read 0 returns stale bytes: the seek offset wraps but the tag does not |
| SectorCache.TransparencyBound | lib/src/pifat.c:34-93 | runs over sectors below a bound are transparent for every card if and only if the bound is at most 2^23 |
| FatVolume.FatPatch | lib/src/pifat.c:387-403 | rewriting one FAT word in its sector is, on the volume, a change of one entry and of no data cluster |
| FatVolume.DataPatch | lib/src/pifat.c:110-113 | writing sector i of a cluster splices that cluster's bytes and changes no FAT entry and no other cluster |
| FatVolume.LbaDisjoint | lib/src/pifat.c:110-113 | different clusters occupy disjoint sector ranges |
| FatVolume.Merge | lib/src/pifat.c:397-398 | an entry write sets the low 28 bits and keeps the top four |
| Bytes.WriteU32 | lib/include/mem.h:93-104 | `write_u32` followed by `read_u32` gives the word back; other bytes stay |
| Bytes.ReadNumber | lib/include/mem.h:93-96 | `read_u32` is the number of four bytes, least significant first |
| Bytes.WriteNumber | lib/include/mem.h:98-104 | `write_u32` puts just the number's four bytes in place |
| FatLayout.EntryPosition | lib/src/pifat.c:114-125 | with the FAT region as one byte sequence, the entry of cluster c is the word at byte 4c, for every c below the limit |
| FatLayout.ClusterPosition | lib/src/pifat.c:110-113 | with the data region as one byte sequence, cluster c is its (c - 2)-th piece of a cluster's size |
| FatLayout.LinkBytes | lib/src/pifat.c:387-403 | a link write changes no other byte of the card |
| FatLayout.VolumeDetermines | lib/src/pifat.c:110-125 | cards with the same volume are equal: entries, clusters and `rest` together leave nothing of the card out |
| FatLayout.ClusterCount | lib/src/pifat.c:325 | the cluster count is that of all sectors of the partition, reserved and FAT sectors included |
| FatLayout.ScansInside | lib/src/pifat.c:301-328 | the last cluster the scans visit lies inside the partition if and only if reserved and FAT sectors fit the sectors left over by the division |
| FatStore.Store.NextCluster | lib/src/pifat.c:114-125 | the link read through the cache: with the FAT region as one byte sequence, the low 28 bits of the little-endian word at byte 4c |
| FatStore.Store.WriteEntry | lib/src/pifat.c:387-403 | exactly one entry changes, merged with its old top bits, and no byte of the card but the four at byte 4c of the FAT |
| FatStore.Store.ReadCluster | lib/src/pifat.c:232-235 | the cluster's bytes |
| FatStore.Store.WriteCluster | lib/src/pifat.c:567-571 | one cluster replaced, everything else unchanged |
| FatChains.FreeFromAscending | lib/src/pifat.c:328-350 | free clusters come in strictly ascending order |
| FatChains.FreeFromComplete | lib/src/pifat.c:328-350 | a cluster is in the scan if and only if its link is zero |
| FatChains.ChainDetermined | lib/src/pifat.c:114-125 | two chains with the same head are the same chain |
| FatChains.ChainDistinct | lib/src/pifat.c:114-125 | a chain that ends in an end mark never meets a cluster twice |
| FatTable.FindFreeClusters | lib/src/pifat.c:322-352 | success if and only if at least n clusters are free, and then the first n of them; nothing is written |
| FatTable.GiveNextFreeCluster | lib/src/pifat.c:354-385 | the first free cluster, linked behind the tail and terminated; all ones and no change if and only if none is free |
| FatTable.FreeClusterChain | lib/src/pifat.c:405-415 | terminates on every in-range table and leaves the table `FreeChain` describes |
| FatFamily.FreeChainExact | lib/src/pifat.c:405-415 | on every in-range table, cyclic and cross-linked ones included, exactly the clusters reachable from the start are cleared, top bits kept |
| FatFamily.ReachesChain | lib/src/pifat.c:405-415 | from the head of a chain exactly its clusters are reachable |
| FatFamily.FamilyExtend | lib/src/pifat.c:354-385 | appending a free cluster keeps the FAT a family of disjoint acyclic chains |
| FatFamily.FamilyNew | lib/src/pifat.c:489-498 | so does linking distinct free clusters into a new chain |
| FatFamily.FamilyFree | lib/src/pifat.c:405-415 | so does freeing a chain, which is then gone from the family |
| FatFile.ReadFileWithOffset | lib/src/pifat.c:221-246 | the chain's bytes from the offset on, as many as were asked for or the chain has |
| FatFile.ReadFile | lib/src/pifat.c:186-219 | the first `size` bytes of the chain |
| FatFile.WriteInCluster | lib/src/pifat.c:550-571 | one cluster overwritten from an offset, by read-modify-write or as a whole |
| FatFile.WriteWithOffset | lib/src/pifat.c:535-590 | the nested loops leave the volume and the count of `OffsetWrite` |
| FatContent.OffsetWriteRefines | lib/src/pifat.c:535-590 | a write returning k overwrites bytes offset to offset + k of the chain as one sequence, grows the chain only at its tail by the first free clusters, keeps all other entries and bytes, and k falls short only when no cluster is free |
| FatTight.OffsetWriteTight | lib/src/pifat.c:576-587 | no cluster is appended that receives no byte, and a nonempty write makes progress |
| FatSectors.VacantInSector | lib/src/pifat.c:430-440 | the first deleted or never-used slot of a sector |
| FatSectors.InsertInCluster | lib/src/pifat.c:425-441 | the entry goes into the first vacant slot of the cluster; fails without change if and only if there is none |
| FatSectors.FindInCluster | lib/src/pifat.c:599-623 | where the scan of one cluster for a name ends: a hit, the end of the directory, or past the cluster |
| FatSectors.ListCluster | lib/src/pifat.c:126-184 | the listed entries of one cluster, sector by sector, provided the buffer of 20 pending long-name slots suffices |
| FatSectors.LongFitsExact | lib/src/pifat.c:132-153 | which is so if and only if the scan meets no 21 long-name slots in a row |
| FatFiles.ListDirectory | lib/src/pifat.c:247-261 | the listing of a directory over all its clusters |
| FatFiles.InsertEntry | lib/src/pifat.c:417-472 | the loops and the extension path leave what `DirInsert` says |
| FatFiles.ExtendDirectory | lib/src/pifat.c:445-471 | a full directory gets one cleared cluster behind its last, with the entry in front, or code 2 |
| FatFiles.FindName | lib/src/pifat.c:595-625 | the search for a name over a directory's chain |
| FatFiles.UpdateEntry | lib/src/pifat.c:629-662 | the first matching slot is replaced, or -1 and no change |
| FatFiles.UnlinkFile | lib/src/pifat.c:592-627 | chain freed and slot marked, or -1 and no change |
| FatFiles.CreateFile | lib/src/pifat.c:474-533 | the whole create leaves the volume and code of `Create` |
| FatSlots.SlotReads | lib/include/pifat.h:66-80 | a slot laid out field by field in the order of `fat_dirent_t` reads back: name, attribute, start cluster from its two halves, size |
| FatSlots.NewSlot | lib/src/pifat.c:524-532 | a new entry is the name, the archive flag, the halves of the start cluster, the size, and zeros in every other field |
| FatSlots.ListedByFlags | lib/src/pifat.c:126-184 | a listing shows exactly the slots in use without the volume flag, directories included; the test for long-name parts adds nothing |
| FatSlots.LongByFlags | lib/src/pifat.c:132-153 | a long-name part is a slot in use with the four lowest flags and no other |
| FatDir.StrnEqNames | lib/src/cstr.c:182-194 | on names without an inner NUL the prefix-tolerant comparison is equality |
| FatDirLaws.InsertCode | lib/src/pifat.c:417-472 | insertion fails, with code 2 and no change, if and only if every slot is in use and no cluster is free |
| FatDirLaws.InsertFat | lib/src/pifat.c:456-458 | the FAT changes only by the one link that extends the directory |
| FatDirLaws.InsertLists | lib/src/pifat.c:417-472 | in a tidy directory the multi-cluster listing gains exactly the new entry |
| FatDirLaws.TidyOverwrite | lib/src/pifat.c:430-440 | filling the first vacant slot keeps the cluster tidy: nothing in use behind a never-used slot |
| FatDirLaws.InsertFinds | lib/src/pifat.c:592-613 | a name absent before is found at the new entry afterwards |
| FatCreate.ErrorThree | lib/src/pifat.c:476-523 | code 3 is answered exactly when the cluster-count sum wraps and clusters were found; with sizes that do not wrap it is unreachable |
| FatRoundTrip.CreateFamily | lib/src/pifat.c:474-533 | a successful create adds one chain and at most extends the directory's |
| FatRoundTrip.CreateKeeps | lib/src/pifat.c:474-533 | all other entries and clusters keep their contents |
| FatRoundTrip.CreateReadsBack | lib/src/pifat.c:474-533 | the new chain holds the given data, for every size including 0 |
| FatPadding.CreateBytes | lib/src/pifat.c:499-517 | the new chain holds the data, zeros to the end of its last sector, at least one sector, and behind that what its clusters held before |
| FatRoundTrip.CreateLists | lib/src/pifat.c:524-532 | the listing gains exactly one entry, with the name, size and first cluster of the new file |
| FatRoundTrip.CreateFinds | lib/src/pifat.c:592-613 | a search for the fresh name hits that entry |
| FatRoundTrip.CreateThenUnlink | lib/src/pifat.c:405-627 | unlinking the file just created restores every link except those that extended the directory |
| FatUnlink.UnlinkLists | lib/src/pifat.c:592-627 | unlinking takes exactly the entry found out of the listing, order kept |
| FatUnlink.UpdateLists | lib/src/pifat.c:629-662 | updating puts the new entry in the listing in the place of the one found, keeps the order of all others, and writes neither the FAT nor the rest of the card |
| FatUndo.PlaceFound | lib/src/pifat.c:417-625 | a search for a name just inserted ends at the very slot the insertion filled |
| FatUndo.CreateThenUnlinkLists | lib/src/pifat.c:405-627 | create then unlink gives back the directory's listing, order included, also when the create extended the directory |
| FatSearch.ReachedAll | lib/src/pifat.c:607-609 | a search gets to every listed entry if and only if nothing is listed behind the first cluster with a never-used slot; the listing itself goes on there |
| FatSearch.ReachedFound | lib/src/pifat.c:592-625 | every entry a search gets to is hit by its name, or one before it is |
| FatSearch.FoundReached | lib/src/pifat.c:592-625 | a search never ends at a listed entry other than those |
| FatRuns.RunKeepsFamily | lib/src/pifat.c:322-662 | over every run of creates, writes, unlinks and updates the FAT stays a family of pairwise disjoint acyclic chains holding every used entry |
| FatRuns.RunKeepsRest | lib/src/pifat.c:322-662 | over every run no byte of the card changes outside FAT entries and data clusters |
| FatRuns.StepFrame | lib/src/pifat.c:322-662 | a chain an operation does not work on stays in the family with the same bytes |
| FatRuns.StepExists | lib/src/pifat.c:322-662 | no legal operation gets stuck |
| FatOwners.InsertSlot | lib/src/pifat.c:417-472 | as a set of slots, an insertion writes one slot that was deleted, never used or new, behind no never-used one, and leaves all others |
| FatOwners.FoundSlot | lib/src/pifat.c:595-625 | the slot a search ends at is in use, with no never-used slot before it in its cluster |
| FatOwners.PoliteIsLegal | lib/src/pifat.c:592-627 | in a tree of directories whose files own their chains every unlink of a file frees a chain of the volume that is the file's own and no directory's, or nothing |
| FatOwners.StepGood | lib/src/pifat.c:322-662 | creates (failed ones included), writes to files, unlinks and updates that keep the first cluster, in any directory of the tree, keep every directory tidy, with never-used slots in its last cluster only, and every file's slot the owner of its own chain, across all directories |
| FatOwners.RunKeepsOwners | lib/src/pifat.c:322-662 | over every run on a tree of directories ownership holds in each state, and each operation is legal without having been asked to be |
| FatOwners.RunFinds | lib/src/pifat.c:126-662 | in every state of such a run whatever a listing of a directory shows can be found by name |
| FatOwners.StepSpares | lib/src/pifat.c:322-662 | an operation that neither writes to a file nor hits its slot leaves the slot, the entry, the chain and the bytes |
| FatOwners.FileSurvives | lib/src/pifat.c:322-662 | so does any stretch of a run of such operations |
| FatOwners.CreatedSurvives | lib/src/pifat.c:474-662 | data given to a successful create anywhere in a run is still read through its entry after all later operations that spare the file |
| BlockMove.MemmoveFast | lib/src/mem.c:56-117 | the destination gets the source's old bytes and nothing else changes, for every overlap, direction, length and alignment |
| BlockMove.Memcpy | lib/src/mem.c:124-147 | the same, when the destination does not start inside the source; null pointers do nothing |
| BlockMove.MemsetFast | lib/src/mem.c:30-53 | exactly the given bytes are set |
| BlockMove.MovedMeans | lib/src/mem.c:56-117 | byte by byte: the old source byte inside the destination, the old byte elsewhere |
| LinkedList.InitRing | lib/include/ll.h:20-25 | a node becomes a ring of its own |
| LinkedList.AddTailRing | lib/include/ll.h:27-54 | the ring gains the node at its tail; only three nodes are written |
| LinkedList.DelRing | lib/include/ll.h:37-60 | the ring loses the node; only three nodes are written |
| LinkedList.SpliceRing | lib/include/ll.h:62-80 | all entries of one ring move behind those of the other, which is left empty |
| LinkedList.Memory.ListAddTail | lib/include/ll.h:50-54 | the stores of the insertion, in order |
| LinkedList.Memory.ListDel | lib/include/ll.h:56-60 | the stores of the removal |
| LinkedList.Memory.ListSpliceTail | lib/include/ll.h:62-80 | the stores of the splice |
| Arenas.BlockAligned | lib/src/mem.c:158-204 | a block is aligned to its size if and only if the size is at most 64 KiB |
| Arenas.StartAfter | lib/src/mem.c:182-224 | arenas follow each other without overlap |
| Arenas.ArenasEnd | lib/src/mem.c:182-224 | the last arena ends at 0xCCBD0000 |
| Heap.BootCapacity | lib/src/mem.c:158-224 | class i has blocks of 16 bytes doubled i times, and after initialisation 8192, 16384, 1024, 4 or 2 of them to give |
| Blocks.SmallestFit | lib/src/mem.c:231-240 | the class chosen is the smallest that fits |
| Blocks.LiveApart | lib/src/mem.c:226-298 | live blocks never overlap |
| Blocks.AllocCorrect | lib/src/mem.c:226-271 | reboot exactly above 16 MB, null exactly when the class is used up, otherwise a block of the class that was not live; the partition invariant stays |
| Blocks.FreeCorrect | lib/src/mem.c:272-298 | a live block moves to the tail of its class's list; the invariant stays |
| Blocks.AllocKeepsLive | lib/src/mem.c:226-271 | list writes of an allocation touch no live block |
| Blocks.FreeKeepsLive | lib/src/mem.c:272-298 | list writes of a free touch no other live block |
| Blocks.AvailAlloc | lib/src/mem.c:226-271 | a request succeeds if and only if its class has a block left, and uses up one |
| Heap.Allocator.constructor | lib/src/mem.c:208-224 | initialisation in place gives `InitState` |
| Heap.InitInv | lib/src/mem.c:208-224 | which satisfies the partition invariant |
| Heap.Allocator.Kalloc | lib/src/mem.c:226-271 | the allocation in place is `Alloc` |
| Heap.Allocator.Kfree | lib/src/mem.c:272-298 | the free in place is `Free`; pointers outside every arena or off its grid are ignored |
| Heap.FreeThenAlloc | lib/src/mem.c:249-258 | a block freed to a drained class is the next one handed out |
| Heap.FreedInOrder | lib/src/mem.c:249-298 | a class hands out freed blocks in the order they were freed, whatever its list holds |
| HeapRuns.RunInv | lib/src/mem.c:206-298 | over every run of allocations, legal frees and stores of whole words by clients into blocks they hold each arena is exactly its live blocks, its free list and its untouched tail |
| HeapRuns.PrivateMemory | lib/src/mem.c:206-298 | a block that is not freed stays its holder's, and over any run each of its aligned words reads as what was last stored there |
| HeapRuns.FreshBlock | lib/src/mem.c:226-271 | a block handed out during a run shares no address with any block held |
| PageTables.PageEntryFields | final/src/vm.c:51-54 | the entry made for a page reads back as a small page with that frame and those permissions |
| PageTables.OpenPermsFields | final/src/vm.c:158-159 | opening permissions changes neither frame nor kind |
| PageTables.PageEntryBits | final/src/vm.c:51-54 | bit 3 is the cacheable flag, bit 2 the bufferable one |
| PageTables.OpenPermsBits | final/src/vm.c:158-159 | opening permissions leaves every bit outside the field as it was |
| Vm.CopyPage | final/src/vm.c:195-198 | a fresh page with the same contents, everything live untouched |
| Vm.ForkRow | final/src/vm.c:184-201 | one second-level table with private copies of all its small pages; uses one table and as many pages as the row has |
| Fork.ForkPageTable | final/src/vm.c:166-211 | the nested loops leave a forked root: `TableForked` over all rows, with exactly the needed blocks taken |
| Fork.TableStepCopy | final/src/vm.c:184-203 | copying one more row keeps the fork relation |
| Teardown.ForkIsolates | final/src/vm.c:166-211 | without device tables the child is an address space of its own made of exactly the blocks the fork allocated |
| Teardown.ForkIsolation | final/src/vm.c:180-181 | the child shares no block with the parent if and only if rows 512 to 515 hold no table |
| Teardown.ForkPage | final/src/vm.c:191-200 | every small page of a copied row has equal bytes in a private frame, readable and writable; other entries are copied as they are |
| Teardown.FreeL1PageTable | final/src/vm.c:82-116 | exactly the blocks of the address space are freed, every other live block keeps its words |
| Teardown.ForkThenFree | final/src/vm.c:82-211 | freeing a forked child gives back exactly what the fork took; the parent's tables and pages are unchanged |
| Spaces.SpaceSurvives | final/src/vm.c:82-211 | an address space survives whatever leaves its blocks alone |
| UserMap.MakeSureUserSpace | final/src/vm.c:118-164 | every page of the range is mapped; all other pages of rows with a table, all root words but those of the new tables (table address with only bit 0 set), memory outside the arenas, and all blocks outside the space stay; the space stays one of pairwise distinct blocks, with no leak |
| UserMap.MappedPage | final/src/vm.c:143-161 | a new page is zero and fresh; an earlier small page keeps frame and bytes; both are readable and writable |
| UserMap.MappedTwice | final/src/vm.c:118-164 | a second call on the same range allocates nothing |
| UserMap.NeedNothing | final/src/vm.c:118-164 | and needs no free block |
| UserMap.CoversRange | final/src/vm.c:120-123 | the pages visited cover the requested bytes if and only if aligning the end up does not wrap 32 bits |
| UserMap.TightRange | final/src/vm.c:120-123 | and then no page more than the bytes take |
| Translation.OutsideRange | final/src/vm.c:118-164 | a page outside the range translates as before, unless its row held a 1 MB section and got a table: exactly then the translation is lost |
| Translation.LastRow | final/src/vm.c:70-79 | the last megabyte translates as before |
| ProcessView.MappingRefines | final/src/vm.c:118-164 | if the tables show a process's bytes, then after the call they show them with the pages of the range added, new ones zero: what the loader assumes of the call |
| ProcessView.ViewWord | final/src/vm.c:118-164 | an aligned word of the process's view is the word at the physical address its page entry gives |
| SpaceRuns.StepGood | final/src/vm.c:82-211 | each fork, mapping, teardown or step of the kernel on blocks of its own keeps the live address spaces in order and pairwise disjoint |
| SpaceRuns.RunGood | final/src/vm.c:82-211 | so does every run of them |
| SpaceRuns.RunConserves | final/src/vm.c:82-211 | over any run of forks, mappings and teardowns the live blocks that belong to no space stay the same: nothing leaks and nobody's block is freed |
| SpaceRuns.AllGivenBack | final/src/vm.c:82-211 | once the last space is gone the live blocks are those of before the first |
| SpaceRuns.RunIsolated | final/src/vm.c:82-211 | a space neither mapped into nor freed keeps every block and every word of them, whatever happens to the others |
| SpaceRuns.RunKeepsMemory | final/src/vm.c:82-211 | over any run of forks, mappings and teardowns no memory outside the arenas and the allocator's table is written |
| UserSpace.MappedTrans | final/src/vm.c:118-164 | mapping one range after another is mapping both |
| Scheduler.Globals.constructor | final/src/sched.c:13-31 | the boot state: one running thread, next number 2, satisfying the invariant |
| ThreadQueues.ReadyQueue.Pop | final/src/sched.c:33-44 | unlinks the first node: the head of the sequence the linked nodes hold, or null |
| ThreadQueues.ReadyQueue.Push | final/src/sched.c:45-61 | the walk to the last node and the store behind it append to that sequence |
| ThreadQueues.SleepQueue.Push | final/src/sched.c:75-89 | so does the sleeping list's |
| ThreadQueues.SleepQueue.CountDown | final/src/sched.c:211 | one record's count goes down in 32-bit arithmetic, the others stay |
| ThreadQueues.SleepQueue.Remove | final/src/sched.c:222-231 | unlinking behind the previous node, or at the head, takes just that entry out of the sequence |
| Scheduler.Globals.DoSched | final/src/sched.c:103-177 | the recursion is `Schedule`: switch, keep running, wait, or panic |
| Scheduler.Globals.SvcSleep | final/src/sched.c:179-192 | sleep is the `Sleep` step |
| Scheduler.Globals.TickTryToWakeUp | final/src/sched.c:203-236 | the walk over the linked list with unlinking behind the previous node is `Tick` |
| Scheduler.Globals.RpiExit | final/src/sched.c:318-325 | exit is the `Exit` step |
| Scheduler.Globals.RpiFork | final/src/sched.c:330-349 | fork is the `Fork` step with a fresh thread |
| Scheduler.Globals.TimerIrq | final/src/int.c:28-46 | a timer interrupt ticks, and schedules only when it interrupted user mode |
| Scheduler.Globals.IdleIrq | final/src/sched.c:152-162 | an interrupt during the wait only ticks; another may follow before the loop looks |
| Scheduler.Globals.IdleLoop | final/src/sched.c:152-171 | when the loop looks it goes on waiting, schedules if something is ready, or panics |
| Scheduler.Globals.SeeIfPidStillExists | final/src/sched.c:238-260 | found exactly when a live thread has the number, in every state the invariant allows |
| Sched.ScheduleInv | final/src/sched.c:103-177 | the scheduler loses no live thread |
| Sched.StepInv | final/src/sched.c:103-349 | every step keeps: a live ready thread is running or queued; the sleeping list is duplicate-free and holds exactly the live threads that are not ready |
| Sched.RunInv | final/src/sched.c:103-349 | so over every run |
| Sched.PanicOnlyAtEnd | final/src/sched.c:158-171 | the panic is reached only when every thread has exited |
| Sched.PidExact | final/src/sched.c:238-260 | the pid check is true if and only if a live thread has that number |
| Sched.TickSplits | final/src/sched.c:203-236 | a tick wakes exactly the sleepers whose count reaches zero and keeps the others with one tick less |
| Sched.TickJoin | final/src/sched.c:203-236 | a tick is an order-preserving filter of the list |
| Sched.SleepsThrough | final/src/sched.c:179-236 | asleep for k ticks, 2^32 for k = 0: still in the list with the right count after fewer, over any run |
| Sched.WokenOnTime | final/src/sched.c:203-236 | and woken by exactly the last of them |
| Sched.BoundedWait | final/src/sched.c:33-61 | a live ready thread at queue index k runs within k + 1 calls of the scheduler, those after a wait included |
| ThreadLives.StepRecord | final/src/sched.c:318-349 | no step changes a thread's number or parent; only an exit marks a record exited, and only the current thread's |
| ThreadLives.ExitMarks | final/src/sched.c:318-325 | an exit marks the current thread and leaves every other record, the sleepers and the next number alone |
| ThreadLives.ExitIsFinal | final/src/sched.c:103-350 | after its exit, over the whole rest of the run, a thread stays marked, never runs, and its number is found if and only if another live thread has it |
| ThreadLives.SleepMarks | final/src/sched.c:179-192 | a sleep appends the current thread with its count, marks it not ready, and leaves every other record alone |
| ThreadLives.SleepLasts | final/src/sched.c:179-236 | a thread that sleeps k ticks does not run before the last of them, over any run |
| ThreadLives.SleepEnds | final/src/sched.c:203-236 | and is ready again, running or queued, right after it |
| ThreadLives.ForkMarks | final/src/sched.c:330-349 | a fork appends one live ready child of the current thread with the next number, and leaves every other record alone |
| ThreadLives.ForkRuns | final/src/sched.c:33-61 | the child runs within as many scheduler calls as threads were queued before it, and one more |
| ThreadLives.NumbersUnique | final/src/sched.c:330-349 | two forked threads have the same number if and only if a multiple of 2^32 forks lies between them |
| SafePath.MakeSafe | final/src/mount.c:203-282 | the three passes on the buffer produce `Safe(path)`, NUL-terminated |
| SafePath.SqueezePass | final/src/mount.c:221-232 | first pass; no byte is read after being overwritten |
| SafePath.NoDotsPass | final/src/mount.c:234-245 | second pass, likewise |
| SafePath.UpPass | final/src/mount.c:247-273 | third pass, likewise, with the last slash kept up to date |
| Paths.SafeResolves | final/src/mount.c:203-282 | on every absolute path the result is resolution with a stack of components, plus one slash exactly when the path ends in one and does not resolve to the root |
| Paths.SafeIdempotent | final/src/mount.c:203-282 | normalising twice is normalising once |
| Paths.ResolveProper | final/src/mount.c:203-282 | no empty component, "." or ".." remains |
| Names.NameRoundTrip | final/src/mount.c:15-80 | the name a listing shows translates back to its entry if and only if the entry has no lower-case letter and no dot the translation would take for the separator |
| Names.ReadsAs | final/src/mount.c:59-80 | an entry reads as NAME or NAME.EXT |
| Names.SplitCanonical | final/src/mount.c:82-107 | splitting a resolved path gives its directory and its last component |
| Names.SplitExact | final/src/mount.c:82-107 | every path but "/" is cut at its last slash, and refused if and only if it has none |
| NameCases.AnyCase | final/src/mount.c:15-57 | every spelling in mixed case of NAME.EXT translates to the padded NAME and EXT |
| NameCases.LongName | final/src/mount.c:28-38 | of a name of more than eight characters the first six count, in upper case, followed by "~1" |
| NameCases.RefusedExactly | final/src/mount.c:21-26 | a name is refused if and only if more than three characters follow its last dot |
| NameCases.CaseBlind | final/src/mount.c:15-57 | names that differ in case only translate alike |
| NameCases.AnyCaseDirectory | final/src/mount.c:109-157 | a resolved path leads to the same directory in any mixture of cases |
| NameCases.AnyCaseRoute | final/src/mount.c:109-157 | and along the same route |
| NameCases.AnyCaseFinds | final/src/mount.c:137-149 | in a directory of distinct names every spelling of an entry's name finds its start cluster |
| PathLookup.DirClusterNumber | final/src/mount.c:109-157 | the recursion over parents, each directory listed through the cache, gives the cluster of `DirCluster` over the volume, 0 for none |
| PathLookup.PathResolves | final/src/mount.c:109-157 | a resolved path leads to a directory if and only if its components name a route there, each the first match in the listing of the one before |
| PathLookup.MatchesExactly | final/src/mount.c:137-149 | a listed entry is matched exactly by its own eleven bytes; the extra tests of lines 140-141 never reject what a listing shows |
| PathLookup.NoDirectoryTest | final/src/mount.c:137-152 | the directory attribute is never looked at |
| PathLookup.ShownNameFinds | final/src/mount.c:59-157 | in a directory of distinct names the name shown for an entry leads back to it if and only if the entry has no lower-case letter and no misleading dot |
| PathLookup.GetEntry | final/src/mount.c:159-198 | the entry `FirstTrimmed` finds in the directory's listing |
| PathLookup.TrimInPlace | final/src/mount.c:184-190 | trailing spaces of the local copy become NULs |
| PathLookup.TrimmedMatches | final/src/mount.c:184-191 | an entry is taken if and only if its trimmed name is a prefix of the target |
| PathLookup.EntryFound | final/src/mount.c:171-195 | the search gives the entry with the target's name if and only if no earlier entry's trimmed name is a prefix of it |
| DirStream.GetDirents | final/src/mount.c:409-452 | one call fills the page `Fill` describes within the buffer, its records laid out without gaps, and moves the position by its bytes, from any position |
| DirStream.FillLaid | final/src/mount.c:433-449 | the bytes of a page are the sum of its records' length fields, each offset field is that sum up to its own record, each length the least multiple of 8 that holds header, name and NUL |
| DirStream.PositionCounts | final/src/mount.c:433-449 | over any calls the position is the sum of the length fields of all records handed out |
| DirStream.StreamInOrder | final/src/mount.c:409-452 | calls with any buffer sizes hand out every entry once and in order, and the position is the sum of the record lengths |
| DirStream.StreamProgress | final/src/mount.c:433-449 | with room for the largest record of this directory n calls hand out at least n entries or all |
| DirStream.ProgressExactly | final/src/mount.c:433-449 | before the end a call hands out something if and only if the next record fits its buffer |
| DirStream.CStringWhole | final/src/mount.c:432-433 | a translated name is shown in full if and only if it has no inner NUL |
| DirStream.StreamEnds | final/src/mount.c:409-452 | after the last entry every call returns 0 |
| DirPages.ReadPage | final/src/mount.c:409-452 | one call on a directory of the volume: the listing read through the cache, paged by `Fill` |
| DirPages.ListedVisible | final/src/mount.c:427-431 | the stream runs over every listed entry, none is passed over |
| DirPages.SlotRecord | final/src/mount.c:430-446 | the record of a slot laid out field by field: its name with a dot before the extension, and type 4 if and only if the directory flag is set, else 8 |
| ElfLoader.Process.LoadElf | final/src/elf.c:5-198 | rejected images change nothing but the reset fields; accepted ones give the whole image with every segment placed, the first stack, the break, and the entry field of the file header the image starts with |
| ElfFormat.HeaderReads | final/src/elf.c:5-43 | from a file header put together field by field the loader reads entry point, offset and number of program headers, and accepts exactly 32-bit little-endian ARM images with some |
| ElfFormat.ProgramReads | final/src/elf.c:46-62 | a program header put together field by field is read back |
| ElfFormat.TableReads | final/src/elf.c:46-62 | in an image of a header, a gap, a table of program headers and a rest the loader finds just those headers |
| ElfLoader.Process.LoadSegments | final/src/elf.c:45-69 | all segments placed: file bytes then zeros, except that at address 0 `memcpy` copies nothing; and the end of the writable ones |
| Elf.LoadedExactly | final/src/elf.c:55-61 | a placed segment reads as its file bytes and zeros if and only if it is not at address 0, or its file bytes are empty or already what the pages held |
| ElfLoader.SegmentLoaded | final/src/elf.c:45-62 | the same of every segment of the image `load_elf` leaves |
| ElfLoader.NullSegment | final/src/elf.c:5-62 | an accepted image of 84 bytes whose one segment is at address 0: a fresh process reads 0 there where the file has 0x7F |
| ElfLoader.StackAligned | final/src/elf.c:96-195 | the stack pointer at entry is a multiple of 8 if and only if the number of argument and environment strings is odd |
| ElfLoader.StackHeight | final/src/elf.c:96-195 | the first stack takes 132 bytes without strings; a string takes its bytes, its NUL and the gap to a multiple of 8, a pointer 4 bytes |
| ElfLoader.Process.BuildStack | final/src/elf.c:96-195 | the words from the stack pointer are argc, the argument pointers in original order, 0, the environment pointers, 0, the auxiliary vector to AT_NULL; the pointers lead to the strings |
| ElfStart.StackReads | final/src/elf.c:96-195 | a program reading its stack finds the argument count, the argument strings in order, 0, the environment strings backwards, 0, the auxiliary vector |
| ElfStart.AuxReads | final/src/elf.c:134-179 | and in that vector, looking for a key from the front, the value the loader means for it, for all thirteen keys |
| ElfLoader.Process.Reverse | final/src/elf.c:115-120 | the pointers reversed in place |
| ElfLoader.Process.PutStrings | final/src/elf.c:103-112 | the strings below each other, each at its pointer |
| ElfLoader.Process.PushWords | final/src/elf.c:134-193 | the word part of the stack and the sixteen random bytes |
| Elf.ImageNext | final/src/elf.c:52-62 | placing one more segment keeps the earlier ones even on shared pages, and bytes outside stay as before or zero |
| Elf.BreakAbove | final/src/elf.c:67-72 | the break lies above every writable segment |
| Elf.BreakTight | final/src/elf.c:67-72 | and at the end of one of them, or at 0 |
| Elf.TightPages | final/src/elf.c:52-56 | the pages mapped for a segment are no more than it takes |
| Elf.TableReadable | final/src/elf.c:82-94 | AT_PHDR leads to the program header table if and only if the first segment that shows it is not at address 0, or the table's bytes are already there |
| ElfLoader.ImageDone | final/src/elf.c:45-79 | the stack page does not disturb the image |
| Crc.Crc32Inc | lib/include/crc32.h:56-64 | the table-driven loop is the bitwise register, for every start value |
| Crc.Crc32 | lib/include/crc32.h:66-69 | the checksum of section 8 of RFC 1952 |
| CrcTable.TableIs | lib/include/crc32.h:11-54 | every table entry is eight bitwise steps |
| Crc.ByteStep | lib/include/crc32.h:62 | one byte by table is eight bits by definition |
| CrcSerial.RegisterFeeds | lib/include/crc32.h:56-64 | the register after a message is the register fed all its bits one at a time, lowest first |
| CrcSerial.CheckValue | lib/include/crc32.h:66-69 | the checksum of the ASCII digits 1 to 9 is 0xCBF43926 |
| Crc.IncrementalIs | lib/include/crc32.h:56-64 | two pieces in turn give the checksum of their concatenation |
| Crc.DetectsByte | lib/include/crc32.h:56-69 | buffers that differ in one byte have different checksums |
| Division.UdivMod | lib/src/pimath.c:3-26 | n = q d + r with r < d for every divisor but 0; all ones and n for 0 |
| Division.NoOverflow | lib/src/pimath.c:12-13 | the shift never overflows |
| Printing.PutDigits | lib/src/cstr.c:16-25 | the digits, last first, never more than 32 of the 33 bytes |
| Printing.SprintUint | lib/src/cstr.c:5-34 | the printed text at the cursor, nothing else written |
| Printing.SprintInt | lib/src/cstr.c:36-45 | likewise with a sign in base ten |
| Printing.PrintedParses | lib/src/cstr.c:5-34 | the text parses back to the number and has no leading zero |
| Printing.PrintedIntParses | lib/src/cstr.c:36-45 | so does signed decimal text, the most negative number included |

## Left out

- Hardware and assembly: card, USB, framebuffer and UART drivers, cache and TLB maintenance, mode switches. The card is a total array of sectors; barriers and cache operations do nothing.
- Terminal, tty, keyboard, `printk`, syscall dispatch, kernel replacement, userland programs.
- `fat32_init` beyond the cache: parsing the MBR and the boot sector. The geometry is a parameter.
- FAT mirrors (the code writes only the first FAT), long file names, the list heads leaked by `fat32_list_fat`.
- Clusters orphaned when a create fails after linking its chain stay in the family as a chain no entry names.
- FatOwners.RunKeepsOwners: creating and removing directories, which the code never does; unlinks and updates are of entries that are neither directories nor long-name parts.
- Sector and cluster buffers on the stack are sequence values; the volume they are read from and written to is the card array behind the cache.
- FatFile.WriteWithOffset: offsets at or past the chain's capacity, where the skip loop walks onto the end mark and nothing is written.
- FatTable.FindFreeClusters: a request for 0 clusters, which the code never makes.
- `klalloc` and `klfreeall`; the byte loop `memset`; `list_add`, which nothing modelled calls.
- Null replies of the allocator inside `fork_page_table` and `make_sure_user_space`, which the code does not check: enough free blocks are required, counted exactly.
- HeapRuns.PrivateMemory: clients store aligned words; stores of single bytes are not calls of these runs.
- `make_initial_L1_table` and the shared page of row 4095, whose entry a fork copies as it is.
- Word stores of `memcpy` and `memset` between page-aligned blocks are modelled word by word; the byte and alignment phases are in `BlockMove`.
- The kernel heap that the scheduler's queue nodes come from; saved contexts, page-table switches and file tables; the parent's return value of fork, which the system call overwrites.
- Sched.BoundedWait: that a ready thread is queued exactly once, which the code does not keep (a woken current thread is pushed again).
- `number_of_childs`, which counts a thread as often as it is queued.
- Names.NameRoundTrip: the two translations are functions of strings; their character buffers and the NUL at the end are not modelled.
- PathLookup.DirClusterNumber: directories whose cluster starts no chain, which the listing would follow into free or reserved clusters, and paths of 256 characters or more, which overrun the local buffers.
- `mount_read`, `mount_write`, `fstatat`, `openat`: thin layers over the file operations modelled here.
- ElfLoader.Process.MakeSure: the loader runs on the process's own view of memory; `ProcessView.MappingRefines` relates that view to the page tables, the single stores of `memcpy` and PUSH through them are not.
- ELF images with overlapping segments or headers outside the file, and arguments that do not fit the stack page.
