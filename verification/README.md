# FatFs and FreeRTOS kernel: a Dafny model

This project models two components of the firmware and proves what their code keeps.

**FatFs R0.16**, the FAT12/16/32 part, in the shipped configuration: sector sizes 512 to 4096,
fast seek on, long names, exFAT, GPT and locks off. The model stacks the layers of `ff.c`, and
each layer refines the one above it:

- `Sectors`, `FatTable`: bytes and sectors, and the packed allocation table as a value.
- `FatVolume`: a mounted volume with its one-sector write-back window, `get_fat` and `put_fat`.
- `FatChain`, `FatAllocator`, `FatAllocatorRun`, `FatFree`: cluster chains, `create_chain`,
  `remove_chain`, runs of both, and `f_getfree`.
- `FatLinkMap`, `FileLayout`, `FatFile`, `FatFileRun`: the link map of fast seek, and an open
  file with its private sector buffer and direct transfers, up to the theorem that every
  sequence of reads, writes, seeks, truncations and syncs is the run of an abstract file: its
  bytes, its position, and the numbers of clusters it holds and could still get decide
  everything, and no change goes unnoted.
- `FatWitness`: small volumes and files on which outdated link maps and an aborted write show.
- `DirCursor`: `dir_sdi` and `dir_next`.
- `FatLayout`, `FatAutoSize`, `FatFormat`, `FatMount`: `f_mkfs` as a printer and `mount_volume`
  as a parser of the volume layout, their round trip, and which volumes get which cluster size.

**FreeRTOS V10.4.3**:

- `QueueProtocol`: sending, receiving, peeking, time-outs and interrupts on one queue as a state
  machine whose steps are the critical sections, with the two lock counters.
- `QueueHistory`: the items of such runs, from what was sent to what was received.
- `QueueRing`: the storage ring of a queue.
- `TaskLists`, `CircularList`: the lists of the kernel as sequences, and on the level of pointers.
- `Scheduler`, `SchedulerRun`: ready, delayed, waiting, pending and termination lists with a
  wrapping tick counter, from the creation of a task to its deletion, and every run of them as
  a run of a machine that has states, priorities and wake times in place of lists.
- `TimeOuts`: `xTaskCheckForTimeOut` and `xTaskDelayUntil`.
- `MutexPriority`: priority inheritance as a state machine.
- `EventGroups`, `EventGroupRun`: event bits, the rendezvous, and runs of calls by any tasks.
- `StreamBuffer`, `StreamRace`: stream and message buffers; one writer and one reader
  interleaved byte by byte.

Where the source updates fields in place the model is a class with the same fields, and ghost
fields hold the abstract value. Unbounded `time` in `Scheduler` and `TimeOuts` is a ghost: the
program has only the tick and the number of wraps.

Conventions. The disk is a sequence of sectors whose reads and writes succeed, as
`FATFS/diskio.c` reports. `csize`, the sector size and block sizes are powers of two, so masks
such as `x & (csize - 1)` are remainders. 32-bit wrap-around is written out where it can occur
(`FatLayout.U32`, the tick type); elsewhere the contracts bound the values. A queue item is one
element of the storage array. Bits of an event group are a set of bit numbers, and the control
bits of an event list item are fields.

Properties that turned out not to hold of the code as it is, with their exact conditions:

- `xQueueGenericReset` empties the queue but wakes a single sender. `QueueProtocol.ResetStrands`
  shows a sender left behind, `QueueProtocol.ResetKeepsIff` says exactly when none is.
- `xTaskCheckForTimeOut` can miss a time-out after two wraps of the tick counter between two
  looks: `TimeOuts.CheckMissesTwoWraps`, and exactly when in `TimeOuts.CheckIsRightIff`.
- `f_mkfs` checks the room for sixteen clusters before it aligns the data area, so with a large
  block size it can make a FAT12 volume without a cluster, which cannot be mounted:
  `FatMount.NoClusterLeft`; `FatMount.FormatAndMount` and `FatMount.ClusterLeftIff` give the
  exact condition.
- `xTaskDelayUntil` goes wrong for a task that is late by a round of the tick counter or more,
  unless the increment has passed in the rest as well: `TimeOuts.DelayUntilMissesRound`, and
  exactly when in `TimeOuts.DelayUntilIsRightIff`.
- A waiter that gives up leaves the holder of one mutex at the priority that its base and the
  other waiters call for if and only if its own wait had raised a priority, or the priority was
  right before: `MutexPriority.TimeOutIsRight`. With two mutexes a priority can stay raised for
  good: `MutexPriority.StaysRaised`. With one mutex at a time, and tasks that run in the order
  of their priorities, it is right whenever no task is about to look at the mutex again:
  `MutexPriority.HolderIsRight`.
- `CREATE_LINKMAP` takes the end of a chain for a link when the chain ends in the last cluster of
  the volume and its entry is the number behind it, and fails then and only then:
  `FatLinkMap.CreateLinkMap`, `FatLinkMap.FalseLinkIff`, and a table in `FatLinkMap.FalseLinkAt`.
  That entry is no end mark of the FAT standard and none that `put_fat` writes
  (`FatLinkMap.ProperEnd`), so chains that end properly never run into it.
- A link map no longer fits the file after the first write to an empty file, and after a
  truncation that frees clusters. `FatFile.File.Write`: it still fits if and only if the file had
  a cluster, or nothing was to be written, or no cluster was free. `FatFile.File.Truncate`: if
  and only if nothing was to be cut, or the position was in the last cluster. Afterwards
  `f_lseek` can fail (`FatWitness.SeekByEmptyMap`) or end up in another file's cluster
  (`FatWitness.StraySeek`), exactly when `FatFile.File.SeekFast` says so; and `f_write` can go on
  to clusters that the FAT does not link to the file (`FatWitness.StrayWrite`), exactly when
  `FatFile.File.Write` says so.
- `f_sync` writes the buffer back only if a change is noted, and `f_write` notes it at its end,
  which an internal error keeps it from reaching: `FatWitness.UnnotedBuffer`. `FatFile.File.Sync`
  writes the buffer back exactly when a change is noted; short of such an error every dirty
  buffer is (`Flagged`).
- `f_getfree` on FAT16 and FAT32 counts from entry 0 on: `FatFree.ReservedCounted`; it is exact
  if and only if the two reserved entries are not zero: `FatFree.GetFree`.

## Model

| member | source | states |
|---|---|---|
| FatTable.PutGetSame | FATFS/ff.c:1254-1303 | the entry written reads back, masked to the width of FAT12, FAT16 or FAT32 |
| FatTable.PutGetOther | FATFS/ff.c:1254-1303 | every other entry is unchanged, FAT12 neighbours that share a byte included |
| FatTable.PutIsUpdate | FATFS/ff.c:1254-1303 | seen as a sequence of entries, put_fat changes exactly one of them |
| FatTable.EntryBits12 | FATFS/ff.c:1194-1200 | three bytes of a FAT12 table are two entries, the even one in the lower twelve bits |
| FatTable.LastEntryBits12 | FATFS/ff.c:1194-1200 | an even FAT12 entry is a byte and the lower half of the next |
| FatTable.EntryBits16 | FATFS/ff.c:1202-1205 | a FAT16 entry is two bytes, the lower one first |
| FatTable.EntryBits32 | FATFS/ff.c:1207-1210 | a FAT32 entry is the lower 28 bits of four bytes |
| FatTable.PutKeepsBits | FATFS/ff.c:1265-1299 | rewriting an entry keeps every bit that is not its own, the neighbour's half byte and the upper four bits of FAT32 among them |
| FatTable.MaskKeeps | FATFS/ff.c:1265-1299 | every cluster number can be stored |
| FatVolume.Volume.SyncWindow | FATFS/ff.c:1057-1075 | a dirty window reaches the disk, and both FATs when it lies in the first; nothing else seen through the window changes |
| FatVolume.Volume.MoveWindow | FATFS/ff.c:1079-1100 | the window moves without changing what is seen through it, and both FATs on the disk stay equal |
| FatVolume.Volume.GetFat | FATFS/ff.c:1176-1244 | the value is the entry of the abstract FAT, entries across two sectors included; 1 outside the table |
| FatVolume.Volume.PutFat | FATFS/ff.c:1254-1303 | the abstract FAT is updated at one entry and its bytes as the packed table says, everything outside the FATs is unchanged, both FATs stay equal |
| FatVolume.Volume.EntryInBytes | FATFS/ff.c:1176-1244 | every entry of the abstract FAT in terms of the bytes of the FAT sectors, seen through the window |
| FatAllocator.ClusterSector | FATFS/ff.c:1159-1167 | the first sector of a cluster, 0 for a number out of range |
| FatAllocator.BaseOfCluster | FATFS/ff.c:1159-1167 | the first sector of cluster c is so many clusters behind the data area's start |
| FatChain.Acyclic | FATFS/ff.c:1469-1501 | a chain that ends never visits a cluster twice |
| FatChain.RemovedChain | FATFS/ff.c:1469-1501 | the removal loop frees exactly the clusters of the chain |
| FatChain.RemovedSuffix | FATFS/ff.c:1462-1501 | with a previous cluster, the suffix is freed and the prefix ends there |
| FatChain.PartitionAppend | FATFS/ff.c:1539-1632 | stretching one of several disjoint chains appends one cluster to it and leaves the others |
| FatChain.PartitionNew | FATFS/ff.c:1539-1632 | starting a chain adds one chain of one cluster |
| FatChain.PartitionCut | FATFS/ff.c:1444-1530 | cutting a chain leaves its prefix and all other chains |
| FatChain.PartitionDrop | FATFS/ff.c:1444-1530 | removing a chain leaves all other chains |
| FatChain.GrewOther | FATFS/ff.c:1539-1632 | a chain that grows by free clusters leaves every other chain of the FAT as it is |
| FatChain.GrewPartition | FATFS/ff.c:1539-1632 | growth of one chain by any number of clusters keeps the FAT a set of disjoint chains |
| FatChain.GrewPartitionNew | FATFS/ff.c:1539-1632 | the same for a file that had no cluster before |
| FatChain.CutOther | FATFS/ff.c:1444-1530 | a chain that is cut leaves every other chain of the FAT as it is |
| FatChain.CutPartition | FATFS/ff.c:1444-1530 | cutting a chain, to nothing even, keeps the FAT a set of disjoint chains |
| FatChain.CutUndoesGrowth | FATFS/ff.c:1444-1530 | cutting is growing undone: the freed clusters are as if never taken, and free and held clusters add up |
| FatAllocator.RemoveChain | FATFS/ff.c:1444-1530 | terminates on any FAT, a cyclic one included; its effect on the FAT; an exact count of free clusters stays exact; nothing outside the FATs changes |
| FatAllocator.CreateChain | FATFS/ff.c:1539-1632 | follows an existing link, else takes exactly one free cluster and links it; 0 only when there is none; an exact count stays exact |
| FatAllocator.FindCluster | FATFS/ff.c:1588-1614 | the circular scan finds a free cluster, and finds none only when there is none |
| FatAllocatorRun.NotCorrupt | FATFS/ff.c:1469-1501 | a FAT made of chains has no entry that get_fat reports as an internal error |
| FatAllocatorRun.Conservation | FATFS/ff.c:1444-1632 | every cluster is either free or in a chain |
| FatAllocatorRun.Perform | FATFS/ff.c:1444-1632 | starting, extending, removing and cutting chains keeps the FAT a set of disjoint chains; a cluster is found if and only if one is free |
| FatAllocatorRun.Run | FATFS/ff.c:1444-1632 | every sequence of allocations and removals takes the chains from step to step as asked; each time a cluster in no chain is taken, and none only when there is none; the FAT holds exactly these chains, the count stays exact, nothing outside the FATs changes |
| FatFree.GetFree | FATFS/ff.c:4939-5023 | a known count is returned, else the scan makes it known; exact if and only if the reserved entries are not zero (always on FAT12) |
| FatFree.ScanEntries | FATFS/ff.c:4998-5016 | the sector-by-sector scan counts the zero entries of the table |
| FatFree.ZerosAreFree | FATFS/ff.c:4998-5016 | the zero entries are the free clusters and the zeros among the two reserved entries |
| FatFree.ReservedCounted | FATFS/ff.c:4998-5016 | a full table whose entry 0 is zero: the scan finds one free cluster |
| FatLinkMap.ClusterFromMap | FATFS/ff.c:1644-1663 | a map of a chain gives the chain's n-th cluster, 0 past its end |
| FatLinkMap.CreateLinkMap | FATFS/ff.c:4582-4606 | the table maps the chain, needs 2 * fragments + 2 entries, is never written beyond the given size; a table too small and a false link are reported exactly, and no properly ended chain is a false link |
| FatLinkMap.FalseLinkIff | FATFS/ff.c:4589-4596 | the end of a chain is taken for a link exactly when the last cluster of the volume ends it with the number behind it |
| FatLinkMap.FalseLinkAt | FATFS/ff.c:4589-4596 | a table and a chain with a false link |
| FatLinkMap.ProperEnd | FATFS/ff.c:4589-4596 | no end mark of the FAT standard is a false link, and put_fat writes such a mark |
| FatFile.File.Read | FATFS/ff.c:3996-4086 | returns the bytes of the abstract file from the pointer on, as many as there are, and moves the pointer, with an outdated link map too |
| FatFile.File.Write | FATFS/ff.c:4097-4208 | overwrites and extends the abstract file at the pointer; writes less only when no cluster is free, the link map ends, or the size limit is reached; takes free clusters, exactly as many as the bytes need; fails only on a FAT with an entry 1; notes the change unless it fails; leaves the sectors of all other clusters. An outdated link map leads it astray exactly when the map and the bytes are longer than the chain: the bytes behind the chain are then in the clusters the map lists, the FAT is as before, and the chain is too short for the size. Exactly when a link map still fits |
| FatFile.File.Flush | FATFS/ff.c:4066-4069 | writing the dirty buffer back does not change the file |
| FatFile.File.Sync | FATFS/ff.c:4220-4280 | a noted change is written back, the directory entry gets the first cluster and the size, and then the bytes of the file are those on the volume; without one nothing is written |
| FatFile.File.ByteOnDisk | FATFS/ff.c:4043-4062 | where each byte of a file is on the disk: cluster, sector and offset |
| FatFile.File.SeekNormal | FATFS/ff.c:4632-4706 | the pointer is where it was asked to be, with the cluster and sector that belong there; past the end the file grows as far as clusters go, and takes no more than it needs |
| FatFile.File.SeekFast | FATFS/ff.c:4607-4628 | through a link map, the same position and the same cursor invariant as the seek along the FAT, clipped to the file; fails exactly when the map is one of an empty file that has a cluster now, and the position is not 0; the cursor is right exactly when the position is 0 or the map begins with the chain, and else in the first cluster of the map |
| FatFile.File.Seek | FATFS/ff.c:4555-4706 | both seeks behind one contract, with exactly the errors that stop further work and exactly when the cursor is right; all data sectors stay as they are |
| FatFile.File.MakeLinkMap | FATFS/ff.c:4582-4606 | when it succeeds, the file's map maps its chain |
| FatFile.File.Truncate | FATFS/ff.c:5036-5075 | the abstract file is cut at the pointer, its chain to exactly the clusters that the bytes left need, the rest is freed, and the change is noted; exactly when a link map still fits |
| FatFile.File.Stretch | FATFS/ff.c:4125-4146 | the chain grows by the cluster that create_chain gave, and the bytes already there stay |
| FatFile.File.DirectRead | FATFS/ff.c:4043-4062 | sectors read past the buffer are the file's bytes, a dirty buffer among them included |
| FatFile.File.DirectWrite | FATFS/ff.c:4158-4179 | sectors written past the buffer become the file's bytes, and the buffer follows |
| FileLayout.ReadRun | FATFS/ff.c:4043-4062 | consecutive sectors of a cluster hold consecutive bytes of the file |
| FileLayout.WriteRun | FATFS/ff.c:4158-4179 | writing them replaces exactly these bytes, whatever the chain's order on the disk |
| FatFileRun.Perform | FATFS/ff.c:3996-5075 | each operation is a step of an abstract file: what is read, how much is written, the new length, position, error and the clusters held and free follow from the state before; other chains and their bytes stay. Only an outdated link map leads astray, and exactly when is told from the state before |
| FatFileRun.Run | FATFS/ff.c:3996-5075 | every sequence of reads, writes, seeks, truncations and syncs none of which goes astray is a run of the abstract file, and leaves any other chain and its bytes as they were; short of an error no change goes unnoted |
| FatFileRun.RunKept | FATFS/ff.c:4206-4280 | in every run a file whose change is not noted is as it was when the directory entry was written |
| FatFileRun.SyncAndReopen | FATFS/ff.c:4220-4280 | after f_sync, opening by the directory entry gives the same bytes |
| FatFileRun.PlainRun | FATFS/ff.c:3996-5075 | with room for the greatest length on the volume, a run is one of a plain byte sequence with a position: every byte is written and every position reached |
| FatFileRun.PlainIff | FATFS/ff.c:3996-5075 | every operation does all it is asked to if and only if there is room for the greatest length on the way |
| FatFileRun.NoneWithoutMap | FATFS/ff.c:3996-5075 | without a link map no operation with 32-bit sizes goes astray |
| FatWitness.SeekByEmptyMap | FATFS/ff.c:4607-4613 | a link map of an empty file, one byte written, and the seek to its end fails |
| FatWitness.StrayWrite | FATFS/ff.c:4131-4134 | a mapped file is cut and written again: the write succeeds, and its last byte is in a free cluster |
| FatWitness.StraySeek | FATFS/ff.c:4607-4613 | a mapped file is cut to nothing and written anew: the seek to its end succeeds, and stands in the cluster it once had |
| FatWitness.AbortedWrite | FATFS/ff.c:4141-4208 | a write that runs into an entry 1 leaves a byte in the buffer and no note of it, and f_sync leaves it there |
| FatWitness.UnnotedBuffer | FATFS/ff.c:4226-4234 | such a file on a volume of two clusters |
| DirCursor.Dir.SetIndex | FATFS/ff.c:1714-1753 | succeeds exactly for the aligned offsets the directory reaches, and puts the cursor on that entry: so many bytes behind the first sector of a static table, or behind so many linked clusters |
| DirCursor.Dir.Advance | FATFS/ff.c:1762-1813 | goes where dir_sdi would go for the next offset, in bytes too, static and chained tables alike; fails exactly when there is no such entry or the end was reported before |
| DirCursor.WhereInTable | FATFS/ff.c:1730-1735 | an entry of a static table is as many bytes behind its first sector as its offset says |
| DirCursor.WhereInChain | FATFS/ff.c:1737-1748 | an entry of a chain is behind as many linked clusters, sectors and bytes as its offset says |
| DirCursor.WhereNext | FATFS/ff.c:1762-1813 | the entry after an entry: in the sector, the next sector, or the next cluster |
| DirCursor.NextStatic | FATFS/ff.c:3602-3603 | a sector-aligned static root directory has a next entry within a sector |
| FatLayout.CandidateUsable | FATFS/ff.c:6350-6417 | a candidate layout that passes the final check has the type its clusters imply, a FAT that holds them, an aligned data area, no wrapped value, and values that fit the boot sector |
| FatLayout.NoWrap | FATFS/ff.c:6392-6393 | the unsigned subtraction behind the final cluster count has not wrapped in an accepted layout |
| FatLayout.PlannedIsNeeded | FATFS/ff.c:6357-6373 | the FAT size planned for n clusters is the one mount asks for |
| FatLayout.ChooseLayout | FATFS/ff.c:6348-6421 | the sizing loop ends with the first candidate that fits, in the order of its retries; what it accepts is usable and respects the given cluster size and types; given both it fails only when they do not fit; the first cluster size, given or automatic, is chosen if it fits |
| FatLayout.ChosenFits | FATFS/ff.c:6348-6421 | whatever is retried, the layout chosen fits, is usable and respects what is given; given the cluster size and one type there is one exactly when they fit |
| FatLayout.SmallFits | FATFS/ff.c:6348-6421 | every volume from 128 sectors to the clusters of a FAT12 volume, with a usual root directory and no alignment, is accepted |
| FatAutoSize.FirstSizeIs | FATFS/ff.c:6352-6365 | the cluster size tried first, as a table of volume sizes |
| FatAutoSize.PlainAccepted | FATFS/ff.c:6348-6421 | with FAT only and no alignment every volume from 128 to 8387199 sectors is accepted, with the size of the table, or twice that exactly where the FAT type would not match the number of clusters |
| FatLayout.AutoUnit | FATFS/ff.c:6352-6365 | the loop over the table finds the automatic cluster size: a power of two up to 64 that doubles with each bound that the volume reaches |
| FatFormat.MakeBoot | FATFS/ff.c:6426-6460 | every field of the boot sector reads back, the start of the volume on the drive and the place of the backup among them |
| FatFormat.MakeInfo | FATFS/ff.c:6462-6473 | the information sector of a FAT32 volume reads back |
| FatFormat.MakeTable | FATFS/ff.c:5999-6035 | partitions follow each other from the first track on, as large as asked and as the drive allows, of the type asked for; the table reads back |
| FatFormat.PartsApart | FATFS/ff.c:6007-6011 | partitions do not overlap and lie on the drive |
| FatFormat.Drive.Fill | FATFS/ff.c:6475-6501 | an area is filled through the working buffer, whatever its size |
| FatFormat.Drive.Format | FATFS/ff.c:6043-6537 | exactly when each error is returned and which layout is made: that of the first candidate that fits; on success a formatted volume with its backup sectors and partition type, and everything behind its root directory untouched |
| FatMount.ReadBack | FATFS/ff.c:3586-3664 | the boot sector of a layout is recognised and read back as that layout exactly when it has a cluster |
| FatMount.FindVolume | FATFS/ff.c:3407-3452 | sector 0 if it is a FAT boot sector, else the first partition that is one |
| FatMount.Mount | FATFS/ff.c:3461-3664 | sector 0 or the first partition that is a FAT volume is analysed, and mounted exactly when the analysis accepts it; free and last cluster come from a valid information sector only |
| FatMount.AnalyseAreas | FATFS/ff.c:3586-3640 | the areas of an accepted volume follow each other as the bytes of its boot sector say, the root directory of FAT32 included |
| FatMount.AnalyseClusters | FATFS/ff.c:3606-3640 | an accepted volume has as many clusters as its sectors hold, the FAT type of that number, and a FAT large enough |
| FatMount.InfoNeedsSignatures | FATFS/ff.c:3644-3664 | free and last cluster are taken from an information sector exactly when its three signatures are there |
| FatMount.ClusterLeftIff | FATFS/ff.c:6392-6393 | a cluster is left exactly when the volume is larger than the aligned system area by a cluster |
| FatMount.SmallBlocks | FATFS/ff.c:6380-6393 | with blocks up to fifteen clusters, the block size 1 among them, a cluster is always left |
| FatMount.NoClusterLeft | FATFS/ff.c:6380-6393 | 128 sectors aligned to 128: accepted, without a cluster |
| FatMount.FreshFat | FATFS/ff.c:6475-6493 | the FAT that f_mkfs writes marks every cluster free, but for the root directory of FAT32 |
| FatMount.FormatAndMount | FATFS/ff.c:3461-3664 | f_mkfs makes the layout that its options call for, small volumes always; what it makes is mounted, exactly when a cluster is left, with the same type, cluster count and base sectors, at a block boundary, as an empty valid volume with its free clusters counted or unknown |
| QueueProtocol.StepKeeps | FreeRTOS/queue.c:771-979 | every critical section of a task or an interrupt keeps the invariant: each item, and each free place, is spoken for while somebody waits |
| QueueProtocol.NoLostWakeUp | FreeRTOS/queue.c:771-1457 | the invariant holds in every state of every run |
| QueueProtocol.QuietQueue | FreeRTOS/queue.c:771-1457 | once the woken tasks have looked, nobody waits for an item that is there or a place that is free |
| QueueProtocol.DrainTxKeeps | FreeRTOS/queue.c:2230-2316 | unlocking wakes a receiver for every item sent while locked, or all of them |
| QueueProtocol.DrainRxKeeps | FreeRTOS/queue.c:2318-2347 | unlocking wakes a sender for every item received while locked, or all of them |
| QueueProtocol.IsrSendKeeps | FreeRTOS/queue.c:983-1144 | an interrupt that finds the queue locked only counts, and loses nothing |
| QueueProtocol.IsrReceiveKeeps | FreeRTOS/queue.c:1831-1922 | an interrupt that finds the queue locked only counts, and loses nothing; that it takes one item is in QueueHistory.StepAccounts |
| QueueProtocol.ResetKeepsIff | FreeRTOS/queue.c:264-316 | a reset keeps the invariant exactly when at most one sender waits or the places are spoken for |
| QueueProtocol.ResetStrands | FreeRTOS/queue.c:264-316 | a run from a fresh queue in which two senders come to wait; a reset makes two places and wakes one of them |
| QueueHistory.StepAccounts | FreeRTOS/queue.c:771-2347 | every critical section keeps: what was sent is what was received and what waits, in this order, the counter is the number that waits, and there is room for it |
| QueueHistory.EveryItem | FreeRTOS/queue.c:771-2347 | in every run of tasks, interrupts and resets no item is lost, doubled or out of order |
| QueueHistory.AttemptTells | FreeRTOS/queue.c:771-1457 | a call is done at once exactly when there is an item, or a place; else it waits or fails |
| QueueHistory.CheckTells | FreeRTOS/queue.c:936-972 | a call blocks exactly when its time is not over and it still has nothing to do |
| QueueHistory.BlockTells | FreeRTOS/queue.c:939-943 | a call that blocks waits in the list for what it wants, and in no other |
| QueueHistory.LookTells | FreeRTOS/queue.c:968-977 | when its time is over a send fails, and a receive or peek looks once more |
| QueueRing.Ring.CopyIn | FreeRTOS/queue.c:2126-2206 | sending to the back appends, to the front prepends, overwriting replaces; the write index follows the read index and the count |
| QueueRing.Ring.CopyOut | FreeRTOS/queue.c:2209-2227 | the next item, and the read index behind it |
| QueueRing.WriteIndex | FreeRTOS/queue.c:2162-2206 | the write place that the queue keeps is the read place plus one plus the number of items, modulo the length |
| QueueRing.Ring.Receive | FreeRTOS/queue.c:1345-1356 | the head leaves |
| QueueRing.Ring.Peek | FreeRTOS/queue.c:1714-1725 | the head stays, and nothing changes |
| QueueRing.Ring.Reset | FreeRTOS/queue.c:264-278 | an empty queue |
| Scheduler.Kernel.MakeReady | FreeRTOS/tasks.c:219-223 | the task is in the ready list of its priority and in no other list, and the top priority bounds the lists |
| Scheduler.Kernel.SwitchLists | FreeRTOS/tasks.c:199-211 | at a wrap the current list is empty; the lists change places and every item value keeps its meaning |
| Scheduler.Kernel.WakeDue | FreeRTOS/tasks.c:2759-2835 | exactly the tasks due now leave the delayed list, and the next unblock time does not exceed the new head |
| Scheduler.Kernel.IncrementTick | FreeRTOS/tasks.c:2725-2884 | one tick of time and the due tasks awake, or one pended tick and nothing else while suspended |
| Scheduler.Kernel.DelayCurrent | FreeRTOS/tasks.c:5263-5370 | the task is due exactly d ticks from now, in the list that is right for a wrapping counter, or waits for good |
| Scheduler.Kernel.RemoveFromEventList | FreeRTOS/tasks.c:3165-3222 | ready at once, or pending while the scheduler is suspended |
| Scheduler.Kernel.ReadyPending | FreeRTOS/tasks.c:2232-2262 | exactly the pending tasks become ready |
| Scheduler.Kernel.ReplayTicks | FreeRTOS/tasks.c:2268-2293 | every pended tick is processed |
| Scheduler.Kernel.ResumeAll | FreeRTOS/tasks.c:2210-2320 | at the last resume no pended tick and no pending task is lost |
| Scheduler.Kernel.SwitchContext | FreeRTOS/tasks.c:3010-3063 | the task chosen is ready, and none that is ready has a higher priority |
| Scheduler.Kernel.SetPriority | FreeRTOS/tasks.c:4082-4110 | a task whose priority changes moves to the ready list of the new one, or stays where it is |
| Scheduler.Kernel.CreateTask | FreeRTOS/tasks.c:1068-1130 | a new task is ready at its priority; before the scheduler runs it becomes the current task unless that one has a higher priority |
| Scheduler.Kernel.Delete | FreeRTOS/tasks.c:1158-1226 | a task that is ready, blocked or pending leaves every list, and the next unblock time is right again |
| Scheduler.Kernel.DeleteSelf | FreeRTOS/tasks.c:1158-1226 | the running task leaves the ready list and waits to be cleaned up |
| Scheduler.Kernel.CleanUp | FreeRTOS/tasks.c:3680-3703 | the first task that waits for it is forgotten |
| Scheduler.Kernel.TickAndWraps | FreeRTOS/tasks.c:199-211 | the tick counter and the number of wraps are the remainder and the quotient of the time |
| SchedulerRun.Listed | FreeRTOS/tasks.c:219-223 | every task is in exactly the list its state and priority say: ready, delayed, waiting or terminating |
| SchedulerRun.Perform | FreeRTOS/tasks.c:1068-3222 | ticks, events, suspending, resuming, delays, switches, priority changes, creation and deletion are steps of a machine without lists, in which due tasks wake and the highest priority runs |
| SchedulerRun.Run | FreeRTOS/tasks.c:1068-3222 | every sequence of operations is a run of this machine |
| SchedulerRun.RunFromStart | FreeRTOS/tasks.c:1068-3222 | after any run from a new kernel every task is in exactly one list, the right one, and the top priority bounds the lists |
| SchedulerRun.SleepsUntilDue | FreeRTOS/tasks.c:2210-2884 | in every run of the machine a delayed task is asleep in every state before its time and awake in the first one after, which is at that time unless pended ticks are replayed |
| SchedulerRun.Sleep | FreeRTOS/tasks.c:2210-2884 | the same of the kernel itself, for every sequence of operations on other tasks, wherever the counter wraps |
| TimeOuts.CheckIsRightIff | FreeRTOS/tasks.c:3302-3361 | the answer is right if and only if the wait is the one without end, or the counter has not wrapped twice and come close behind its old value |
| TimeOuts.CheckKeepsRest | FreeRTOS/tasks.c:3302-3361 | with at most one wrap the remaining wait is the wait less the time passed, and the wait without end stays |
| TimeOuts.CheckMissesTwoWraps | FreeRTOS/tasks.c:3302-3361 | an elapsed wait that is not noticed after two wraps |
| TimeOuts.LooksAddUp | FreeRTOS/tasks.c:3302-3361 | over any number of looks remaining and elapsed time of a finite wait add up to the wait, until the single expiry |
| TimeOuts.LooksForever | FreeRTOS/tasks.c:3321-3329 | the wait without end never expires, over any number of looks |
| TimeOuts.DelayUntilIsRight | FreeRTOS/tasks.c:1249-1309 | a task late by less than a round is delayed exactly when its next wake time lies ahead, and up to that time |
| TimeOuts.DelayUntilIsRightIff | FreeRTOS/tasks.c:1249-1309 | however late the task is: exactly when the decision is right |
| TimeOuts.DelayUntilMissesRound | FreeRTOS/tasks.c:1249-1309 | late by a round of the counter: a wake time long past is taken for one ahead |
| TimeOuts.PeriodicWakes | FreeRTOS/tasks.c:1249-1309 | in every run of a periodic task that is never late by a round, the i-th call is made after the i-th wake time and returns at the next one, or at once when that has passed |
| TimeOuts.NthWake | FreeRTOS/tasks.c:1249-1309 | the n-th wake time is n increments after the start |
| MutexPriority.StepKeeps | FreeRTOS/tasks.c:4056-4325 | take, block, give, time-out and giving up, by woken and late tasks too, keep the number of mutexes held, a priority not below base, and base priority without a mutex |
| MutexPriority.EveryRun | FreeRTOS/tasks.c:4056-4325 | these hold in every state of every run |
| MutexPriority.EveryFlatRun | FreeRTOS/queue.c:1595-1612 | while waiters hold no mutex, the waiting lists stay in order of priority |
| MutexPriority.EnterPlace | FreeRTOS/list.c:115-180 | a waiter comes behind those of the same or a higher priority |
| MutexPriority.TimeOutIsRight | FreeRTOS/tasks.c:4226-4325 | a waiter that gives up leaves a holder of one mutex at the maximum of its base and the highest remaining waiter if and only if its wait had raised a priority, or the priority was right before |
| MutexPriority.StaysRaised | FreeRTOS/queue.c:1640-1660 | a run with two mutexes after which a task that holds one, for which nobody waits, runs above its base |
| MutexPriority.OrderlyStep | FreeRTOS/tasks.c:4056-4325 | with one mutex at a time every step keeps, at every mutex: no waiter above the holder, whose priority is its own or that of a task concerned with the mutex, and a free mutex with waiters has a woken task not below them |
| MutexPriority.EveryOrderlyRun | FreeRTOS/tasks.c:4056-4325 | this holds in every state of every such run |
| MutexPriority.HolderIsRight | FreeRTOS/tasks.c:4056-4325 | in these runs the holder of a mutex that no task is about to look at runs at exactly the maximum of its base and the highest waiter |
| EventGroups.UnmetSays | FreeRTOS/event_groups.c:558-613 | the waiters that stay are exactly those whose condition the value does not meet |
| EventGroups.ToClearSays | FreeRTOS/event_groups.c:590-600 | a bit is cleared exactly when a released waiter claims it, whatever the order of the list |
| EventGroups.HandedSays | FreeRTOS/event_groups.c:602-607 | exactly the released tasks are handed the value |
| EventGroups.SetInBits | FreeRTOS/event_groups.c:558-613 | who stays and which bits go, in terms of bits: all of them are there, or any one |
| EventGroups.EventGroup.Release | FreeRTOS/event_groups.c:558-613 | the walk over the list that removes items as it goes |
| EventGroups.EventGroup.SetBits | FreeRTOS/event_groups.c:532-622 | exactly the waiters with all their bits, or any of them, among the old and new bits are released, each with the whole value, and the bits they claim go; nobody is left with a condition that is met |
| EventGroups.EventGroup.WaitBits | FreeRTOS/event_groups.c:316-404 | blocks exactly when a bit is missing, or all are, and a wait is allowed |
| EventGroups.EventGroup.AfterBlock | FreeRTOS/event_groups.c:422-456 | the value handed over, or after a time-out one more look at the bits |
| EventGroups.EventGroup.ClearBits | FreeRTOS/event_groups.c:472-496 | the bits go, and no condition becomes met |
| EventGroups.EventGroup.Sync | FreeRTOS/event_groups.c:192-255 | the last arrival releases all waiters with all bits and clears them; others block, or get the bits that are left when they may not wait |
| EventGroups.Rendezvous | FreeRTOS/event_groups.c:192-312 | any number of parties in any order: at every arrival before the last all wait and none has passed, all pass then with every bit, and the group is as before |
| EventGroupRun.Perform | FreeRTOS/event_groups.c:192-622 | each call is a step on the bits, the waiting list and the values handed out |
| EventGroupRun.Run | FreeRTOS/event_groups.c:192-622 | every sequence of calls by any tasks is a run of these steps, in no state of which a task waits for bits that are there |
| EventGroupRun.NobodyInVain | FreeRTOS/event_groups.c:685-716 | in every state of every run a waiter for all of its bits misses one, and a waiter for any of them finds none |
| EventGroupRun.WaitsUntilServed | FreeRTOS/event_groups.c:558-613 | in every run a waiter waits until it is handed a value that meets its condition, or its time ends |
| StreamBuffer.Buffer.SpacesAvailable | FreeRTOS/stream_buffer.c:483-504 | bytes and spaces add up to the length less one |
| StreamBuffer.Buffer.BytesInBuffer | FreeRTOS/stream_buffer.c:1238-1256 | the number of unread bytes |
| StreamBuffer.Buffer.WriteBytes | FreeRTOS/stream_buffer.c:1131-1177 | the bytes join the unread ones at their end, across the end of the ring too |
| StreamBuffer.Buffer.ReadBytes | FreeRTOS/stream_buffer.c:1180-1235 | the oldest bytes leave, in order |
| StreamBuffer.Buffer.Send | FreeRTOS/stream_buffer.c:700-749 | stream: as many bytes as fit; message: the whole message or nothing |
| StreamBuffer.Buffer.Receive | FreeRTOS/stream_buffer.c:958-1007 | stream: up to max bytes; message: the first message whole, and nothing changes when it is too long |
| StreamBuffer.EncodedHead | FreeRTOS/stream_buffer.c:967-989 | the first message is recovered from the bytes of a queue of messages |
| StreamBuffer.WriteExtends | FreeRTOS/stream_buffer.c:1141-1172 | writing behind the unread bytes overwrites none of them |
| StreamRace.StepKeeps | FreeRTOS/stream_buffer.c:1131-1256 | every byte copied and every index moved by either side keeps: sent is received and unread, in this order |
| StreamRace.FifoOrder | FreeRTOS/stream_buffer.c:1131-1256 | in every interleaving bytes come out in the order they went in, and unread bytes are never overwritten |
| StreamRace.WriteSends | FreeRTOS/stream_buffer.c:720-728 | a finished write has sent the first bytes it was given, as many as there was space for when it began |
| StreamRace.ReadReceives | FreeRTOS/stream_buffer.c:993-1003 | a finished read has received the oldest bytes, at most as many as asked for and as there were when it began |
| CircularList.List.constructor | FreeRTOS/list.c:48-70 | an empty ring with its end marker |
| CircularList.List.InsertEnd | FreeRTOS/list.c:85-112 | the item lands just before the index, and the ring stays linked both ways |
| CircularList.List.Insert | FreeRTOS/list.c:115-180 | the search ends at the end marker; the item lands behind all leading values not above its own |
| CircularList.List.Remove | FreeRTOS/list.c:183-209 | the item leaves, the index stays on the list, the count is exact |
| CircularList.InsertAscending | FreeRTOS/list.c:115-180 | a sorted list stays sorted |
| CircularList.SameInsert | FreeRTOS/list.c:115-180 | the sequence operation that the scheduler's model uses is this insertion |

## Left out

- Disk errors: reads and writes of the glue layer always succeed, and sync_window ignores the result of the second FAT's write.
- Long file names, exFAT, GPT, 64-bit sector numbers, file locks, re-entrancy, f_expand, f_find, labels and string I/O: switched off in the configuration.
- Path names and f_open: a file starts from its first cluster and size; of its directory entry these two are modelled, as fields, and neither the bytes of the entry, its times, nor the information sector.
- Boot sectors whose sector sums wrap 32 bits: FatMount.Analyse adds without wrap-around.
- Error branches of f_read, f_write, f_lseek and f_truncate that a well-formed chain rules out (a cluster below 2 or beyond the table in the middle of a file) are not part of the code of FatFile.
- Operations on a file that an outdated link map has led astray: what the write or seek itself does is in the contracts of FatFile.File.Write and FatFile.File.Seek, and the file is not valid afterwards.
- A link map of which a cluster has become a directory that the sector window holds: the window is taken not to be over mapped clusters.
- FatFile.File.Seek: with a link map the offset 0xFFFFFFFF is the request for a new map, which is MakeLinkMap.
- FatFileRun.Run: starts from a FAT without an entry 1 and a count of free clusters that is right or unknown, and covers sequences up to the first operation that goes astray; what a damaged FAT or an outdated map does to one call is in the contracts of FatFile.
- FatFile.File.Sync: writes the directory entry as two fields, not into a sector of the directory.
- FatFormat.MakeTable: the cylinder, head and sector fields of a partition entry, which mounting does not read.
- dir_next with stretching, and the clearing of the new cluster.
- The window that mount_volume reads through: it is invalidated first, so the model reads the disk.
- Queue sets, semaphores given by interrupts, task notifications, suspension of tasks, xTaskAbortDelay, tickless idle, xTaskCatchUpTicks, timers, statistics, tracing, memory protection and memory allocation.
- QueueProtocol.NoLostWakeUp: the place a blocking task takes in an event list is arbitrary, and any task that can run may take the next step; a run may reset the queue only where ResetKeepsIff says that nothing is lost.
- Lock counters beyond 127: the source asserts against them, and an interrupt step is enabled only below.
- Scheduler.Kernel.SwitchContext: any task of the highest non-empty list may be chosen; the round robin within the list is a macro of list.h.
- Scheduler.Kernel.SetPriority: the movement between ready lists that inheriting and disinheriting have in common; vTaskPrioritySet is not modelled.
- The port-specific ready bitmap: the model is the generic selection.
- MutexPriority.TimeOutIsRight: waiters hold no mutex, because event item values are rewritten in place without sorting the list again.
- MutexPriority.EveryOrderlyRun: a task takes a mutex only if no task that has come off its waiting list has a higher priority, which the scheduler sees to unless it is suspended; vTaskPrioritySet is not modelled.
- StreamBuffer.Buffer.Send: waiting for space and waking the other side, and a wait for more than the trigger level; the same for Receive.
- Message buffers under interleaving: their calls are atomic here, since a receive may move the tail back.
- xEventGroupSetBitsFromISR and the other calls that are deferred to the timer task.
- croutine.c, which repeats the tick scheme of tasks.c, lwIP, and the board support code.
