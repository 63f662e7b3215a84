# KevinFS in Dafny

KevinFS turns file-system operations into key-value transactions, merges them into compound
transactions (c_txns) and ships these to a key-value SSD through shared memory. This project
models the parts where that is intricate and proves what they keep.

- **Group commit** (`GroupCommit*`, `TxnHandler`, `TxnTypes`). `GroupCommit` is the state
  machine of the handler and the threads around it, one step for each spinlock-held region and
  one for the transfer callback; its lemmas hold for every run of interleaved steps.
  `TxnHandler` is the handler as an object with fields and loops; each region refines a step,
  and other threads act wherever the lock is free, following any finite schedule.
- **Size accounting and wire format** (`OpenTxn`, `Wire`, `IoTransfer`, `TransferSize`,
  `SyncSize`). How a transaction is charged, how a c_txn is written into its 2 MiB slot, when a
  sync c_txn fits, and a decoder written from the record layouts.
- **Applying c_txns** (`DeviceStore`, `RbTransfer`, `HandOver`, `DeviceView`, `HeaderView`). What
  any device sees of a run, sync and orderless c_txns together. Each kind keeps its commit order
  through merging, encoding, decoding and application; both together keep it, and a device that
  publishes at COMMIT shows whole groups, under exact conditions. A device that goes by the ids
  in the headers shows whole groups in every run.
- **CRC-32C** (`Gf2`, `Crc32c`, `Crc32cValue`, `Crc32cHw`). The table-driven, three-way interleaved routine
  against the polynomial division of section 12.1 of RFC 3720.
- **Indexes** (`Keys`, `OrderedTree`, `KvStore`, `CacheModel`, `CacheIndex`, `MetaCache`,
  `Readdir`, `DirListing`). The ordered store with its cursor, the metadata cache with its
  directory trees, and resumable directory reading.
- **Data path** (`PageScan`, `Truncate`, `WritePages`). The merge of records into pages, the
  rounds of multi-gets, and the batching of truncation and write-back.
- **Slots** (`SlotQueue`, `SlotInvariant`, `SlotOrder`, `SlotReturn`, `SlotTable`). The 1024 tags
  and the shared-memory handshake, as a state machine and as the tables the driver updates.

The build options of kevinfs/Makefile:10-18 are taken as set. Machine integers are unbounded
numbers with their wrap-around written out. The clock, scheduling, memory allocation and
buffers' old contents are parameters or arbitrary.

Where a property fails, the code is kept, an input is given, and so is the exact condition:

- A group carries one id unless the id counter passes 0 (`WrapTearsGroup`, `OneIdExactly`).
- The emulated store follows the wire unless it misses a write-back page or a multi-delete
  (`WriteBackIsMissed`, `MultiDeleteIsMissed`, `EmulationMatchesWire`).
- Sync and orderless commits reach the device in commit order unless one is handed over while an
  earlier one of the other kind waits (`SyncOvertakes`, `OvertakenStore`, `MixedOrderExactly`).
- A device that publishes at COMMIT shows whole groups unless a sync c_txn is handed over while a
  group is open (`SyncCommitShowsOpenGroup`, `ShowsWholeExactly`).
- A sync c_txn fits its slot unless too many callers wait (`FsyncsFitExactly`).
- A page scan past the end of the file ends well only if the last page lies a whole number of
  rounds behind the first (`ScanEndsExactly`).
- A device that sweeps the tags serves requests in order unless a later one has the smaller tag
  (`SweptOutOfOrder`, `SweepInOrderExactly`).
- A requester waits for the right completion unless its tag has been given out again
  (`WaitsForAnother`, `WaitsRightExactly`).
- A directory listing is complete unless a child's key carries another inode number
  (`VisibleIsAll`).

## Model

| member | source | states |
|---|---|---|
| `GroupCommitOrder.OrderPreserved` | kevinfs/lightfs_txn_hdlr.c:1305-1370 | In every run, the members of all handed-over orderless c_txns, then of the running one, then the queue, are exactly the non-empty non-sync commits in commit order |
| `GroupCommitOrder.PipelineStep` | kevinfs/lightfs_txn_hdlr.c:863-898 | No step but a commit changes that concatenation, and a commit appends at its end |
| `GroupCommitOrder.SyncOrderPreserved` | kevinfs/lightfs_txn_hdlr.c:1270-1303 | Every sync commit is in exactly one place (handed over, in the sync c_txn, or queued), in commit order |
| `GroupCommitOrder.WaitersCompletedOnce` | kevinfs/lightfs_txn_hdlr.c:965-988 | The waiters completed so far are a prefix of the sync commits, each once, all of them members of c_txns already handed over; only the c_txn in flight is outstanding |
| `GroupCommitOrder.SyncingCounts` | kevinfs/lightfs_txn_hdlr.c:775-791 | `syncing_cnt` is the number of sync commits whose waiter still sleeps, modulo 2^16 |
| `GroupCommitOrder.NothingJoinsWhileTransfering` | kevinfs/lightfs_txn_hdlr.c:1280-1303 | Once the sync c_txn is TRANSFERING, no step changes it until its callback retires it |
| `GroupCommitOrder.SyncPartCollects` | kevinfs/lightfs_txn_hdlr.c:1270-1303 | The sync part of a pass ends only with the sync queue collected or a sync c_txn still in flight |
| `GroupCommitOrder.SyncOnItsWay` | kevinfs/lightfs_txn_hdlr.c:1298-1303 | In every run, outside that part an existing sync c_txn is TRANSFERING, so none is left behind |
| `GroupCommitOrder.PackedReachable` | kevinfs/lightfs_txn_hdlr.c:1322-1331 | Every c_txn ever handed over has the sums of its members' sizes and record counts recorded, and the size sum is within the limit if each member is |
| `GroupCommitMerge.MergesGreedily` | kevinfs/lightfs_txn_hdlr.c:1322-1331 | In every run the handler merges greedily: each c_txn let in only transactions there was room for, one handed over with the queue not empty has no room for the transaction that follows its last member, and any other closed its group |
| `GroupCommitMerge.FullIsFull` | kevinfs/lightfs_txn_hdlr.c:1322-1331 | So such a c_txn and the first transaction of the next are together above 1569760 bytes, whenever they are at most 2 GiB above it |
| `GroupCommitMerge.NoRoomExactly` | kevinfs/lightfs_txn_hdlr.h:84-87 | Up to there the signed 32-bit test finds no room exactly when the sum of the members' sizes passes the limit |
| `GroupCommitMerge.PlanKept` | kevinfs/lightfs_txn_hdlr.c:1305-1370 | Every step of the handler keeps what is handed over, followed by the greedy packing of the running c_txn and the queue |
| `GroupCommitMerge.OneCTxnIsEnough` | kevinfs/lightfs_txn_hdlr.c:1322-1331 | The greedy packing of a queue within the limit is one c_txn with the whole queue |
| `GroupCommitCounters.Reachable` | kevinfs/lightfs_txn_hdlr.c:1231-1377 | The invariant of counters and control holds in every run: `txn_cnt` is the two queue lengths, `orderless_c_txn_cnt` is the open group plus an untransferred FLUSH, `ordered_c_txn_cnt` is one exactly while a sync c_txn exists |
| `GroupCommitCounters.InvNext` | kevinfs/lightfs_txn_hdlr.c:816-836 | Every step of every thread keeps that invariant |
| `GroupCommitCounters.LimitNeverFires` | kevinfs/lightfs_txn_hdlr.c:1317-1320 | Under it the orderless count is at most 16 and the committing limit is never exceeded |
| `GroupCommitGroups.GroupShape` | kevinfs/lightfs_txn_hdlr.c:1333-1366 | In every run the hand-overs are consecutive closed groups of 1 to 16 c_txns and one open group of less than 16; in a closed group exactly the last carries FLUSH, exactly that one is sent with the COMMIT record, its committing count is the size of the group, and the group is full or the queue had run dry |
| `GroupCommitGroups.ClosesExactly` | kevinfs/lightfs_txn_hdlr.c:1344-1366 | In every run a handler step completes the group if and only if it adds the sixteenth c_txn or finds the queue empty |
| `GroupCommitGroups.ClosingReachable` | kevinfs/lightfs_txn_hdlr.c:1344-1366 | In every run each closed group has 16 c_txns, or at some earlier point the handler found the queue empty with exactly that group open |
| `GroupCommitGroups.OneIdExactly` | kevinfs/lightfs_txn_hdlr.c:1336-1340 | A group carries one id if and only if its first transaction's id is not 0 or all its c_txns start with id 0 |
| `GroupCommitIds.GroupIdsIncrease` | kevinfs/lightfs_txn_hdlr.c:1336-1349 | Without id wrap, each group, the open one too, carries its first transaction's id, and these ids strictly increase |
| `GroupCommitIds.WrapTearsGroup` | kevinfs/lightfs_txn_hdlr.c:1336-1340 | A run of two truncation batches in which the id counter wraps to 0 and one closed group carries two ids |
| `TransferSize.TornRunIsProper` | kevinfs/lightfs_txn_hdlr.c:1336-1340 | Every commit of that run is a transaction the inserts can build, within the merge limit |
| `GroupCommitIds.IdsReachable` | kevinfs/lightfs_txn_hdlr.c:241-250 | Without wrap, ids handed out ascend and follow commit order through the pipeline |
| `GroupCommitIds.SentNonEmpty` | kevinfs/lightfs_txn_hdlr.c:1341-1343 | No empty c_txn is ever handed over |
| `TxnHandler.Handler.constructor` | kevinfs/lightfs_txn_hdlr.h:15-47 | The handler starts in the initial state of the state machine with an empty history |
| `TxnHandler.Handler.TakeReadId` | kevinfs/lightfs_txn_hdlr.c:241-250 | A reader takes the next id and changes nothing else |
| `TxnHandler.Handler.CommitTxn` | kevinfs/lightfs_txn_hdlr.c:757-804 | Queues a non-empty transaction on the sync or the orderless list with counters and id, drops an empty one, exactly as the commit step says |
| `TxnHandler.Handler.SendSync` | kevinfs/lightfs_txn_hdlr.c:998-1007 | The queued transfer work hands the sync c_txn to the device |
| `TxnHandler.Handler.CompleteSync` | kevinfs/lightfs_txn_hdlr.c:974-988 | Every member's waiter is completed, counters go down, the sync c_txn is retired |
| `TxnHandler.Handler.WakeMembers` | kevinfs/lightfs_txn_hdlr.c:975-980 | Completes every member in list order and counts them in 16 bits |
| `TxnHandler.Handler.StopTest` | kevinfs/lightfs_txn_hdlr.c:1239-1248 | Stops only when asked and all queues and the count are empty |
| `TxnHandler.Handler.LookAtSync` | kevinfs/lightfs_txn_hdlr.c:1270-1303 | The locked region at process_sync, with the label it jumps to |
| `TxnHandler.Handler.CreateSync` | kevinfs/lightfs_txn_hdlr.c:1286-1288 | The sync c_txn is created and counted |
| `TxnHandler.Handler.FillSync` | kevinfs/lightfs_txn_hdlr.c:1289-1293 | It takes the head of the sync queue as first member and its id |
| `TxnHandler.Handler.SyncRound` | kevinfs/lightfs_txn_hdlr.c:1270-1303 | One turn of the process_sync loop takes one transaction off the sync queue or ends with it collected or a sync c_txn in flight |
| `TxnHandler.Handler.LookAtQueue` | kevinfs/lightfs_txn_hdlr.c:1305-1331 | The locked region at skip_sync and transfer_now, with the label it jumps to |
| `TxnHandler.Handler.CreateOrderless` | kevinfs/lightfs_txn_hdlr.c:1333-1335 | An orderless c_txn is created and counted |
| `TxnHandler.Handler.FillOrderless` | kevinfs/lightfs_txn_hdlr.c:1336-1350 | It joins the group, takes the head of the queue and closes the group if it is the sixteenth |
| `TxnHandler.Handler.FirstMember` | kevinfs/lightfs_txn_hdlr.c:1336-1350 | A new c_txn holds just its first member and carries the group's id or gives it one; it carries FLUSH and the group's count exactly if it is the sixteenth, and exactly then the group's id and count start over |
| `TxnHandler.Handler.SendRunning` | kevinfs/lightfs_txn_hdlr.c:998-1007 | The running c_txn is handed to the device |
| `TxnHandler.Handler.RetireRunning` | kevinfs/lightfs_txn_hdlr.c:965-972 | Its callback takes a closed group off the orderless count |
| `TxnHandler.Handler.SyncPhase` | kevinfs/lightfs_txn_hdlr.c:1270-1303 | The process_sync loop ends, however the other threads commit meanwhile within a finite schedule; the sync queue is then collected unless an earlier sync c_txn is in flight, a collected one is on its way, and the orderless pipeline is as it was |
| `TxnHandler.Handler.QueueRound` | kevinfs/lightfs_txn_hdlr.c:1305-1352 | One turn of the skip_sync loop, with the unlocked work it leads to, shrinks what is left to do and keeps the pipeline |
| `TxnHandler.Handler.QueuePhase` | kevinfs/lightfs_txn_hdlr.c:1305-1370 | The skip_sync loop and transfer_now end with everything queued before them handed over, no running c_txn and the last group closed; only later arrivals can be left in the queue |
| `TxnHandler.Handler.Pass` | kevinfs/lightfs_txn_hdlr.c:1238-1375 | One pass of the handler loop terminates, even for a transaction above the byte limit; everything orderless committed before it has been handed over and the last group is closed; with no arrivals meanwhile the new c_txns are exactly the greedy packing of the queue, one c_txn if the queue is within the limit; it stops exactly when asked to with both queues empty |
| `TxnHandler.Handler.WaitForTxn` | kevinfs/lightfs_txn_hdlr.c:1372-1375 | After the wait the loop begins again with nothing lost |
| `TxnHandler.Handler.Serve` | kevinfs/lightfs_txn_hdlr.c:1238-1377 | The whole loop, for any answers to the stop question: when it stops, the hand-overs are exactly the orderless commits of the run in commit order and in closed groups, and every sync commit is handed over or on its way; with nothing more to come and no sync c_txn in flight it stops the second time it is asked |
| `TxnHandler.StopEffect` | kevinfs/lightfs_txn_hdlr.c:1239-1248 | The stop test, which also looks at the counter, succeeds exactly with both queues empty |
| `TxnHandler.HandlerEffect` | kevinfs/lightfs_txn_hdlr.c:1270-1303 | What each locked region of the sync part does to both queues, from the invariant |
| `TxnHandler.QueueEffect` | kevinfs/lightfs_txn_hdlr.c:1305-1370 | What each region of the orderless part does to the queue and the pipeline, from the invariant |
| `TxnTypes.DiffIsExact` | kevinfs/lightfs_txn_hdlr.h:84-87 | For all 32-bit sizes, the signed difference is negative exactly when the sizes together pass the limit, if and only if their sum is in the stated ranges; up to 2 GiB above the limit it is exact |
| `TxnTypes.InsertKeepsPacked` | kevinfs/lightfs_txn_hdlr.c:863-898 | Merging into an empty c_txn, or when the difference is not negative, keeps recorded size and limit right |
| `OpenTxn.OpenTransaction.constructor` | kevinfs/lightfs_txn_hdlr.c:58-66 | A transaction starts empty, charged for its two counters |
| `OpenTxn.OpenTransaction.Insert` | kevinfs/lightfs_txn_hdlr.c:668-755 | Appends exactly the record the arguments describe and keeps the charge equal to the records' |
| `OpenTxn.BuiltIsSendable` | kevinfs/lightfs_txn_hdlr.c:684-738 | Inserts with a value, and deletes of 1 to 65535 keys, give records the encoder can send, charged for at least a page |
| `OpenTxn.BuiltKeepsValue` | kevinfs/lightfs_txn_hdlr.c:699-707 | The caller's bytes stand at the caller's offset with their length; an empty value clears the page from there on |
| `OpenTxn.BuiltDeletes` | kevinfs/lightfs_txn_hdlr.c:728-738 | A delete keeps type, key and, in 16 bits, its count, holds no bytes, and is charged a page for each key |
| `TransferSize.ExtentsWithinCharge` | kevinfs/lightfs_txn_hdlr.h:65-72 | What records take in the slot is at most what they were charged |
| `TransferSize.FitsSlot` | kevinfs/lightfs_io.c:260-325 | A packed c_txn of proper transactions encodes to at most its size, which is at most 1569760, and its records fit the 16-bit count |
| `TransferSize.EveryTransferFits` | kevinfs/lightfs_io.c:260-325 | The same for every c_txn handed over in every run whose commits are proper |
| `TransferSize.FreeDeletesWrapTheCount` | kevinfs/lightfs_io.c:318-325 | The page charged per record is needed for the count: a flushed c_txn of 65535 deletes of zero keys is within the merge limit and has a slot, and the device decodes no record from it; the callers always name at least one key |
| `TransferSize.PipelineIsProper` | kevinfs/lightfs_txn_hdlr.c:757-804 | Every transaction in the pipeline of such a run is one of those commits |
| `SyncSize.FitsExactly` | kevinfs/lightfs_io.c:260-325 | A sync c_txn fits its slot if and only if seven bytes and what its members take are at most 2 MiB |
| `SyncSize.SyncFits` | kevinfs/lightfs_txn_hdlr.c:1280-1285 | In every run it fits if no sync commit takes more than w bytes and the blocked callers times w and seven bytes are at most 2 MiB |
| `SyncSize.SyncGathersAll` | kevinfs/lightfs_txn_hdlr.c:1270-1303 | For every number of callers there is a run that hands their transactions over in one c_txn |
| `SyncSize.FsyncsFitExactly` | kevinfs/lightfs_super.c:1464-1471 | The c_txn of n threads in fsync fits if and only if 7 + n (4103 + key length) is at most 2 MiB, so for 16-byte keys up to 509 threads |
| `Wire.RecordRoundTrip` | kevinfs/lightfs_io.h:86-138 | One record decodes to the type, key, offset, length and bytes it was built with, a write-back page as a plain set, whatever fills its stride and follows it |
| `Wire.TypeByteIsPosition` | kevinfs/db.h:115-139 | The type byte of a record is the position of its type in the enumeration |
| `Wire.RecordsRoundTrip` | kevinfs/lightfs_io.c:262-317 | A sequence of records decodes to their meanings in order, then what follows |
| `Wire.TransferRoundTrip` | kevinfs/lightfs_io.c:260-325 | Any slot the encoder writes decodes to the c_txn's id, count and records with the COMMIT mark, if and only if the mark is not its 65536th record; then it decodes to nothing |
| `Wire.SlotExists` | kevinfs/lightfs_io.c:260-325 | Every c_txn of less than 2^16 well-formed records has a slot |
| `IoTransfer.SetBytes` | kevinfs/lightfs_io.h:17-83 | Copies bytes into the slot at an index and nothing else |
| `IoTransfer.SetRecord` | kevinfs/lightfs_io.h:86-138 | Writes one record by the case its type selects and returns the advanced index |
| `IoTransfer.SetTxn` | kevinfs/lightfs_io.c:262-317 | Appends every record of one transaction, and stops exactly if the 16-bit count comes round to 0 |
| `IoTransfer.Transfer` | kevinfs/lightfs_io.c:260-325 | Stops exactly at 2^16 or more records, as the BUG_ON does; otherwise writes header, records and COMMIT mark so that the slot up to the returned length is an encoding of the c_txn |
| `IoTransfer.SetCount` | kevinfs/lightfs_io.h:23-27 | Puts the low 16 bits of the count into the header gap |
| `IoTransfer.SlotDecodes` | kevinfs/lightfs_io.c:260-325 | What a decoder reads from the written slot is the c_txn |
| `DeviceStore.SlotsApplyInOrder` | kevinfs/lightfs_io.c:260-325 | Decoding and applying a log of slots is applying the records of its c_txns and their marks in order, with the ids of their headers, for every device |
| `DeviceStore.LogIsStream` | kevinfs/lightfs_io.c:318-324 | What any log of c_txns sends, sync ones among them or not, is its transactions' records with a mark after each marked c_txn |
| `DeviceStore.MarksEndGroups` | kevinfs/lightfs_io.c:318-324 | At every COMMIT of such a stream, what came before it are all transactions up to the end of one of the marked c_txns |
| `DeviceStore.IdsInRangeReachable` | kevinfs/lightfs_txn_hdlr.c:241-250 | Ids, of sync and orderless c_txns, fit the 32-bit header field in every run |
| `RbTransfer.ApplyRecord` | kevinfs/lightfs_io.c:51-71 | One record changes the ordered store as the switch over its type says |
| `RbTransfer.Transfer` | kevinfs/lightfs_io.c:41-76 | A c_txn changes the store as its records in order |
| `RbTransfer.StoreFollowsCommitOrder` | kevinfs/lightfs_io.c:41-76 | In every run the store after the orderless transfers equals the store after the same transactions one by one in commit order, for put, delete and partial update |
| `RbTransfer.EmulationMatchesWire` | kevinfs/lightfs_io.c:51-71 | The emulation and a device reading the wire agree on a record if and only if it is neither a write-back page that is not in the store yet nor a multi-delete that names a key of the store |
| `RbTransfer.WriteBackIsMissed` | kevinfs/lightfs_io.c:69-70 | The emulation drops every write-back page of a key that is not stored |
| `RbTransfer.MultiDeleteIsMissed` | kevinfs/lightfs_io.c:66-68 | The emulation drops every multi-delete whose first block is stored |
| `RbTransfer.EmulationFollowsWire` | kevinfs/lightfs_io.c:41-76 | Over any log, as long as nothing is missed, the emulated store is the device's |
| `HandOver.LanesCommitted` | kevinfs/lightfs_txn_hdlr.c:757-804 | The commits of both kinds together, split by kind, are the two pipelines, in every run |
| `HandOver.LanesHanded` | kevinfs/lightfs_txn_hdlr.c:998-1007 | All hand-overs together, split by kind, are the two logs of hand-overs, in every run |
| `HandOver.StepInOrder` | kevinfs/lightfs_txn_hdlr.c:998-1012 | A hand-over keeps the commit order of both kinds together exactly if nothing of the other kind committed before its last member still waits |
| `HandOver.MixedOrderExactly` | kevinfs/lightfs_txn_hdlr.c:1270-1370 | Without id wrap, a run has handed the commits of both kinds over in commit order if and only if every hand-over was like that |
| `HandOver.StoreFollowsMixedOrder` | kevinfs/lightfs_io.c:41-76 | Then the store after all transfers, sync and orderless, equals the store after the same commits one by one in commit order |
| `HandOver.SyncOvertakes` | kevinfs/lightfs_txn_hdlr.c:1298-1303 | For every non-empty orderless commit and every non-empty sync one after it there is a run that hands the sync one over first |
| `HandOver.OvertakenStore` | kevinfs/lightfs_txn_hdlr.c:1298-1303 | So metadata set by an orderless commit and set again by a later fsync ends as the earlier value |
| `DeviceView.HandedSplits` | kevinfs/lightfs_txn_hdlr.c:998-1012 | In every run the hand-overs, split by kind, are the orderless log and the sync log |
| `DeviceView.HandedDecodes` | kevinfs/lightfs_io.c:260-325 | Every slot of a run of proper commits decodes to its c_txn, for the sync ones if their records can be sent and the mark is not the 65536th |
| `DeviceView.DeviceFollowsCommitOrder` | kevinfs/lightfs_txn_hdlr.c:1270-1370 | For every device and every run: the slots of all hand-overs, sync and orderless, decoded and applied as they come, are the transactions handed over with a COMMIT after each marked c_txn; of these the orderless ones are the first orderless commits in commit order, marked at the ends of the closed groups, and the sync ones the first sync commits, each c_txn marked |
| `DeviceView.PublishingShows` | kevinfs/lightfs_io.c:318-324 | A device that publishes at COMMIT shows exactly the transactions up to the last marked c_txn, for every log |
| `DeviceView.PublishedIsWholeGroups` | kevinfs/lightfs_io.c:318-324 | In every run what it shows is a prefix of the hand-overs that holds every sync c_txn and every closed group, and it holds nothing else exactly when it shows whole groups only |
| `DeviceView.ShowsWholeExactly` | kevinfs/lightfs_txn_hdlr.c:1298-1303 | It shows whole groups only, at every point of the run, if and only if no sync c_txn is ever handed over while a group is open |
| `DeviceView.SyncCommitShowsOpenGroup` | kevinfs/lightfs_io.c:318-324 | For every sync transaction there is a run in which its COMMIT shows a c_txn of a group that is still open |
| `HeaderView.ByHeaderShows` | kevinfs/lightfs_io.c:260-261 | A device that publishes under the id in each header shows, for every log whose ids keep groups and sync c_txns apart, exactly the units the log completes, and the open group waits |
| `HeaderView.IdsKeepApart` | kevinfs/lightfs_txn_hdlr.c:1289-1293 | Without id wrap the ids of every run keep them apart: each c_txn carries its group's id, and a sync c_txn that of no open group |
| `HeaderView.HeaderDeviceShowsWhole` | kevinfs/lightfs_io.c:260-261 | So in every run without id wrap such a device shows exactly the closed groups and the sync c_txns, each whole |
| `HeaderView.UnitsAre` | kevinfs/lightfs_txn_hdlr.c:998-1012 | The units a log completes are its closed groups and its sync c_txns, each kind in its own order |
| `HeaderView.SyncIdsReachable` | kevinfs/lightfs_txn_hdlr.c:1289-1293 | In every run each sync c_txn carries the id of its first member |
| `Crc32c.RegisterComputesReference` | benchmark/cheeze/crc32c.c:49-50 | The reflected register form computes the CRC-32C of section 12.1 of RFC 3720, for every message and start value |
| `Crc32cValue.NotFlipsEveryBit` | benchmark/cheeze/crc32c.c:156-158 | The complement before and after flips every bit |
| `Crc32cValue.ZeroByteCrc` | benchmark/cheeze/crc32c.c:156-238 | The reference gives 0x527d5351, the published CRC-32C of one zero byte |
| `Crc32c.BitAgrees` | benchmark/cheeze/crc32c.c:49-50 | One bit of polynomial division is one register step under reflection |
| `Crc32c.UpdateAgrees` | benchmark/cheeze/crc32c.c:156-238 | The same for whole messages |
| `Crc32c.UpdateConcat` | benchmark/cheeze/crc32c.c:164-234 | A message can be fed in parts |
| `Crc32c.UpdateSplits` | benchmark/cheeze/crc32c.c:188-189 | The register before a block contributes as if the block were zeros, which is what joining three streams needs |
| `Crc32cHw.MatrixTimes` | benchmark/cheeze/crc32c.c:58-67 | The loop computes the matrix-vector product over GF(2) |
| `Crc32cHw.MatrixSquare` | benchmark/cheeze/crc32c.c:71-74 | Fills the square matrix column by column |
| `Crc32cHw.SquareOperator` | benchmark/cheeze/crc32c.c:71-74 | A matrix for k zero bits squares to one for 2k |
| `Crc32cHw.OneZeroBit` | benchmark/cheeze/crc32c.c:84-90 | The first matrix stands for one zero bit |
| `Crc32cHw.ZerosOp` | benchmark/cheeze/crc32c.c:81-113 | For every length the result stands for 8 times the largest power of two in it zero bits, length 0 acting as 1 |
| `Crc32cHw.HighPowIs` | benchmark/cheeze/crc32c.c:81-113 | That power is the largest one not above the length |
| `Crc32cHw.ZerosTables` | benchmark/cheeze/crc32c.c:117-127 | The four byte tables hold the operator applied to every byte in every place |
| `Crc32cHw.Shift` | benchmark/cheeze/crc32c.c:130-133 | Four lookups apply the whole operator to any 32-bit word |
| `Crc32cHw.FourBytes` | benchmark/cheeze/crc32c.c:130-133 | A word is the sum of its four bytes in place |
| `Crc32cHw.Crc32cUnit.constructor` | benchmark/cheeze/crc32c.c:150-153 | The two shift tables stand for 8192 and 256 zero bytes |
| `Crc32cHw.Crc32cUnit.ThreeStreams` | benchmark/cheeze/crc32c.c:176-212 | A block run as three interleaved streams and joined by two shifts gives the register of the plain run |
| `Crc32cHw.Crc32cUnit.Crc` | benchmark/cheeze/crc32c.c:156-238 | For every buffer, length, start address and initial crc the fast routine returns the reference CRC-32C |
| `Gf2.SquareDoubles` | benchmark/cheeze/crc32c.c:71-74 | Squaring composes the linear map with itself |
| `Gf2.UnitsDetermine` | benchmark/cheeze/crc32c.c:58-67 | A matrix is determined by its action on unit words |
| `Keys.KeyCmpTotal` | kevinfs/rbtreekv.c:96-115 | The comparison is zero exactly on equal keys and antisymmetric |
| `Keys.KeyCmpHead` | kevinfs/rbtreekv.c:96-115 | It decides at the first byte that differs, and a key sorts before its extensions |
| `Keys.MetaKeyIno` | kevinfs/lightfs_fs.h:147-170 | The inode number of a metadata key reads back, whatever its path |
| `Keys.KeyCmpTransitive` | kevinfs/rbtreekv.c:96-115 | It is transitive |
| `Keys.DataKeyOrder` | kevinfs/lightfs_fs.h:147-187 | On data keys it is the numeric order of inode and block |
| `Keys.DataKeyFields` | kevinfs/lightfs_fs.h:157-187 | The big-endian fields read back |
| `OrderedTree.Find` | kevinfs/rbtreekv.c:132-153 | Finds the key or the gap where it belongs |
| `OrderedTree.FindGe` | kevinfs/rbtreekv.c:155-189 | Returns the first entry not below the probe, or none |
| `OrderedTree.WalkBack` | kevinfs/rbtreekv.c:166-180 | The predecessor walk ends at the lower bound |
| `OrderedTree.Insert` | kevinfs/rbtreekv.c:249-270 | Refuses a present key, otherwise adds one entry at its place in the order |
| `OrderedTree.Erase` | kevinfs/rbtreekv.c:216-241 | Removes the entry at a place and keeps the order of the rest |
| `KvStore.Db.constructor` | kevinfs/rbtreekv.c:568-581 | An empty store |
| `KvStore.Db.Get` | kevinfs/rbtreekv.c:191-214 | Not found exactly for absent keys, otherwise size and leading bytes |
| `KvStore.Db.Put` | kevinfs/rbtreekv.c:337-370 | The map gains or replaces one binding |
| `KvStore.Db.InsertNode` | kevinfs/rbtreekv.c:249-270 | A new key is bound, all others stay |
| `KvStore.Db.Del` | kevinfs/rbtreekv.c:216-241 | The map loses the key; not found exactly if it was absent |
| `KvStore.Db.Update` | kevinfs/rbtreekv.c:272-311 | The bytes named are patched into the value, or into a zero block if there is none |
| `KvStore.PatchedBytes` | kevinfs/rbtreekv.c:284-304 | Byte by byte, a patch takes the named extent from the page and keeps the rest, or zeros |
| `KvStore.Cursor.constructor` | kevinfs/rbtreekv.c:530-551 | A cursor stands nowhere |
| `KvStore.Cursor.SetRange` | kevinfs/rbtreekv.c:482-495 | Stands at the first key not below the probe, or reports none |
| `KvStore.Cursor.Next` | kevinfs/rbtreekv.c:496-522 | Moves one entry on, or ends at the last entry or the right bound |
| `KvStore.ScanFrom` | kevinfs/rbtreekv.c:475-528 | SET_RANGE and repeated NEXT yield every entry not below the probe once, in order |
| `KvStore.InsertedOrder` | kevinfs/rbtreekv.c:249-270 | Inserting a new key where it belongs keeps the order and adds one binding |
| `KvStore.RemovedOrder` | kevinfs/rbtreekv.c:216-241 | Removing an entry keeps the order and drops one binding |
| `KvStore.ReplacedOrder` | kevinfs/rbtreekv.c:347-356 | Replacing a value keeps the order and rebinds one key |
| `CacheModel.HoldsLatest` | kevinfs/lightfs_cache.c:271-423 | After any calls a key is cached exactly if its last put was not deleted since, with that put's value, with the parent its first put filed it under, a directory exactly if that put made it one, and marked exactly if the last call naming it was a weak delete |
| `CacheModel.ParentsAreCached` | kevinfs/lightfs_cache.c:331-345 | In a proper history every parent is a cached directory |
| `MetaCache.Cache.constructor` | kevinfs/lightfs_cache.c:10-11 | Starts with an empty history |
| `MetaCache.Cache.Lookup` | kevinfs/lightfs_cache.c:186-202 | The chain walk by fingerprint and key finds an item exactly if the key is cached |
| `MetaCache.Cache.Get` | kevinfs/lightfs_cache.c:174-209 | Returns the latest undeleted put; FOUND_FREE exactly on the first get after a weak delete; NOTFOUND exactly if there is none |
| `MetaCache.Cache.Put` | kevinfs/lightfs_cache.c:271-348 | Overwrites in place or adds the item to its chain and to its directory's tree |
| `MetaCache.Cache.AddNew` | kevinfs/lightfs_cache.c:311-346 | The new-item part; the key is never in the directory's tree yet, so the insert cannot fail |
| `MetaCache.Cache.Del` | kevinfs/lightfs_cache.c:349-388 | Takes the item off its chain and out of its parent's tree; NOTFOUND exactly if it is not cached |
| `MetaCache.Cache.WeakDel` | kevinfs/lightfs_cache.c:390-423 | Marks a cached item and nothing else |
| `MetaCache.Cache.DirectoryListsChildren` | kevinfs/lightfs_cache.c:106-134 | In every reachable state a directory's tree in order is the sorted set of the cached items filed under it |
| `MetaCache.Cache.DirectoryHasTree` | kevinfs/lightfs_cache.c:316-318 | An item put as a directory has a tree |
| `CacheIndex.TouchKeeps` | kevinfs/lightfs_cache.c:290-301 | Changing value and marks keeps chains, trees and parents right |
| `CacheIndex.AddKeeps` | kevinfs/lightfs_cache.c:312-328 | So does adding an item at the head of its chain |
| `CacheIndex.LinkKeeps` | kevinfs/lightfs_cache.c:336-343 | So does filing an item in its directory's tree |
| `CacheIndex.RemoveKeeps` | kevinfs/lightfs_cache.c:367-385 | So does removing an item without children from chain and tree |
| `Readdir.VisibleIsAll` | kevinfs/lightfs_bstore.c:676-680 | The listing is all children if and only if every child's key carries the directory's inode number |
| `Readdir.ChildOfExactly` | kevinfs/lightfs_bstore.c:676-680 | A metadata key belongs to exactly the directory whose inode number it carries |
| `Readdir.Reader.constructor` | kevinfs/lightfs_super.c:1372-1380 | Reading starts before the first dot |
| `Readdir.Reader.EmitDots` | kevinfs/lightfs_super.c:1366-1370 | Emits the dots not yet emitted, as far as there is room |
| `Readdir.Reader.SetRange` | kevinfs/lightfs_cache.c:472-525 | Stays where the cursor stands, else goes to the first child, else reports the end |
| `Readdir.Reader.Next` | kevinfs/lightfs_cache.c:528-571 | Goes to the next child in key order or reports the end |
| `Readdir.Reader.EmitChildren` | kevinfs/lightfs_bstore.c:671-717 | From the cursor on, emits as many children as there is room for and leaves the position that resumes exactly there |
| `Readdir.Reader.Call` | kevinfs/lightfs_super.c:1366-1433 | One call extends what was emitted to the next prefix of the listing; it finishes exactly when the end was noticed before |
| `Readdir.Reader.ReadAll` | kevinfs/lightfs_super.c:1366-1433 | For any room in each call the entries emitted are a prefix of the listing; with room in every call, one call more than there are entries finishes it, each entry emitted once |
| `DirListing.ReadDirectory` | kevinfs/lightfs_bstore.c:598-724 | For a cached directory the listing is exactly the items filed under it by the history of cache calls, in ascending key order |
| `DirListing.ListingShowsTree` | kevinfs/lightfs_bstore.c:674-702 | A sorted tree of children is listed whole and in order after the dots |
| `PageScan.PageIo.ScanPagesCb` | kevinfs/lightfs_bstore.c:964-1048 | A record of another inode ends the scan; one of this inode passes exactly the pages up to its block, of which the page of its block gets its bytes and the others zeros, and the scan goes on exactly while pages remain |
| `PageScan.PageIo.CopyPage` | kevinfs/lightfs_bstore.c:1002-1041 | Byte by byte, the page gets the record's bytes inside the file, and zeros past its end in the last block |
| `PageScan.PageIo.ZeroPage` | kevinfs/lightfs_bstore.c:986-1000 | Clears the current page, keeps the others and moves on |
| `PageScan.PageIo.FillRest` | kevinfs/lightfs_bstore.c:1050-1062 | Clears every page left |
| `PageScan.PageIo.ScanPages` | kevinfs/lightfs_bstore.c:1133-1139 | Over any ascending records, with gaps, the cursor loop leaves every page with its record's bytes or zeros |
| `PageScan.PageIo.GetMulti` | kevinfs/lightfs_bstore.c:1064-1104 | The multi-gets of a scan over any pages, past the end of the file too: each round starts at the last block of the one before; if they start and end, every page holds its block, and whether they end, call back without a current page or repeat for ever depends on the first and last page and the number of blocks alone |
| `PageScan.PageIo.Round` | kevinfs/lightfs_txn_hdlr.c:374-386 | One multi-get calls back without a current page if and only if it reaches past the block of the last page; otherwise exactly the pages up to its last block are passed, each with its block |
| `PageScan.ScanEndsExactly` | kevinfs/lightfs_bstore.c:1096-1104 | Of all page lists the scan ends well if and only if the last page is in the file, the first lies wholly past it, or the last lies a whole number of rounds behind the first; it repeats for ever if and only if the first page is the last of the file, or the one after it, and more follow |
| `PageScan.OneRoundIsEnough` | kevinfs/lightfs_bstore.c:1077-1081 | The number of blocks asked for covers all pages if and only if the last is in the file or the first lies wholly past it |
| `PageScan.HoldsDetermines` | kevinfs/lightfs_bstore.c:1033-1036 | That determines every page, and no byte past the end of the file shows in the last block |
| `PageScan.HoldsBytes` | kevinfs/lightfs_bstore.c:1010-1036 | Byte by byte, a page that holds its record has the record's bytes inside the file, and zeros past its end in the last block |
| `PageScan.TrimmedBytes` | kevinfs/lightfs_bstore.c:1033-1036 | Clearing past the end of the file changes no byte inside it and no other block |
| `PageScan.RecordOfBlock` | kevinfs/lightfs_bstore.c:978-985 | A record counts as the inode's exactly if its key carries that inode number, and its block is the key's |
| `Truncate.Trunc` | kevinfs/lightfs_bstore.c:802-848 | The transactions name exactly the run of blocks from the first on, each once, in batches of 1 to 310 that are proper transactions |
| `Truncate.DeleteBatch` | kevinfs/lightfs_bstore.c:833-847 | One batch names its consecutive blocks of the inode |
| `Truncate.CountIsExact` | kevinfs/lightfs_bstore.c:830 | The unsigned count is the number of blocks from the first to the last exactly when the first is at most one past the last; past that it is 2^64 more |
| `Truncate.CallersCountExactly` | kevinfs/lightfs_super.c:1930-1940 | For every smaller size, and for unlinking, the first block is at most one past the last, so the count never underflows |
| `Truncate.SetSize` | kevinfs/lightfs_super.c:1921-1944 | Setting a smaller size deletes exactly the blocks beyond it; a size not smaller deletes nothing |
| `Truncate.TruncatedStore` | kevinfs/lightfs_bstore.c:832-848 | A device that applies the transactions loses exactly the data keys of the blocks past the new end and before the old, and no other key |
| `Truncate.NamedAreDeleted` | kevinfs/lightfs_io.h:131-138 | A device that applies multi-delete records loses exactly the keys of the blocks they name |
| `Truncate.Unlink` | kevinfs/lightfs_super.c:371-386 | Unlinking a file deletes all its blocks |
| `Truncate.BeyondExactly` | kevinfs/lightfs_fs.h:55-62 | Those blocks are the ones whose first byte is past the new end and before the old, none twice |
| `Truncate.BlockOfSize` | kevinfs/lightfs_fs.h:53-62 | The block macros agree with rounding the size up |
| `WritePages.WriteAll` | kevinfs/lightfs_super.c:778-826 | For any page list the transactions are proper, one for every 310 pages begun, and together hold one record for each page in the file, in list order |
| `WritePages.PutPage` | kevinfs/lightfs_super.c:782-809 | A page in the file becomes one DATA_SET_WB record under its inode and block number, with the page's bytes inside the file and zeros past it; others none |
| `WritePages.RecordKeepsPage` | kevinfs/lightfs_super.c:798-806 | Byte by byte, the record of a page holds the page inside the file and zeros past it |
| `WritePages.Commit` | kevinfs/lightfs_super.c:816-826 | A committed batch is a proper transaction |
| `WritePages.BatchIsProper` | kevinfs/lightfs_super.c:779-781 | At most 310 page records are charged at most 1277208 bytes, within the merge limit |
| `WritePages.InFileExactly` | kevinfs/lightfs_super.c:798-809 | The two tests select exactly the pages with a byte inside the file |
| `WritePages.WrittenIsReadBack` | kevinfs/lightfs_super.c:798-809 | A scan of the written records puts back into each page, byte by byte, what was written inside the file, and zeros past it |
| `WritePages.WrittenAscends` | kevinfs/lightfs_super.c:778-809 | Ascending pages leave ascending records |
| `SlotQueue.BuffersDisjoint` | kevinfs/cheeze/cheeze.h:103-106 | Different tags have disjoint 2 MiB buffers inside the mapped area |
| `SlotQueue.BufferPlaces` | kevinfs/cheeze/cheeze.h:103-106 | The first 512 tags lie tag by tag in the first huge page and the others in the second |
| `SlotInvariant.TagsPartition` | kevinfs/cheeze/queue.c:30-62 | In every run free and in-flight tags partition 0..1023, `slots` and `qd` count them, and a request about to be sent finds both its flags down |
| `SlotInvariant.EveryRequestAccounted` | kevinfs/cheeze/shm.c:47-123 | In every run each request is in flight or released, never both; released ones were signalled exactly if somebody waits; releases and signals are as many as the requests they were for |
| `SlotInvariant.SequenceNumbersDiffer` | kevinfs/cheeze/queue.c:52-53 | Before 2^64 requests, tags in flight show different sequence numbers |
| `SlotInvariant.TagsInReturnOrder` | kevinfs/cheeze/queue.c:102-118 | In every run the free list is a queue: tags are handed out in the order they came back, fresh ones first |
| `SlotReturn.TagLeavesExactly` | kevinfs/cheeze/shm.c:75-114 | In every run a step takes a tag off the processing list if and only if it is the requester's return of an answered get, multi-get or commit, or the poll of an answered transfer |
| `SlotReturn.ReleasedWasGiven` | kevinfs/lightfs_io.c:143-153 | In every run each released request was given back by just such a step |
| `SlotReturn.ReaderKeepsBuffer` | kevinfs/lightfs_txn_hdlr.c:374-387 | In every run, until its requester gives the tag back, no later request has the tag and no other request in flight shares the buffer |
| `SlotReturn.OnlyPlainUnsignalled` | kevinfs/cheeze/shm.c:75-82 | In every run a plain transfer is never signalled and every other request is by the time its tag is back |
| `SlotOrder.HoldersReachable` | kevinfs/cheeze/queue.c:30-62 | In every run the entry of a tag is that of the latest request that took it, and request n has the n-th tag in return order |
| `SlotOrder.SweepInOrderExactly` | benchmark/cheeze/user.c:212-222 | In every run a device that sweeps the tags serves the raised requests in order if and only if of any two the earlier has the smaller tag |
| `SlotOrder.FirstTagsInOrder` | benchmark/cheeze/user.c:212-222 | That is so as long as no tag was given out twice |
| `SlotOrder.SweptOutOfOrder` | benchmark/cheeze/user.c:212-222 | A run in which tag 0 comes back and request 1024 on it is served before request 1023 |
| `SlotOrder.LeastRestoresOrder` | benchmark/cheeze/user.c:218-222 | A device that always serves the least sequence number serves all raised requests in order |
| `SlotOrder.WaitsRightExactly` | kevinfs/cheeze/blk.c:61-66 | In every run the requester waits for its own completion, or does not wait if its request is plain, if and only if its tag was not given to a later request or neither of the two is sync |
| `SlotOrder.WaitsForAnother` | kevinfs/cheeze/blk.c:61-66 | A run in which the requester of a plain transfer waits for the completion of a later get |
| `SlotInvariant.InvNext` | kevinfs/cheeze/shm.c:47-123 | Every step of requester, device and polling thread keeps the invariant |
| `SlotTable.Table.constructor` | kevinfs/cheeze/queue.c:136-161 | All tags free, all flags down |
| `SlotTable.Table.PrepareIo` | kevinfs/cheeze/blk.c:30-45 | Takes the first free tag and the next sequence number |
| `SlotTable.Table.SendReq` | kevinfs/cheeze/shm.c:26-45 | Raises the send flag, which is never up already |
| `SlotTable.Table.Serve` | benchmark/cheeze/user.c:212-259 | The device lowers a raised send flag and raises the receive flag |
| `SlotTable.Table.ReturnTag` | kevinfs/cheeze/queue.c:102-118 | The tag moves to the tail of the free list |
| `SlotTable.Table.ReceiveSlot` | kevinfs/cheeze/shm.c:54-121 | One slot of the polling sweep: a get, multi-get or commit is signalled and keeps its tag, a flushing transfer is signalled and its tag returned, of a plain transfer the tag is returned |
| `SlotTable.Table.RecvReq` | kevinfs/cheeze/shm.c:47-123 | A sweep leaves no receive flag up and does this for every answered slot |
| `SlotTable.Table.FreeIo` | kevinfs/cheeze/blk.c:47-49 | The reader gives its tag back |
| `SlotTable.SweepAnswers` | kevinfs/cheeze/shm.c:54-121 | No answered slot is skipped and none is touched twice in a sweep |

## Left out

- Linux primitives: locks, semaphores, work queues, the page cache and the VFS are atomic steps or arguments; blocking is a step that cannot be taken.
- OrderedTree.Recolour: red-black colours and rotations are not modelled, because only the order of a tree matters; nodes are positions in that order.
- Pointer identity: trees are values and list nodes are positions or numbers, so aliasing between structures is not captured; parent links of the cache are cell numbers.
- KevinSSD internals: the device is any function of decoded records, or the ordered store, plus a polling peer.
- Read-ahead and `lightfs_io_sync_put`: their tags are released in two places, so the tag invariant is not stated for them.
- `cheeze_peek` and `cheeze_pop`, which the file system does not call.
- GroupCommitOrder.PackedReachable: no size bound for the sync c_txn, because the code inserts into it without a size test; `SyncSize` says when it fits.
- DeviceView.DeviceFollowsCommitOrder: slots in hand-over order, because the order the device takes them in depends on the tags; `SlotOrder` says when the two agree.
- GroupCommitOrder.WaitersCompletedOnce: hand-over to the device, not durability, because the callback runs before the device acknowledges.
- GroupCommitCounters.LimitNeverFires: the transfer callback is one step, so its two unlocked halves do not interleave with others.
- SlotInvariant.EveryRequestAccounted: the body of the polling loop for one slot is one step; the source returns the tag before it lowers the receive flag.
- TxnHandler.Handler.Pass: termination is for a finite number of commits arriving during the pass; wait times are not modelled.
- RbTransfer.ApplyRecord: metadata values are their 152 meaningful bytes, although the source passes a length of 4096; one store stands for the two databases, whose keys differ in the first byte.
- PageScan.PageIo.ScanPages: the cursor loop, which multi-gets replace in this build; it starts with `do_continue` true and calls back only while pages remain.
- PageScan.PageIo.GetMulti: the device answers every request with all its blocks and does not change between rounds; the source also reads `do_continue` unset, so its first value is arbitrary.
- MetaCache.Cache.Del: the deleted item has a cached parent and no children, as the source takes for granted; the counters `child`, `e_child` and `is_full`, which nothing reads, are omitted.
- MetaCache.Cache.Put: a named directory that is cached is a directory, as the source asserts; the two hash functions are arbitrary.
- Readdir.Reader.Call: not called again after it has finished, where the source would follow a number as a pointer; redirected metadata and allocation failure are omitted.
- WritePages.PutPage: the record holds the page's bytes as they are when it is put; the source keeps the page and reads it when the c_txn is encoded, so a write to the page in between is not captured.
- RbTransfer.StoreFollowsCommitOrder: orderless c_txns only; `StoreFollowsMixedOrder` states the exact condition for both kinds.
- WritePages.WriteAll: the error and retry paths, whose calls always succeed in this build.
- Counters nothing depends on: `committing_c_txn_cnt`, `block_cnt`, the `items` semaphore, statistics.
- Code compiled out: transaction buffering, order calculation and the parent and child relation of c_txns, group eviction, the query of the bloom filter.
- Rename, redirected metadata, inode-number allocation, attributes and timestamps, which would only add easy members.
- Benchmark scripts, workloads and the TPC-C programs.
