# RMDB in Dafny

This project models the parts of RMDB, a small relational engine written in C++, in which
correctness is hard to see from any single function, and proves what those parts are for. Every
file is plain Dafny 4.11; `dafny verify dfyconfig.toml` checks the whole project.

The parts, and the modules that hold them:

| part | modules |
|---|---|
| B+ tree index: search, insertion with splits, deletion with redistribution and merging, leaf ring, range scan | `IxTree`, `IxRoute`, `IxInsert`, `IxSplit`, `IxAttach`, `IxDelete`, `IxMerge`, `IxCoalesce`, `IxPrune`, `IxChain`, `IxRebalance`, `IxPosition`, `IxSteps`, `IxIndexHandle`, `IxScan`, `IxNode`, `IxKeys` |
| index scan: key range built from conditions | `IndexScan` |
| write-ahead log and restart recovery | `Bytes`, `LogRecord`, `LogManager`, `LogHistory`, `LogOutcome`, `LogMeaning`, `LogRunning`, `LogRecovery`, `LogExamples` |
| table locks and strict two-phase locking | `LockQueue`, `TwoPhase`, `LockProgress` |
| rollback by write set | `Rollback` |
| join tree construction and nested-loop execution | `Plan`, `Planner`, `Executor` |
| buffer pool and LRU replacer | `LruReplacer`, `BufferPool`, `BufferRun` |
| record file, bitmap and table scan | `Bitmap`, `RecordFile` |

## How the model is built

* **Index pages are flat.** `IxIndexHandle.pages` maps page numbers to nodes that know their parent, their
  slots and, for leaves, their ring neighbours, as the C++ pages do. A ghost `Shape` gives every reachable
  page its level and the interval of leaf positions it covers. The invariant `Valid` says: all leaves at
  level 0 and every child one level below its parent; parent pointers right; every node except the root has
  between order/2 and order - 1 slots; the leaves and the leaf header page form a doubly linked ring;
  first_leaf_ and last_leaf_ name its ends; leaf keys ascend along the ring; and every separator is above all
  keys before its child and at most the child's own first key. It need not equal that key: deletion compares
  slot 0 with the key it has just removed, so separators are left behind, and the weak form is what every
  operation keeps. That separators bound all keys of their subtree, and that inner keys ascend, follows from
  it (`IxTree.SeparatorAtMost`, `IxTree.InnerSorted`).
* **Node pages in memory** (`IxNode`) have key and rid arrays of order + 1 slots that are shifted in place; what
  lies behind the used slots stays there. The tree modules use the corresponding operations on sequences
  (`IxInsert.InsertAt`, `IxDelete.EraseAt`).
* **Composite keys.** The tree compares integers. `IxKeys.Compare` proves that comparing keys column by column
  is comparing ranks, so an index over several columns is the same tree. Column values are given by their
  position in the order of the column.
* **The log is bytes.** Recovery starts from the raw log file, cut off anywhere, and from a disk image in which
  every slot holds a value that its logged operations can lead to. Table files appear in recovery and rollback
  through their effect on a map from positions to records; `RecordFile` proves that effect.
* **Recovery is specified slot by slot.** `LogOutcome.Outcome` gives, for every log, what redo and undo leave in a
  slot; the winners are the transactions that committed and were not rolled back. `LogMeaning` says the same of the
  records alone: which operation a slot shows at the end. `LogRunning` describes the logs of
  an engine that rolls back when it logs ABORT, and says for those exactly which slots recovery gets right.
* **Locks** are a state machine whose steps are the critical sections of the lock manager under the queue
  latch. `LockRequestQueue` runs each of them as a method. In `TwoPhase`, logging a write, locking its table and
  making the write are separate steps, because the executors log first.
* **Rollback** sees an index as a map for as long as the index has a root; the deletion that leaves it without entries
  loses the root, as `IxIndexHandle.DeleteEntry` proves of the tree, and every later operation on it fails.
* **Buffer pool runs.** `BufferRun` reads off the history of a run which user holds how many pins on a page and which
  writes have not been reported; the rules for users are conditions on that history.

Where the code departs from its evident intent, the model follows the code, and the exact extent is proved:

* Deleting the last entry leaves the index without a root (`IxIndexHandle.IxIndexHandle.DeleteEntry`); a run is
  usable exactly if no deletion empties the index (`IxScan.Run`).
* `leaf_lookup` reads a slot that may be unused; it is right exactly if that slot does not still hold the key
  (`IxNode.IxNodeHandle.LeafLookup`), and wrong for the last key of any page right after its removal
  (`IxNode.LookupErased`).
* A range scan whose lower bound exceeds its upper bound fails exactly if a stored key lies strictly between
  them (`IxScan.RangeScan`). The index scan builds its range from the last bound of each kind on each column, and
  fails exactly if a stored key lies strictly between the ends of that range (`IndexScan.ScanIndex`);
  `IndexScan.ContradictoryScan` is such a query.
* `pop_conds` takes a comparison of two columns of one table for whatever table it is asked first
  (`Planner.Misplaced`). Filters on one table in an ON clause are lost if an earlier join condition has brought the
  table in (`Planner.LostFilter`), a filter as the first join condition leaves a join without a child
  (`Planner.MissingChild`), and with one table all ON conditions are lost. The plan is right exactly if none of this
  happens, which is a condition on the query (`Planner.MakeOneRel`).
* Aborted transactions are undone only after all redo, over what others have committed since
  (`LogExamples.AbortLosesCommit`). An aborted statement outside an explicit transaction is committed afterwards
  (src/rmdb.cpp:150-195), and its commit record takes it out of undo, so the rolled-back write comes back
  (`LogExamples.AbortRevived`). `LogRecovery.RecoveryManager.Recover` gives the exact outcome of every slot for every
  log, and `LogRunning.RunningExactly` says when it is the winners' value.
* The executors log before they hold the exclusive lock (src/execution/executor_insert.h:62-68,
  src/execution/executor_update.h:110-112, src/execution/executor_delete.h:55-57). Two transactions can log writes to
  one slot before either has ended, and recovery then removes a committed record (`LogExamples.EarlyLogLosesInsert`,
  reachable by `LogExamples.EarlyLogReachable`). The log has one writer per slot at a time exactly if the run logs
  cleanly (`TwoPhase.CleanLog`, `TwoPhase.CleanOnly`), for which locking before logging is enough
  (`TwoPhase.LockedRunClean`).
* Rollback deletes an index entry before it inserts the old one, and leaves an index without a root when it takes back
  the first row (`Rollback.OnlyRowUpdated`, `Rollback.FirstRowInserted`). Abort restores records and usable indexes
  exactly if, back through the write set, the table never is without rows and no update was made while its row was the
  only one (`Rollback.Table.Abort`). A position chosen before the lock may be taken by then; the row there is
  overwritten, and rollback removes it (`Rollback.SlotTaken`).
* A failed fetch of a page that does not exist leaves the page in the page table, and the next fetch hands out zeros
  (`BufferPool.MissingFetched`).
* `persist_lsn_` runs one ahead when a full buffer is written out (`LogManager.LogManager.AddLog`).
* A positioned insert that fills a page not on the free list can make the list start at a full page
  (`RecordFile.StaleLink`, for pages of any size). The list stays sound exactly if the page is not filled or its left-over link leads
  through other pages with room (`RecordFile.RmFileHandle.InsertRecordAt`). Deleting an empty slot of a listed page
  with one free slot closes the list to a cycle (`RecordFile.RmFileHandle.DeleteRecord`).
* Compatible requests overtake waiting ones, so shared locks can deadlock (`TwoPhase.SharedDeadlock`).
* An upgrade is granted at once only if its request is alone in the queue, and otherwise only by a release. A reader that
  is the only holder, with others waiting behind it, therefore waits for its own upgrade (`LockProgress.StrandedUpgrade`).
  A table is stuck like this exactly after an upgrade that waits while all other holders wait for upgrades, or after a
  release that leaves two or more waiting upgrades and no other holder (`LockProgress.UpgradeStuck`,
  `LockProgress.ReleaseStuck`); only a new reader can then change anything (`LockProgress.StuckStays`).
* An update that sets two columns of one composite index visits that index twice and then always fails
  (`Rollback.Table.UpdateRow` allows for repeated indexes).

## Model

| member | source | states |
|---|---|---|
| `IxIndexHandle.LowerBound` | src/index/ix_index_handle.cpp:21-42 | the binary search returns the first slot whose key is not below the target |
| `IxIndexHandle.UpperBound` | src/index/ix_index_handle.cpp:50-78 | the search over all but the last slot, plus the final look, returns the first slot whose key is above the target |
| `IxIndexHandle.InternalLookup` | src/index/ix_index_handle.cpp:111-126 | the slot followed downwards is the last one not above the key, or the first |
| `IxIndexHandle.FindChild` | src/index/ix_index_handle.h:183-192 | a child is found in its parent at its own slot |
| `IxIndexHandle.IxIndexHandle.constructor` | src/index/ix_manager.h:97-129 | a created index is a well-formed tree for every order from 4 on, and stands for the empty map |
| `IxIndexHandle.IxIndexHandle.FindLeafPage` | src/index/ix_index_handle.cpp:250-265 | the descent ends at the one leaf that may hold the key: all keys before it are smaller, all separators behind it larger |
| `IxSteps.KeyAbsent` | src/index/ix_index_handle.cpp:250-265 | a key not found in that leaf is nowhere in the index |
| `IxIndexHandle.IxIndexHandle.MaintainParent` | src/index/ix_index_handle.cpp:811-831 | one separator that is too large after an insertion is repaired all the way up; only inner keys change |
| `IxIndexHandle.IxIndexHandle.AdoptKids` | src/index/ix_index_handle.cpp:914-922 | exactly the children listed in the given slots get the new parent, nothing else changes |
| `IxIndexHandle.IxIndexHandle.Split` | src/index/ix_index_handle.cpp:298-335 | an overfull node is cut in half, the tree stays well formed up to one unattached node, the chain of entries is unchanged, the new leaf stands right behind the old one |
| `IxIndexHandle.IxIndexHandle.InsertIntoParent` | src/index/ix_index_handle.cpp:350-388 | attaching the new node, with further splits up to a new root, restores the full invariant; it terminates by depth and moves no entry |
| `IxIndexHandle.IxIndexHandle.SplitIfFull` | src/index/ix_index_handle.cpp:421-427 | a leaf that reached the order is split, and last_leaf_ follows |
| `IxIndexHandle.IxIndexHandle.InsertEntry` | src/index/ix_index_handle.cpp:401-431 | keeps the tree well formed; succeeds exactly if the key is absent, and then the map gains exactly that pair |
| `IxIndexHandle.IxIndexHandle.Redistribute` | src/index/ix_index_handle.cpp:587-620 | moving one slot between siblings repairs an underfull node; chain and leaves unchanged |
| `IxIndexHandle.IxIndexHandle.EraseLeaf` | src/index/ix_index_handle.cpp:838-848 | the two ring neighbours of a leaf point past it, nothing else changes |
| `IxIndexHandle.IxIndexHandle.AbsorbInner` | src/index/ix_index_handle.cpp:650-667 | merging two inner siblings leaves at most their parent underfull and keeps the chain |
| `IxIndexHandle.IxIndexHandle.AbsorbLeaf` | src/index/ix_index_handle.cpp:650-667 | merging two leaves keeps the ring, last_leaf_ and the chain, and leaves at most the parent underfull |
| `IxIndexHandle.IxIndexHandle.Coalesce` | src/index/ix_index_handle.cpp:636-680 | merging and going on upwards restores the full invariant, terminates by depth, and keeps the entries |
| `IxIndexHandle.IxIndexHandle.AdjustRoot` | src/index/ix_index_handle.cpp:544-571 | a root with one child gives way to it; an empty root leaf leaves no root; the entries are unchanged |
| `IxIndexHandle.IxIndexHandle.CoalesceOrRedistribute` | src/index/ix_index_handle.cpp:480-536 | an underfull node is repaired; the tree is well formed afterwards exactly if an entry is left |
| `IxIndexHandle.IxIndexHandle.DeleteEntry` | src/index/ix_index_handle.cpp:438-467 | the key is gone if no record id is given or the stored one is; with another record id nothing changes; every other key keeps its record id; the index is usable afterwards exactly if an entry is left |
| `IxTree.SeparatorAtMost` | src/index/ix_index_handle.cpp:447-449 | a separator that is only a lower bound of its child's first key bounds all keys from that child on |
| `IxTree.InnerSorted` | src/index/ix_index_handle.cpp:112-126 | the keys of every inner node strictly ascend |
| `IxRebalance.LeafShiftSound` | src/index/ix_index_handle.cpp:587-620 | redistribution between leaves keeps every clause of the invariant |
| `IxRebalance.InnerShiftSound` | src/index/ix_index_handle.cpp:587-620 | redistribution between inner nodes keeps every clause of the invariant |
| `IxRebalance.LeafMergeSound` | src/index/ix_index_handle.cpp:636-680 | merging leaves keeps every clause of the invariant but the size of the parent |
| `IxRebalance.InnerMergeSound` | src/index/ix_index_handle.cpp:636-680 | merging inner nodes keeps every clause of the invariant but the size of the parent |
| `IxRebalance.DropRootSound` | src/index/ix_index_handle.cpp:562-568 | dropping a root with one child keeps the invariant |
| `IxChain.ChainAscends` | src/index/ix_scan.cpp:17-31 | the leaf chain lists the entries in strictly ascending key order |
| `IxChain.RingInsert` | src/index/ix_index_handle.cpp:317-324 | linking a new leaf in behind an old one keeps the doubly linked ring |
| `IxChain.RingErase` | src/index/ix_index_handle.cpp:838-848 | taking a leaf out keeps the doubly linked ring |
| `IxIndexHandle.IxIndexHandle.GetRid` | src/index/ix_index_handle.cpp:691-699 | the record id of the entry at a position; an error behind the last slot |
| `IxIndexHandle.IxIndexHandle.LowerBoundIid` | src/index/ix_index_handle.cpp:709-723 | the canonical position of the first entry not below the key, across leaf ends |
| `IxIndexHandle.IxIndexHandle.UpperBoundIid` | src/index/ix_index_handle.cpp:731-745 | the canonical position of the first entry above the key, across leaf ends |
| `IxIndexHandle.IxIndexHandle.LeafBegin` | src/index/ix_index_handle.cpp:766-769 | the position of rank 0 |
| `IxIndexHandle.IxIndexHandle.LeafEnd` | src/index/ix_index_handle.cpp:753-758 | the position behind the last entry |
| `IxPosition.PositionUnique` | src/index/ix_scan.cpp:17-31 | positions are equal exactly if their ranks are, so a scan stops exactly at its end |
| `IxPosition.RangeRanks` | src/index/ix_index_handle.cpp:709-745 | the part of the chain between the two ranks is what filtering by lo <= key <= hi leaves; the ranks cross exactly if a key lies strictly between hi and lo |
| `IxScan.IxScan.Next` | src/index/ix_scan.cpp:17-31 | advances the canonical position by one entry |
| `IxScan.IxScan.Drain` | src/index/ix_scan.cpp:17-35 | a scan yields exactly the entries between its ends, in order, and fails exactly if the end lies before the start |
| `IxScan.RangeScan` | src/index/ix_index_handle.cpp:709-745 | yields the record ids of the chain filtered by lo <= key <= hi, in order; fails exactly if a stored key lies strictly between hi and lo |
| `IxScan.FullScan` | src/index/ix_index_handle.cpp:753-769 | the chain from the first leaf lists exactly the map, in ascending order |
| `IxScan.Step` | src/index/ix_index_handle.cpp:401-467 | one operation of a run acts on the map as specified; the root is lost exactly if a deletion leaves nothing |
| `IxScan.Run` | src/index/ix_index_handle.cpp:401-467 | every run on a created index refines a finite map, operation by operation; it gets stuck exactly if some deletion empties the index |
| `IxScan.InsertThenDelete` | src/index/ix_index_handle.cpp:211-224 | after any run, inserting an absent key and deleting it with its record id, or without one, gives back the map; deleting it with another record id leaves it stored |
| `IxScan.ApplyKeys` | src/index/ix_index_handle.cpp:401-467 | the specification of one operation, key by key |
| `IxNode.IxNodeHandle.LowerBound` | src/index/ix_index_handle.cpp:21-42 | the search on the key array |
| `IxNode.IxNodeHandle.UpperBound` | src/index/ix_index_handle.cpp:50-78 | the search on the key array, with its look at an unused slot on an empty page |
| `IxNode.IxNodeHandle.LeafLookup` | src/index/ix_index_handle.cpp:88-104 | right about a key exactly if the slot behind the last does not still hold it above everything in use |
| `IxNode.LookupErased` | src/index/ix_index_handle.cpp:88-104 | looking up the last key of any page right after its removal finds it |
| `IxNode.IxNodeHandle.InsertPairs` | src/index/ix_index_handle.cpp:142-160 | the in-place shift inserts the pairs at the position and never writes behind index order, inner pages included |
| `IxNode.IxNodeHandle.Insert` | src/index/ix_index_handle.cpp:169-185 | adds the pair to the map of the page exactly if the key is absent, and says so by the count; the slots become what the index makes of them |
| `IxNode.InsertOnPage` | src/index/ix_index_handle.cpp:401-431 | a page of any well-formed index has room for the insertion in memory: its slots become those of the index, and no slot beyond the order is used |
| `IxNode.IxNodeHandle.ErasePair` | src/index/ix_index_handle.cpp:192-203 | the in-place shift removes the one pair; the old last key stays behind the used slots |
| `IxNode.IxNodeHandle.Remove` | src/index/ix_index_handle.cpp:211-224 | removes the key exactly if stored, with the given record id if one is given; the slots become what the index makes of them |
| `IxKeys.Compare` | src/index/ix_index_handle.h:43-51 | column-wise comparison agrees with the order of ranks, and gives 0 only for equal keys |
| `IxKeys.OrderFits` | src/index/ix_manager.h:73-79 | every key length up to 512 gives an order of at least 6 whose order + 1 slots fit a page, and no larger order does |
| `IndexScan.ExtractRanges` | src/execution/executor_index_scan.h:80-114 | for each index column exactly the last lower bound, the last upper bound and the last equality among the conditions on it, and the position of the latter |
| `IndexScan.SatisfiesMeaning` | src/common/common.h:225-240 | which values of a row each operator accepts |
| `IndexScan.RangeMeaning` | src/execution/executor_index_scan.h:80-114 | the collected bounds of a column are those of the last condition of each kind, and absent exactly without one |
| `IndexScan.Remaining` | src/execution/executor_index_scan.h:115-132 | the rows passing the remaining conditions are those passing all conditions but the consumed equalities |
| `IndexScan.BuildKey` | src/execution/executor_index_scan.h:206-297 | equalities first, then bounds as long as they are contiguous, then extreme values |
| `IndexScan.RangeKeyMeaning` | src/execution/executor_index_scan.h:206-297 | the ends of the range: leading equalities, then the last bounds for as long as every column has one, then the extreme values |
| `IndexScan.RangeComplete` | src/execution/executor_index_scan.h:146-158 | every row satisfying all conditions has its key between the two range keys |
| `IndexScan.RangeSound` | src/execution/executor_index_scan.h:115-132 | every row with its key in the range satisfies the equalities that are not checked again |
| `IndexScan.ScanIndex` | src/execution/executor_index_scan.h:146-191 | delivers exactly the rows that satisfy all conditions, each once; fails exactly if a stored key lies strictly between the upper and the lower end of the range that the conditions give, so never if a row satisfies them |
| `IndexScan.ContradictoryScan` | src/execution/executor_index_scan.h:146-191 | a query with contradictory bounds on which the scan fails instead of delivering nothing |
| `LogRecord.RoundTrip` | src/recovery/log_manager.h:49-63 | deserialising a serialised record gives it back, whatever follows, and its header holds its length |
| `LogRecord.BodyRoundTrip` | src/recovery/log_manager.h:355-385 | the same for the part behind the header: images, position and table name |
| `LogRecord.Serialize` | src/recovery/log_manager.h:208-220 | writing field after field at a moving offset puts exactly the encoding into the buffer and leaves the rest alone |
| `LogRecord.Layout` | src/recovery/log_defs.h:22-34 | each header field lies in its four bytes at its offset, and the first image follows behind its length |
| `LogManager.LogManager.AddLog` | src/recovery/log_manager.cpp:19-35 | numbers are consecutive; file and buffer together hold the serialised records in order; persist_lsn_ runs one ahead after a spill |
| `LogManager.LogManager.Flush` | src/recovery/log_manager.cpp:40-45 | everything logged is in the file |
| `LogManager.LogManager.AddCheckpoint` | src/recovery/log_manager.cpp:48-67 | a checkpoint is written through and recovery will start behind it |
| `LogManager.LogManager.Commit` | src/transaction/transaction_manager.cpp:59-84 | when commit returns, its record and all earlier ones are in the file |
| `LogManager.CrashImage` | src/recovery/log_manager.cpp:40-45 | a crash anywhere in a write leaves an unbroken initial part of the records that holds everything durable: no later commit survives an earlier one |
| `LogRecovery.CrashReadable` | src/recovery/log_recovery.cpp:17-84 | the file left by any such crash is one the log reader takes apart into that initial part |
| `LogRecovery.RecoveryManager.Scan` | src/recovery/log_recovery.cpp:16-84 | whatever the buffer size and wherever refills fall, exactly the complete records are collected, in order, and the reader stops at the torn tail |
| `LogRecovery.RecoveryManager.Collect` | src/recovery/log_recovery.cpp:43-82 | the tables of records, unfinished transactions and begun transactions gain one record |
| `LogRecovery.UndoMapMeaning` | src/recovery/log_recovery.cpp:47-78 | the transactions to undo are exactly those without a commit record, each with the number of its last record |
| `LogRecovery.RecoveryManager.Group` | src/recovery/log_recovery.cpp:86-124 | each page gets exactly the operations on it in log order; fails exactly on a checkpoint record or an unknown table |
| `LogRecovery.RecoveryManager.RedoPage` | src/recovery/log_recovery.cpp:134-152 | the operations of one page are replayed in log order |
| `LogRecovery.RecoveryManager.Redo` | src/recovery/log_recovery.cpp:130-154 | redo page by page, in any order of pages, equals replaying the whole log in order |
| `LogHistory.RedoIdempotent` | src/recovery/log_recovery.cpp:130-154 | redoing a log twice changes nothing |
| `LogMeaning.RedoUndo` | src/recovery/log_recovery.cpp:140-190 | redo leads from a state before an operation to one after it, in one slot, and undo leads back |
| `LogMeaning.UndoRedo` | src/recovery/log_recovery.cpp:140-190 | undo leads from a state after an operation to one before it, in one slot, and redo leads back |
| `LogMeaning.LastOperation` | src/recovery/log_recovery.cpp:130-154 | after redo a slot shows its last operation: deleted is gone, inserted is there, updated has the new value |
| `LogMeaning.Occupancy` | src/recovery/log_recovery.cpp:130-154 | after redo a slot is occupied exactly if the last insertion or deletion was an insertion, or as before without any |
| `LogOutcome.RedoComplete` | src/recovery/log_recovery.cpp:130-154 | redo brings a slot from any value that its logged operations, done and taken back in any order, can lead to, to its value at the end of the log |
| `LogRecovery.RecoveryManager.UndoTxn` | src/recovery/log_recovery.cpp:168-194 | following prev_lsn undoes exactly the operations of the transaction, last first, and terminates |
| `LogRecovery.RecoveryManager.Undo` | src/recovery/log_recovery.cpp:159-196 | exactly the transactions without a commit record are undone, last begun first |
| `LogOutcome.RecoveryOutcome` | src/recovery/log_recovery.cpp:16-196 | for every log: a slot that no loser wrote keeps its last logged value; any other gets back the value that the loser begun first logged as the one it replaced first |
| `LogOutcome.RecoveryRight` | src/recovery/log_recovery.cpp:16-196 | recovery gives the checkpoint state with the operations of the committed and never aborted transactions applied in order exactly if that outcome is their value in every slot |
| `LogMeaning.WinnersOutcome` | src/recovery/log_recovery.cpp:16-196 | recovery leaves the last operation showing in a slot that only transactions with a commit record wrote |
| `LogMeaning.LoserOutcome` | src/recovery/log_recovery.cpp:159-196 | recovery leaves in any other slot what the loser begun first found when it first wrote it |
| `LogRunning.StartedRight` | src/recovery/log_recovery.cpp:159-196 | a slot is recovered if the operations of each loser fit the winners' value |
| `LogRunning.FirstWrite` | src/transaction/transaction_manager.cpp:95-175 | in the log of an engine that rolls back on ABORT and has one writer per slot, the first write of a transaction replaces the winners' value of that moment |
| `LogRunning.RunningRight` | src/transaction/transaction_manager.cpp:95-175 | there a slot is recovered if no winner wrote it after a transaction that is not one, however many were rolled back |
| `LogRunning.RunningExactly` | src/recovery/log_recovery.cpp:159-196 | there a slot is recovered exactly if no loser wrote it, or the winners' value at the first write of the loser begun first is their value at the end |
| `LogRunning.CommitsRecovered` | src/recovery/log_recovery.cpp:16-196 | logs without ABORT records with one writer per slot at a time are always recovered |
| `LogRecovery.RecoveryManager.Recover` | src/recovery/log_recovery.cpp:16-196 | analyze, redo and undo from the raw bytes leave exactly the outcome in every slot, for every log, aborts included, and every partly written image: a slot no loser wrote shows its last operation, any other what the first loser found; the exact condition for the winners' state; they fail exactly if the log names an unknown table |
| `LogRecovery.ChainedBegun` | src/recovery/log_recovery.cpp:43-82 | in every well-formed log each transaction with records has begun, as the undo list assumes |
| `LogExamples.AbortLosesCommit` | src/recovery/log_recovery.cpp:168-196 | a slot updated by an aborted transaction and then by a committed one: recovery loses the committed update |
| `LogExamples.AbortRevived` | src/rmdb.cpp:190-195 | ABORT followed by COMMIT of the same transaction: recovery brings the rolled-back update back |
| `LogExamples.EarlyLogLosesInsert` | src/execution/executor_insert.h:61-70 | two inserts into one slot logged before their locks: recovery removes the committed record |
| `LogExamples.EarlyLogReachable` | src/execution/executor_insert.h:61-70 | that log is written by a run of the lock manager |
| `LockQueue.LockRequestQueue.CheckWaitDie` | src/transaction/concurrency/lock_manager.cpp:15-23 | dies exactly if an older transaction has a request in the queue |
| `LockQueue.LockRequestQueue.CheckAndExecuteLock` | src/transaction/concurrency/lock_manager.cpp:36-53 | granted exactly if nothing granted excludes it, otherwise dies exactly if an older transaction is in the queue, otherwise waits at its end; the queue invariant is kept |
| `LockQueue.LockRequestQueue.UpgradeLock` | src/transaction/concurrency/lock_manager.cpp:171-198 | dies exactly if an older transaction is in the queue, is granted exactly if alone in it, otherwise waits; the queue invariant is kept |
| `LockQueue.LockRequestQueue.FinishUpgrade` | src/transaction/concurrency/lock_manager.cpp:196-201 | a granted upgrade turns the request exclusive and leaves the upgrade queue empty; the other requests stay |
| `LockQueue.LockRequestQueue.Unlock` | src/transaction/concurrency/lock_manager.cpp:268-330 | the request is gone; the first upgrade is granted if its transaction is the only holder left; under shared mode no shared request waits; the queue invariant is kept |
| `LockQueue.RequestedInv` | src/transaction/concurrency/lock_manager.cpp:36-53 | requests keep: one request per transaction, group mode matches the granted set, a nonempty queue has a granted request, no shared request waits under shared mode, an exclusive grant is the only one |
| `LockQueue.UpgradedInv` | src/transaction/concurrency/lock_manager.cpp:171-198 | upgrade requests keep the same |
| `LockQueue.WokenInv` | src/transaction/concurrency/lock_manager.cpp:196-201 | finished upgrades keep the same |
| `LockQueue.UnlockedInv` | src/transaction/concurrency/lock_manager.cpp:268-330 | releases keep the same |
| `LockQueue.RequestedExact` | src/transaction/concurrency/lock_manager.cpp:36-53 | the outcome and the new queue of a request in terms of the requests alone |
| `LockQueue.UpgradedExact` | src/transaction/concurrency/lock_manager.cpp:171-198 | the outcome and the new queue of an upgrade in terms of the requests alone |
| `LockQueue.UnlockedExact` | src/transaction/concurrency/lock_manager.cpp:268-330 | exactly who holds the lock after a release, request by request, and exactly when the first upgrade is granted |
| `LockQueue.MutualExclusion` | src/transaction/concurrency/lock_manager.h:26-34 | an exclusive holder is the only holder |
| `LockQueue.ExclusiveDescending` | src/transaction/concurrency/lock_manager.cpp:15-53 | with exclusive requests only, the queue descends strictly in transaction id from the holder at the front |
| `LockQueue.UnlockDescending` | src/transaction/concurrency/lock_manager.cpp:285-300 | releases keep that order |
| `TwoPhase.RunInv` | src/transaction/transaction_manager.cpp:78-84 | in every reachable state of every interleaving, holders hold what they used and a conflicting access comes only after the end of the earlier transaction |
| `TwoPhase.SerialOrder` | src/transaction/transaction_manager.cpp:78-84 | conflicting accesses of ended transactions are ordered like their ends |
| `TwoPhase.SameView` | src/transaction/transaction_manager.cpp:187-193 | a write and an access of one table are ordered in the run as in the serial order of ends |
| `TwoPhase.SameLastWrite` | src/transaction/transaction_manager.cpp:187-193 | every access has the same last write before it in the run and in the serial order, and none in the one exactly if none in the other |
| `TwoPhase.NoCycle` | src/transaction/transaction_manager.cpp:187-193 | the conflict graph has no cycle |
| `TwoPhase.EarlierEndsDurable` | src/transaction/transaction_manager.cpp:59-84 | whatever part of the log survives, the end of a transaction in it is preceded by the ends of all transactions it came after in some table |
| `TwoPhase.CleanLog` | src/transaction/transaction_manager.cpp:59-82 | the log of a run that logs cleanly, cut anywhere, has one writer per slot at a time |
| `TwoPhase.CleanOnly` | src/transaction/transaction_manager.cpp:59-82 | and only the log of such a run has |
| `TwoPhase.LockedRunClean` | src/execution/executor_delete.h:53-60 | a run that holds the exclusive lock whenever it logs a write logs cleanly |
| `TwoPhase.LogEndsOnce` | src/transaction/transaction_manager.cpp:59-82 | after its end a transaction neither writes nor ends again in the log |
| `TwoPhase.EarlyLogRun` | src/execution/executor_insert.h:61-70 | a reachable run that does not log cleanly, because the insert is logged before its lock |
| `TwoPhase.NoDeadlock` | src/transaction/concurrency/lock_manager.cpp:15-23 | with exclusive requests only, waits for holders, for earlier requests and for upgrades go from older to younger, and no reachable state has a cycle of waits |
| `TwoPhase.SharedDeadlock` | src/transaction/concurrency/lock_manager.cpp:46-51 | with shared requests a reachable state in which two transactions wait for each other |
| `LockProgress.SharedGranted` | src/transaction/concurrency/lock_manager.cpp:268-330 | in every reachable state a waiting request has a holder before it, and only exclusive ones wait under shared mode |
| `LockProgress.RequestStuck` | src/transaction/concurrency/lock_manager.cpp:36-53 | a request leaves a table stuck exactly if it was and the request is not granted |
| `LockProgress.UpgradeStuck` | src/transaction/concurrency/lock_manager.cpp:186-197 | an upgrade makes a table stuck exactly if its transaction is the oldest in the queue, not alone, and all other holders wait for upgrades |
| `LockProgress.ReleaseStuck` | src/transaction/concurrency/lock_manager.cpp:314-328 | a release makes a table stuck exactly if two or more upgrades wait and nobody else holds the lock |
| `LockProgress.StuckStays` | src/transaction/concurrency/lock_manager.cpp:171-330 | on a stuck table only a newcomer can act, and only one that is granted ends it |
| `LockProgress.StrandedUpgrade` | src/transaction/concurrency/lock_manager.cpp:186-197 | a reachable run in which the only holder waits for its own upgrade |
| `Rollback.Table.InsertRow` | src/execution/executor_insert.h:69-97 | fails exactly on a duplicate key, then leaves rows and indexes as they were, with the write set undoable either way; also for a position taken meanwhile, whose row it overwrites |
| `Rollback.Table.DeleteRow` | src/execution/executor_delete.h:57-69 | removes the row and its entries; the indexes keep their roots exactly if a row is left |
| `Rollback.Table.UpdateRow` | src/execution/executor_update.h:93-139 | fails exactly on a duplicate key or an index listed twice; no index loses its root, and the write set can be undone even when it stops in the middle |
| `Rollback.UndoUpdate` | src/transaction/transaction_manager.cpp:119-173 | an update that got as far as any index is undone exactly in the maps |
| `Rollback.KeepsWhen` | src/transaction/transaction_manager.cpp:105-175 | undoing a write never empties an index exactly if the table has a row before and after and the write is not an update of the only row |
| `Rollback.Table.UndoWrite` | src/transaction/transaction_manager.cpp:108-174 | one write record is undone in all indexes and the table; it succeeds with all roots kept exactly if no index is emptied at any moment |
| `Rollback.Table.Abort` | src/transaction/transaction_manager.cpp:105-175 | from any point of a transaction, undoing the write set back to front restores the records and every index, all usable, exactly if the table never is without rows on the way and no update was of the only row; without indexes always |
| `Rollback.OnlyRowUpdated` | src/transaction/transaction_manager.cpp:144-154 | a table with one row: its update cannot be rolled back |
| `Rollback.FirstRowInserted` | src/transaction/transaction_manager.cpp:138-140 | a table without rows: rolling back its first insert leaves no usable index |
| `Rollback.SlotTaken` | src/execution/executor_insert.h:61-72 | a position chosen by two transactions: the rollback of one removes the committed row of the other |
| `Planner.PopConds` | src/optimizer/planner.cpp:55-70 | exactly the conditions that pass the test are taken, none is lost or doubled, and the others keep their order |
| `Planner.PushMeaning` | src/optimizer/planner.cpp:72-113 | a condition over two joined tables is added exactly once, at a join whose subtree holds both, and nothing else changes |
| `Planner.PushLoses` | src/optimizer/planner.cpp:72-113 | a filter on one table that is in the tree reports success and is attached nowhere |
| `Planner.PushKeepsTabs` | src/optimizer/planner.cpp:72-113 | whatever is pushed, the tables stay, and a tree with a missing child keeps it |
| `Planner.PushSided` | src/optimizer/planner.cpp:83-110 | a pushed comparison goes to the lowest join over its two tables, its left side to the left |
| `Planner.PopScan` | src/optimizer/planner.cpp:115-128 | finds the scan of a table, marks it and notes its name |
| `Planner.MakeScans` | src/optimizer/planner.cpp:162-176 | one scan per table; what remains are the comparisons across tables, in order; the scans are right exactly if same-table comparisons are on the first table |
| `Planner.JoinFirst` | src/optimizer/planner.cpp:199-224 | the first condition joins its two tables; the join has both children exactly if it compares two tables |
| `Planner.JoinNext` | src/optimizer/planner.cpp:226-264 | each further condition joins one or two new tables, is pushed down, or is lost, the last exactly if it is a filter on a table already mentioned |
| `Planner.JoinTree` | src/optimizer/planner.cpp:193-268 | all join conditions together: every table brought in and every condition not lost is in the tree once |
| `Planner.JoinRest` | src/optimizer/planner.cpp:270-276 | tables without conditions are joined by cross products |
| `Plan.CompareLaws` | src/common/common.h:225-240 | the six operators are those of one linear order |
| `Plan.HoldsMeaning` | src/common/common.h:225-240 | what a condition asks of the stored values, operator by operator |
| `Plan.HoldsLocal` | src/common/common.h:225-240 | conditions look only at the rows that the combination names |
| `Planner.MakeOneRel` | src/optimizer/planner.cpp:157-280 | for every query that analysis accepts: the tree answers the query exactly if the first join condition compares two tables, same-table comparisons are on the first table, and no ON filter is lost; comparisons of two tables sit at the join that brings them together, left side to the left |
| `Plan.PlanMeaning` | src/optimizer/planner.cpp:157-280 | a plan without repeated tables and with every condition in place yields exactly the filtered product |
| `Planner.PlanQuery` | src/optimizer/planner.cpp:157-280 | the plan yields exactly the row combinations that satisfy the conditions it keeps; with none lost, all WHERE and ON conditions |
| `Planner.LostFilter` | src/optimizer/planner.cpp:226-264 | a query whose ON filter is lost, and a row it delivers wrongly |
| `Planner.MissingChild` | src/optimizer/planner.cpp:199-224 | a query whose first ON condition is a filter: the join lacks a child |
| `Planner.Misplaced` | src/optimizer/planner.cpp:55-70 | a query whose same-table comparison ends up at the scan of another table |
| `Executor.Executor.BeginTuple` | src/execution/executor_nestedloop_join.h:55-74 | starts or restarts the iterator at the first element of its sequence |
| `Executor.Executor.NextTuple` | src/execution/executor_nestedloop_join.h:76-94 | moves to the next element of the left-major sequence of pairs that satisfy the conditions |
| `Executor.Executor.IsEnd` | src/execution/executor_nestedloop_join.h:105-105 | true exactly behind the last element |
| `Executor.Executor.Next` | src/execution/executor_nestedloop_join.h:96-103 | the current element |
| `Executor.Executor.FindPair` | src/execution/executor_nestedloop_join.h:78-93 | the nested search stops at the next pair in order or at the end |
| `Executor.Executor.SkipRows` | src/execution/executor_seq_scan.h:58-88 | a scan stops at the next row that satisfies its conditions |
| `Executor.EvalMeaning` | src/execution/executor_nestedloop_join.h:55-105 | the sequence of a plan, nested to any depth, holds exactly the combinations the plan yields |
| `Executor.EvalNoRepeats` | src/execution/executor_nestedloop_join.h:55-105 | each combination occurs once |
| `Executor.Execute` | src/execution/executor_nestedloop_join.h:55-105 | running the iterators to the end delivers exactly that sequence |
| `Executor.RunQuery` | src/optimizer/planner.cpp:139-153 | planning and running a query delivers each row combination that satisfies the conditions kept exactly once; with none lost, exactly one existing row per table, all WHERE and ON conditions satisfied |
| `LruReplacer.LruReplacer.Victim` | src/replacer/lru_replacer.cpp:24-43 | takes out the frame whose last unpin is the oldest |
| `LruReplacer.LruReplacer.Pin` | src/replacer/lru_replacer.cpp:50-63 | removes exactly that frame from the candidates |
| `LruReplacer.LruReplacer.Unpin` | src/replacer/lru_replacer.cpp:71-83 | makes a frame the youngest candidate |
| `BufferPool.BufferPool.FindVictim` | src/storage/buffer_pool_manager.cpp:18-45 | the first free frame, and without one the unpinned frame whose last unpin is the oldest, its page leaving the table |
| `BufferPool.BufferPool.UpdatePage` | src/storage/buffer_pool_manager.cpp:53-69 | a dirty page is written out before its frame changes hands |
| `BufferPool.BufferPool.FetchPage` | src/storage/buffer_pool_manager.cpp:78-113 | no page changes for any reader, only an unpinned frame changes hands, and no frame is found exactly if every frame is pinned and the page is not resident; for a page that does not exist it fails and leaves zeros behind as that page |
| `BufferPool.MissingFetched` | src/storage/buffer_pool_manager.cpp:78-113 | fetching a page that does not exist fails first and then hands out zeros |
| `BufferPool.BufferPool.NewPage` | src/storage/buffer_pool_manager.cpp:184-207 | the new page reads as zeros, all others as before, and only an unpinned frame changes hands |
| `BufferPool.BufferPool.UnpinPage` | src/storage/buffer_pool_manager.cpp:121-151 | no page changes for any reader; the pool stays in order exactly if this is not the last, clean unpin of an unreported change |
| `BufferPool.BufferPool.FlushPage` | src/storage/buffer_pool_manager.cpp:158-177 | the page is on disk as seen, nothing else changes |
| `BufferPool.BufferPool.FlushAll` | src/storage/buffer_pool_manager.cpp:245-271 | of one file or all: every dirty page is on disk as seen and clean, pages of other files and their frames are unchanged, no page changes for any reader, and every unpinned page is on disk as seen |
| `BufferPool.FlushMeaning` | src/storage/buffer_pool_manager.cpp:245-271 | the same page by page for frames and disk |
| `BufferRun.ValueMeaning` | src/storage/buffer_pool_manager.cpp:78-271 | the value of a page in a history is what the last event that set it gave it |
| `BufferRun.OwesMeaning` | src/storage/buffer_pool_manager.cpp:121-151 | a user owes a report exactly if it has set the page and not unpinned it as dirty since |
| `BufferRun.HoldersMeaning` | src/storage/buffer_pool_manager.cpp:78-151 | a user gains and gives up pins with its own fetches and unpins only |
| `BufferRun.LastHolder` | src/storage/buffer_pool_manager.cpp:121-151 | the last holder of a page that differs from the disk owes a report, so the rules exclude its clean unpin |
| `BufferRun.Step` | src/storage/buffer_pool_manager.cpp:78-271 | every operation of a user who holds a pin for writes and unpins dirty what it wrote keeps the invariant, flushes in between included |
| `BufferRun.Run` | src/storage/buffer_pool_manager.cpp:78-271 | over every run within the rules, by any number of users, each fetch shows the last contents written to the page, pins match holders, and the run stops exactly where a rule is broken |
| `Bitmap.Set` | src/record/bitmap.h:25-25 | sets one bit and no other, as the update of the page's sequence of bits |
| `Bitmap.Reset` | src/record/bitmap.h:28-28 | clears one bit and no other, as the update of the page's sequence of bits |
| `Bitmap.HighestFirst` | src/record/bitmap.h:18-28 | the first bit of a byte is the highest |
| `Bitmap.NextBit` | src/record/bitmap.h:41-51 | the next position with the wanted bit, or the end |
| `RecordFile.LayoutFits` | src/record/rm_manager.h:46-49 | for every record size from 1 to 512 the bitmap covers all slots, the slots lie in the page without overlap, and one record more would exceed the space set aside |
| `RecordFile.RmFileHandle.CreatePageHandle` | src/record/rm_file_handle.cpp:170-207 | a page with room, no record changes |
| `RecordFile.RmFileHandle.GetFreeRecord` | src/record/rm_file_handle.cpp:33-43 | always finds a free position on a listed page |
| `RecordFile.RmFileHandle.InsertRecord` | src/record/rm_file_handle.cpp:51-76 | adds exactly one record at a position that was free; counts and free list stay right |
| `RecordFile.RmFileHandle.InsertRecordAt` | src/record/rm_file_handle.cpp:83-98 | writes exactly one position; the free list stays sound exactly if the page is not filled or its own link leads through other pages with room, as on every listed page |
| `RecordFile.StaleLink` | src/record/rm_file_handle.cpp:93-96 | for pages of any size, a run of inserts, deletes and positioned inserts after which the free list starts at a full page |
| `RecordFile.RmFileHandle.DeleteRecord` | src/record/rm_file_handle.cpp:105-124 | removes the record if there is one and no other; a full page gets back on the list unless the list is empty; the list stays sound exactly if the slot was occupied, the page does not have exactly one free slot, or the page is not listed |
| `RecordFile.RmFileHandle.UpdateRecord` | src/record/rm_file_handle.cpp:133-144 | changes the record if there is one and never makes a slot occupied |
| `RecordFile.RmFileHandle.GetRecordCount` | src/record/rm_file_handle.cpp:233-245 | the sum of the page counts is the number of records |
| `RecordFile.RmScan.constructor` | src/record/rm_scan.cpp:18-41 | starts at the first record, or at the end |
| `RecordFile.RmScan.Next` | src/record/rm_scan.cpp:46-71 | moves to the next record |
| `RecordFile.ScanAll` | src/record/rm_scan.cpp:18-86 | visits every record exactly once in the order of positions |

## Left out

- FLOAT columns, numeric casts and string comparison through str_len: column values are abstract values of a total order with a least and a greatest element, so the positive FLOAT lower sentinel of the index scan is not modelled.
- `get_count` and the count(*) shortcut, aggregation, sorting and projection: easy folds, or not implemented in the source.
- Page pins inside the B+ tree, the page counter in the index header and reuse of released index pages: tree pages are taken to be resident, and a released page is simply no longer part of the tree.
- `delete_page` and `delete_all_pages` of the buffer pool, and page-number allocation of the disk manager: a new page number is a parameter.
- Record-level and intention locks: nothing calls them; the group mode is overwritten on grant, which is right for S and X only.
- Waiting itself: a blocked thread is a request that is not granted, and waking up is a step of its own.
- The free list can lose pages, as in the source; nothing is claimed about finding all free space.
- The choice between sequential and index scan in the planner: both deliver the rows that satisfy the conditions of the scan.
- Rebuilding the indexes at the end of undo, and DDL: file handling around operations that are modelled.
- Parser, network server, client and printing: input and output.
- LogRecovery.RecoveryManager.Recover: logs of one epoch, that is, without records from before an earlier recovery.
- Rollback.Table.Abort: one table, whose indexes all have their roots when the transaction begins; records left half restored by a failed rollback are not described.
- LogManager.LogManager.Commit: the logging side of commit only; releasing the locks between logging and flushing is a step of `TwoPhase`, and what it means for durable commits is `TwoPhase.EarlierEndsDurable`.
- BufferRun.Run: users fetch pages that exist; what a fetch of a missing page does is in `BufferPool.BufferPool.FetchPage`.
- IxNode.InsertOnPage: the tree modules change sequences of slots; that the arrays in memory follow is proved for insertion and deletion of one pair, not for the moves of several pairs in a split or merge.
