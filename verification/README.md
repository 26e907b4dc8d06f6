# Verification of minidb's engine

minidb is a small SQL engine: rows live in version chains under a B+ tree,
transactions read through snapshots and write under two-level locks, a write-ahead
log makes commits durable, and a planner pushes predicates into scans. This project
models that machinery in Dafny and proves what it is for. `dafny verify
dfyconfig.toml` checks everything.

| file | part of minidb | main results |
|---|---|---|
| `BPlusTree.dfy` | B+ tree on a mutable node heap with parent pointers and a leaf chain | agrees with a finite map; every split keeps separator bounds, order, equal leaf depth, parent pointers and capacity; the leaf chain is the tree's leaves in order; height bound; deletion never needs the collapse loop |
| `Versions.dfy`, `Chains.dfy`, `Manager.dfy` | versions, snapshots, version chains, transaction ids | snapshot verdicts never change; exactly when collection is invisible; exactly when a write after an aborted writer takes effect |
| `Table.dfy` | tables of version chains over the tree | each operation as a change of the chain map; scans are complete and ordered; a scan returns the same list before and after a collection |
| `Mvcc.dfy`, `Progress.dfy` | runs of transactions | exactly which writes, decided on whatever snapshot, keep the engine in order; in every run of such writes a snapshot reads the committed rows of its moment; no lost updates under READ COMMITTED; collection changes no read; a transaction on a free key goes through, down to the disk, and changes that row alone |
| `Wal.dfy`, `Recovery.dfy`, `Durability.dfy`, `Torn.dfy`, `Sessions.dfy`, `Database.dfy` | the log, its torn tail, replay, crashes, restarts, checkpoints | exactly when readers get after replay what the committed transactions left; while no transaction writes under an id finished in an earlier session, a crash at any byte behind the synced ones keeps exactly the committed effects; exactly when reused ids leave the next session recoverable, after any number of restarts; exactly when truncation and checkpoints lose nothing |
| `Locks.dfy`, `Deadlock.dfy`, `Waiting.dfy` | lock manager, waiter lists and deadlock search | two-level safety over all runs; crossed requests always show as a cycle; exactly when escalation and the mode merge are safe; the search finds a cycle if and only if there is one; the reported cycle is shortest |
| `Expressions.dfy`, `Evaluation.dfy`, `Planner.dfy`, `Executor.dfy`, `Joins.dfy`, `Pushdown.dfy`, `Dropped.dfy` | three-valued expressions, planner, joins, point lookup | what every operator gives on values; which pairs of rows a join lists, in which order, and NULL in every cell of a padded row; pushdown keeps the result sequence for any INNER and LEFT JOINs; what the executor returns, and exactly when that is what the query means; the primary-key lookup is the full scan |
| `Parser.dfy`, `Grammar.dfy` | recursive-descent expression parser | the parser reads exactly the phrases of a grammar written down without it, and no phrase has two trees; parsing inverts a printer with minimal parentheses; only printable trees are ever parsed |

Objects that minidb updates in place are classes here (tree nodes, tree, table,
transaction manager, log file, lock manager, database, parser). Their methods are
proved against functions on values, and the theorems are about those functions and
about runs of steps.

## Where the code departs from its intent

The model follows the code. Each departure has a lemma with an instance of it and,
where the code does meet its intent on some inputs, the condition that decides it.

- Deleting while scanning (`table.py:198-200`) steps over the neighbour of a key it
  removed, so that a checkpoint writes a deleted row: `CheckpointWritesDeletedRow`
  is a run that ends so. It happens exactly when some leaf holds two neighbouring
  keys without a live version: `SkimCompleteExactly`, `SparedNoneExactly`,
  `CheckpointExactly`, and for scans after the restart `RestartScansExactly`.
- The collector's mark can be above what a live snapshot needs: `GcMarkTooHigh`,
  `GcInvisibleExactly`, `GcMarkSafeExactly`.
- Updates and deletes mark the last version, not the visible one:
  `DeleteAfterAbortIsLost`, `DeleteTakesEffectExactly`; `UpdateAfterAbortKeepsOld`,
  `UpdateReplacesExactly`.
- The mark of a delete that was rolled back stays, and the next delete of the row
  reports none and does nothing: `DeleteAfterRollback`, `DeleteReportsExactly`.
- A write can be decided on a snapshot older than its row lock: a SERIALIZABLE
  transaction keeps the snapshot it has pinned (`executor.py:162-164`, `326-333`), and
  a primary-key move keeps that of its statement (`executor.py:246-270`). An insert
  can then put a second row under a key (`InsertOnOldSnapshot`), an update can bring
  back a deleted row (`UpdateRevivesDeleted`) or overwrite a committed one
  (`PinnedUpdateLosesWrite`). `InsertReplacesExactly` and `UpdateOfGoneExactly` say
  when, on one chain; `WritesExactly` says which writes keep the engine in order,
  `FreshDecides` and `CurrentDecides` what a caller could check before the write, and
  `RecoveredInvExactly` when a restart is in order. After a restart a deleted row can
  be read again (`DeletedRowIsRead`); `RecoveryIsExact` says for which keys.
- Ids above the highest committed one are given out again after a restart. A
  committed transaction can be lost (`AcknowledgedCommitIsLost`) and an uncommitted
  row can come back, at once (`ReusedIdResurrects`) or beneath a row that is deleted
  later (`BuriedRowIsRead`). `SessionsExactly` says for which files every next session
  is recovered exactly, in terms of what readers get.
- A torn last line longer than a block loses the whole log: `LongTornLineLosesLog`,
  `TruncationKeepsLinesExactly`.
- `{S, IX}` becomes `X` without a second look: `MergeBesideReader`,
  `MergeIsSafeExactly`.
- Escalation drops row locks before it has the table: `EscalationGivesRowAway`,
  `EscalationProtectsExactly`, `GuardLostExactly`.
- ON conjuncts local to the right table are set aside and never applied:
  `StruckConjunctShows` is a query that returns a row too many. `SelectReturns` says
  what comes back, `SelectIsReferenceExactly`, `InnerSelectExactly` and
  `OneJoinSelectExactly` when that is what the query means, and
  `PushdownKeepsMeaning` that the plan intends the right thing.
- Without a WHERE, a base-local ON conjunct makes the query raise:
  `AbsentWhereRaises`, `AbsentWhereRaisesExactly`.
- `v BETWEEN low AND high` is UNKNOWN where `low <= v AND v <= high` is FALSE because one
  bound is NULL and the other violated: `NotBetweenLosesRow`,
  `BetweenIsBothBoundsExactly`.
- The parser reads and forgets a NOT before a comparison sign, always:
  `NotBeforeSignIsLost`.

## Model

| member | source | states |
|---|---|---|
| `BPlusTree.Node.Traverse` | minidb/storage/bptree.py:248-257 | the child slot is the number of separators not above the key, by binary search |
| `BPlusTree.Node.TraverseLt` | minidb/storage/bptree.py:259-268 | the same count, the number of separators not above the key, by the second of the two search loops |
| `BPlusTree.BPlusTree.constructor` | minidb/storage/bptree.py:42-50 | an empty tree is a valid tree over the empty map |
| `BPlusTree.BPlusTree.Find` | minidb/storage/bptree.py:146-159 | the leaf whose interval contains the key, and the slot where the key is or would go |
| `BPlusTree.BPlusTree.Get` | minidb/storage/bptree.py:58-64 | the map's value for the key, or none |
| `BPlusTree.BPlusTree.Insert` | minidb/storage/bptree.py:69-79 | the map with the key set; the tree stays valid, through any cascade of splits; one more entry was created only for a new key |
| `BPlusTree.BPlusTree.Delete` | minidb/storage/bptree.py:83-98 | the map without the key, whether it was there, and no node, root or leaf changed |
| `BPlusTree.BPlusTree.Range` | minidb/storage/bptree.py:104-119 | exactly the entries with low <= key < high, in strictly increasing order |
| `BPlusTree.BPlusTree.LeftmostLeaf` | minidb/storage/bptree.py:161-165 | the first leaf of the chain |
| `BPlusTree.BPlusTree.SplitLeafNode` | minidb/storage/bptree.py:167-179 | an overfull leaf becomes two linked leaves of a valid tree over the same map |
| `BPlusTree.BPlusTree.InsertInParent` | minidb/storage/bptree.py:181-201 | a freshly split pair is taken up by its parent, or by a new root, and validity is restored |
| `BPlusTree.BPlusTree.SplitInternalNode` | minidb/storage/bptree.py:203-214 | an overfull internal node becomes two, its children reparented, over the same map |
| `BPlusTree.BPlusTree.CollapseAfterDelete` | minidb/storage/bptree.py:216-220 | the tree is valid afterwards over the same map, and nothing happens if the root has keys |
| `BPlusTree.BPlusTree.Depth` | minidb/storage/bptree.py:135-141 | the depth, at most logarithmic in the number of entries ever created |
| `BPlusTree.BPlusTree.RemoveOthers` | minidb/storage/table.py:198-200 | the delete-while-scanning loop: each leaf keeps what such a scan leaves of it |
| `BPlusTree.SplitLeafInv` | minidb/storage/bptree.py:167-179 | dividing a leaf keeps bounds, order, contents, the chain and the capacities, up to the parent's missing entry |
| `BPlusTree.SplitInternalInv` | minidb/storage/bptree.py:203-214 | dividing an internal node keeps the same, children's parent pointers included |
| `BPlusTree.AdoptInv` | minidb/storage/bptree.py:193-201 | putting separator and right node beside the left one restores the invariant |
| `BPlusTree.GrowRootInv` | minidb/storage/bptree.py:184-191 | a new root over the pair restores it, all leaves one level deeper |
| `BPlusTree.SetLeafInv` | minidb/storage/bptree.py:71-77 | changing one leaf's entries keeps the invariant if the leaf fits the new map |
| `BPlusTree.LeafUnique` | minidb/storage/bptree.py:146-159 | no two leaves are responsible for one key |
| `BPlusTree.ChainIsTreeOrder` | minidb/storage/bptree.py:161-179 | following `next` from the leftmost leaf visits exactly the tree's leaves, in tree order |
| `BPlusTree.HeightBound` | minidb/storage/bptree.py:203-214 | an internal root of level h has at least 2 * (order/2 + 1)^(h-1) leaves |
| `BPlusTree.SplitChildAt` | minidb/storage/bptree.py:193-201 | the left half stands in its parent exactly where its upper bound is the separator |
| `BPlusTree.CollapseLoose` | minidb/storage/bptree.py:216-220 | replacing an empty internal root by its only child keeps contents, chain and bounds |
| `BPlusTree.SkimCompleteExactly` | minidb/storage/table.py:198-200 | in one leaf, the scan removes every dead key if and only if no two dead keys are neighbours |
| `BPlusTree.SparedNoneExactly` | minidb/storage/table.py:198-200 | over all leaves, no dead key survives the scan if and only if no leaf has two neighbouring dead keys |
| `BPlusTree.BPlusTree.LayoutOk` | minidb/storage/bptree.py:161-179 | the leaves of a valid tree hold its keys, each leaf sorted |
| `Versions.PickMeaning` | minidb/storage/table.py:236-244 | the picked version is the newest the snapshot sees, and none is picked only if none is seen |
| `Versions.DeleteReportsExactly` | minidb/storage/table.py:127-141 | a delete answers that it deleted exactly if it changed the chain; it answers no exactly if the transaction has no unmarked version of its own and the last version already carries a mark |
| `Versions.DeleteAfterRollback` | minidb/storage/table.py:137-139 | a row whose delete was rolled back is still read, and deleting it again answers no |
| `Versions.CollectsExactly` | minidb/storage/table.py:205-233 | a version survives collection exactly if its creator has not aborted below the mark and no transaction that committed below it has deleted it |
| `Versions.GcKeepsPick` | minidb/storage/table.py:205-233 | collection keeps the picked version of every live snapshot whose horizon is respected |
| `Versions.GcInvisibleExactly` | minidb/storage/table.py:205-233 | collection is invisible on all chains if and only if no transaction committed below the horizon is hidden from the snapshot |
| `Versions.GcMarkTooHigh` | minidb/txn/manager.py:239-246 | a state in which the collector's mark removes a version a live snapshot reads |
| `Manager.SnapshotStable` | minidb/txn/manager.py:62-87 | no later begin, commit or abort changes what a snapshot says of any id |
| `Manager.RunExtends` | minidb/txn/manager.py:194-223 | ids are never forgotten and outcomes are final |
| `Manager.BootstrapOk` | minidb/txn/manager.py:225-233 | after recovery all ids up to the highest replayed one count as committed, and the books are in order |
| `Manager.GcMarkSafeExactly` | minidb/txn/manager.py:239-246 | the mark is low enough for a snapshot if and only if nothing it found active has committed below the mark |
| `Manager.GcMarkIsHighest` | minidb/txn/manager.py:239-246 | the mark is the highest bound, the next id included, below which no transaction is active |
| `Manager.TransactionManager.Begin` | minidb/txn/manager.py:134-143 | a new id, active, in the books |
| `Manager.TransactionManager.TakeSnapshot` | minidb/txn/manager.py:163-171 | the snapshot holds the next id and the ids active now |
| `Manager.TransactionManager.Commit` | minidb/txn/manager.py:203-207 | the state change of a commit: an active transaction becomes committed, nothing else changes |
| `Manager.TransactionManager.Abort` | minidb/txn/manager.py:218-222 | the state change of an abort: an active transaction becomes aborted, nothing else changes |
| `Manager.TransactionManager.Bootstrap` | minidb/txn/manager.py:225-233 | the loop sets the books as recovery needs them |
| `Chains.ReadUpToDate` | minidb/storage/table.py:236-244 | a snapshot that knows all commits in a chain sees one version: its own pending one, or the committed row |
| `Chains.InsertKeeps` | minidb/storage/table.py:93-113 | inserting where neither a committed nor an own row is keeps the chain invariant with the new row pending |
| `Chains.InsertKeepsExactly` | minidb/storage/table.py:93-113 | an insert by the lock holder, decided on any snapshot, keeps it if and only if the chain has no live version and no unfinished row of its own |
| `Chains.UpdateKeeps` | minidb/storage/table.py:115-125 | an update of a chain that passes the guard makes the new row the pending one |
| `Chains.UpdateKeepsExactly` | minidb/storage/table.py:115-125 | an update keeps the chain invariant if and only if no live version stands before the last and the last is not one deleted for good |
| `Chains.DeleteKeeps` | minidb/storage/table.py:127-141 | a delete of a chain that passes the guard makes absence pending, dropping a version the transaction itself created |
| `Chains.DeleteKeepsExactly` | minidb/storage/table.py:127-141 | a delete keeps the chain invariant if and only if it leaves no version live but such as it has marked |
| `Chains.WriteHidden` | minidb/storage/table.py:93-141 | no write is seen by a snapshot that does not see the writer |
| `Chains.CommitKeeps` | minidb/txn/manager.py:203-208 | a commit makes the pending value the committed one |
| `Chains.AbortKeeps` | minidb/txn/manager.py:210-223 | an abort leaves the committed value |
| `Chains.UntouchedIsWritable` | minidb/storage/table.py:115-141 | a chain without ids of aborted transactions can be written |
| `Chains.DeleteTakesEffectExactly` | minidb/storage/table.py:137-141 | a committed delete removes the row if and only if the live version was last and unmarked |
| `Chains.UpdateReplacesExactly` | minidb/storage/table.py:124-125 | a committed update leaves exactly one live version, and a chain that means the new row, if and only if the live version was last |
| `Chains.DeleteAfterAbortIsLost` | minidb/storage/table.py:137-141 | a row updated by an aborted transaction and then deleted is still read |
| `Chains.UpdateAfterAbortKeepsOld` | minidb/storage/table.py:124-125 | after an aborted and a committed update the old row is live beneath the new one, and comes back when that is deleted |
| `Chains.InsertReplacesExactly` | minidb/engine/executor.py:162-174 | a committed insert leaves exactly one live version, and a chain that means the new row, if and only if the key had no committed row |
| `Chains.InsertOnOldSnapshot` | minidb/engine/executor.py:255-270 | an insert decided on a snapshot older than the row lock leaves two visible rows, one of which survives a delete |
| `Chains.UpdateOfGoneExactly` | minidb/storage/table.py:124-125 | an update of a row whose deletion is committed leaves the deleted row live while it is active, and for good if it aborts, if and only if the mark it overwrites is that deletion's |
| `Chains.UpdateRevivesDeleted` | minidb/engine/executor.py:326-333 | under a pinned snapshot an update brings a committed deletion back for every reader |
| `Chains.GcKeepsInv` | minidb/storage/table.py:205-233 | collection keeps every chain's meaning |
| `Mvcc.StepInv` | minidb/storage/table.py:93-141 | every step of a run, writes decided on any snapshot among them as long as their chain passes the guard, keeps chains, snapshots and buffered writes in agreement with the reference database |
| `Mvcc.WritesExactly` | minidb/engine/executor.py:162-174 | an insert, update or delete by the holder of the row lock keeps that agreement if and only if the chain passes its guard, whatever snapshot decided it |
| `Mvcc.FreshDecides` | minidb/engine/executor.py:326-333 | an insert passes if and only if a snapshot taken now finds the key free, and an update of a row that snapshot finds if and only if the live or own version is last |
| `Mvcc.CurrentDecides` | minidb/engine/executor.py:326-333 | an older snapshot's verdict is the right one if no transaction it does not know has committed a write of the key |
| `Mvcc.LockedIsCurrent` | minidb/engine/executor.py:326-333 | a snapshot taken after the row lock knows every commit of the key |
| `Mvcc.PinnedUpdateLosesWrite` | minidb/engine/executor.py:203-253 | a run in which two increments commit, one under a pinned snapshot, and the row has grown by one |
| `Mvcc.SnapshotReadsItsMoment` | minidb/txn/manager.py:163-171 | in every run whose writes pass their guards, a snapshot sees at most one version of a key its transaction has not written: the row of the transactions committed when it was taken |
| `Mvcc.PostLockRead` | minidb/engine/executor.py:326-333 | under the row lock a snapshot that knows every commit of the key, fresh or pinned, reads the transaction's own write or the last committed row |
| `Mvcc.NoLostUpdates` | minidb/engine/executor.py:205-253 | in every interleaving of transactions that rewrite one row under its lock and an up-to-date snapshot, the final row is the initial one with every committed rewrite applied |
| `Mvcc.CollectionInvisible` | minidb/storage/table.py:205-233 | a collection step changes no pick of a snapshot in use, skipped keys or not |
| `Mvcc.UntouchedKeysWritable` | minidb/storage/table.py:115-141 | the update or delete of a row found under the lock by an up-to-date snapshot passes its guard while no aborted id stands in the chain |
| `Progress.TransactionGoesThrough` | minidb/engine/executor.py:162-333 | from any state in order, on any key that is not locked and that no aborted writer has touched: begin, lock, look, write, commit or abort, and release are possible one after the other, and change that row alone, or none |
| `Progress.CollectionGoesThrough` | minidb/txn/manager.py:239-246 | collection may run whenever its mark is above no snapshot in use and no transaction one of them found active |
| `Tables.Table.Insert` | minidb/storage/table.py:93-113 | the chain map with a new version at the key |
| `Tables.Table.Update` | minidb/storage/table.py:115-125 | the transaction's own version rewritten, or the last one marked and a new one added; fails on a missing key |
| `Tables.Table.Delete` | minidb/storage/table.py:127-141 | the own version taken out, or the last one marked unless it already is; the answer is true exactly if the key's chain has changed; an error on a key without chain |
| `Tables.Table.VisibleVersion` | minidb/storage/table.py:160-166 | the picked version of the key's chain |
| `Tables.Table.Scan` | minidb/storage/table.py:168-176 | each key with a visible version, once, in key order, with its row |
| `Tables.Table.Gc` | minidb/storage/table.py:187-233 | every chain is replaced by its survivors; dead keys go, except exactly those that the scan over the leaves as they were steps over |
| `Tables.GcScansSame` | minidb/storage/table.py:205-233 | a snapshot in use scans the same list before and after a collection |
| `Tables.EnumeratesOnce` | minidb/storage/table.py:168-176 | the rows a snapshot sees determine the list its scan returns |
| `Tables.Table.AllocateRowid` | minidb/storage/table.py:66-74 | consecutive row ids |
| `Tables.Table.BumpRowid` | minidb/storage/table.py:85-88 | with a primary key column the counter stays; otherwise it moves past a replayed key and never back |
| `Wal.KeyRoundTrip` | minidb/txn/wal.py:36-46 | decoding an encoded key, nested tuples included, gives the key |
| `Wal.TruncationKeepsLinesExactly` | minidb/txn/wal.py:72-95 | truncation leaves the longest prefix of complete lines if and only if the last block has a newline or the file has none |
| `Wal.SmallFilesKeepLines` | minidb/txn/wal.py:72-95 | a file of one block always keeps its lines |
| `Wal.LongTornLineLosesLog` | minidb/txn/wal.py:72-95 | a torn line longer than a block empties a log with complete lines |
| `Wal.WalFile.TruncateTornTail` | minidb/txn/wal.py:72-95 | the file afterwards is what truncation makes of it |
| `Wal.ReopenAndAppend` | minidb/txn/wal.py:187-217 | after truncation and any appends, reading gives the old complete records followed by the new ones |
| `Wal.ReadStops` | minidb/txn/wal.py:199-206 | reading stops at the first line that does not parse and passes over blank ones |
| `Wal.UnfinishedLine` | minidb/txn/wal.py:198-199 | an unfinished last line counts as a line |
| `Wal.ReadWal` | minidb/txn/wal.py:187-217 | the transactions with a commit and no abort record, and their records in log order |
| `Recovery.RecoveryIsExact` | minidb/engine/database.py:97-149 | replay of the committed records never fails; a snapshot taken afterwards reads at a key what the committed transactions' write sets leave there in commit order, if and only if they leave a row or no committed insert of the key had met one |
| `Recovery.ReplayedIsRead` | minidb/storage/table.py:236-244 | every snapshot taken after recovery picks from a replayed chain the newest version that is not deleted |
| `Recovery.ReadIsValueExactly` | minidb/storage/table.py:236-244 | the row read is that of the last version, or none if that is deleted, if and only if no undeleted version lies beneath a deleted last one |
| `Recovery.OneEndExactly` | minidb/engine/database.py:121-149 | replay leaves no undeleted version beneath the last one of a key if and only if no committed insert of the key met a row |
| `Recovery.CommitCounts` | minidb/txn/wal.py:187-217 | a commit record in a valid log is never revoked |
| `Recovery.CrashedNeverCommits` | minidb/txn/wal.py:187-217 | a transaction unfinished at a crash has no effect on recovery |
| `Recovery.LocksHold` | minidb/engine/executor.py:220-246 | rows are logged under their locks, so that in a valid log at most one unfinished transaction has written a key |
| `Durability.RecoveredInvExactly` | minidb/engine/database.py:97-119 | the recovered engine satisfies the invariant of running engines if and only if no insert of a committed transaction met a row |
| `Durability.CheckpointExactly` | minidb/engine/database.py:161-188 | a checkpoint writes the committed rows if and only if no leaf holds two neighbouring keys without a live version |
| `Durability.CheckpointWritesDeletedRow` | minidb/engine/database.py:161-188 | a run that deletes two neighbouring rows, after which a checkpoint writes one of them |
| `Durability.CheckpointKeepsRows` | minidb/engine/database.py:161-188 | otherwise checkpoint, emptied log and restart keep the committed rows |
| `Durability.SysStepInv` | minidb/txn/wal.py:130-153 | every step of the engine with its log, crashes included, keeps memory, log and synced prefix in agreement |
| `Durability.CrashKeepsExactlyCommitted` | minidb/txn/wal.py:130-153 | a crash anywhere behind the synced prefix leaves the effects of exactly the transactions whose commit record survived, all acknowledged commits among them |
| `Durability.EveryRun` | minidb/txn/manager.py:194-208 | that agreement holds in every run with any number of crashes, at any point behind the synced prefix, and of checkpoints |
| `Durability.RecoveryNeverStuck` | minidb/engine/database.py:121-149 | in every run, whatever the file holds behind the synced prefix can be replayed |
| `Progress.CommitIsDurable` | minidb/txn/manager.py:194-208 | with its begin, data and commit records and the sync, such a transaction gets as far as the acknowledgement, and its row is there after any crash |
| `Progress.CancelGoes` | minidb/txn/manager.py:210-223 | a running transaction that has not written its commit record can abort, with an abort record if it has begun one, and no committed row changes |
| `Progress.CheckpointGoes` | minidb/engine/database.py:161-188 | an engine just opened can write its checkpoint again, and writes the same rows |
| `Sessions.SessionsExactly` | minidb/engine/database.py:113-119 | for any file recovery can read, whatever sessions wrote it: after every session that can follow, and whose committed inserts meet no row, recovery gives readers exactly the committed rows, if and only if no id that may be given out is aborted in the file or left records there that fail or change a row, and no two of them bury an undeleted version beneath a chain's end |
| `Sessions.NextRecoveredExactly` | minidb/engine/database.py:113-119 | after any session that commits under such ids, a key reads as its committed row if and only if there is one or no committed insert of the key had met one; the file is in order again if and only if none had for any key |
| `Sessions.EveryRestart` | minidb/engine/database.py:113-119 | through any number of sessions and restarts that commit under harmless ids and insert where no row is, readers get after recovery exactly what all of them committed |
| `Sessions.ShownIsRead` | minidb/storage/table.py:236-244 | the rows a file is said to show are what every transaction that begins after recovery from it reads |
| `Sessions.OneSession` | minidb/engine/database.py:97-119 | what a session has written is such a file; a key shows its committed row if and only if there is one or no committed insert of the key had met one |
| `Sessions.MeaningIsLast` | minidb/txn/wal.py:187-217 | the committed rows of a log are the last writes of the transactions it counts as committed |
| `Sessions.AbortedIdLosesCommit` | minidb/txn/wal.py:210-216 | an id aborted in the file loses the commit of the transaction that gets it next |
| `Sessions.LeftoverComesBack` | minidb/txn/wal.py:210-216 | records left by an id spoil the recovery of the next session that commits under it, even if it touches nothing |
| `Sessions.UnionUnburied` | minidb/engine/database.py:121-149 | if no two of some ids bury a version of a key, replaying the records of all of them does not |
| `Sessions.BuriedComesBack` | minidb/storage/table.py:236-244 | two ids that bury a version: a session that commits under both and deletes the row leaves a file from which readers get that version |
| `Sessions.BuriedRowIsRead` | minidb/storage/table.py:236-244 | three sessions after which every reader gets, in place of a deleted row, one that no transaction committed |
| `Sessions.DeletedRowIsRead` | minidb/engine/executor.py:162-174 | a log with an insert decided on an old snapshot, after whose recovery every reader gets a row for a deleted key |
| `Sessions.AcknowledgedCommitIsLost` | minidb/txn/wal.py:210-216 | an aborted transaction, a restart and an acknowledged commit that the next recovery does not find |
| `Sessions.LostRowIsGone` | minidb/engine/database.py:113-119 | an uncommitted insert is gone after a crash and its id is next |
| `Sessions.ReusedIdResurrects` | minidb/engine/database.py:113-119 | the same id committing later brings that insert back |
| `Torn.CrashAtByte` | minidb/txn/wal.py:72-95 | a crash at any byte behind the synced ones: the file opened again holds the lines up to some log entry, and recovery from them gives exactly the transactions committed there, all acknowledged ones among them, if and only if the last block has a newline or the file none |
| `Torn.ShortLinesSuffice` | minidb/txn/wal.py:72-95 | that is so whenever every line is shorter than a block |
| `Torn.ReadBack` | minidb/txn/wal.py:187-217 | reading a file of complete lines gives the records written |
| `Databases.Database.ApplyRecord` | minidb/engine/database.py:121-149 | one record replayed on the table; fails on an update or delete of a missing key |
| `Databases.Database.LoadCheckpoint` | minidb/engine/database.py:100-111 | one committed version per checkpointed row, and the saved row counter |
| `Databases.Database.Recover` | minidb/engine/database.py:97-119 | the table after recovery is the replay of the committed records and the manager is reopened above them; for a log that came about in order nothing fails, and every later snapshot reads a key's committed row if and only if there is one or no committed insert of the key had met one |
| `Databases.Database.Checkpoint` | minidb/engine/database.py:161-188 | refused while a transaction is active; otherwise the file lists, in key order, the newest version of each chain that the collection over the leaves as they were leaves, and the row counter |
| `Databases.Database.Restart` | minidb/engine/database.py:161-199 | checkpoint and recovery from its file and the emptied log: the same rows with one version each, the same row counter, fresh transaction books |
| `Databases.RestartScansExactly` | minidb/engine/database.py:97-188 | any scan of the reopened table returns what the next reader would have got before the checkpoint if and only if no leaf then held two neighbouring keys without a live version |
| `Databases.CounterIsPast` | minidb/engine/database.py:141-141 | after replay the row counter of a table without primary key column is past every inserted key |
| `Databases.CounterIsLeast` | minidb/storage/table.py:85-88 | and no further than that; a table with a primary key column keeps the saved counter |
| `Locks.MergeIsSafeExactly` | minidb/txn/locks.py:170-182 | recording a granted mode keeps compatibility with a holder if and only if it is not S meeting IX beside IS |
| `Locks.MergeBesideReader` | minidb/txn/locks.py:170-182 | beside a reader in IS, S followed by IX leaves X |
| `Locks.StepSafe` | minidb/txn/locks.py:142-232 | each acquire, escalation and release step keeps two-level safety |
| `Locks.LockSafety` | minidb/txn/locks.py:142-311 | over all runs of IX, S, X table and X row requests: compatible table holders, one holder per row, rows locked only under an intention, S or X on a table excludes others' rows, books equal holders |
| `Locks.ReleaseClears` | minidb/txn/locks.py:291-313 | release removes the transaction from every resource and book and nobody else |
| `Locks.EscalationProtectsExactly` | minidb/txn/locks.py:211-232 | a row given up by escalation can be locked by another transaction if and only if somebody else held the table |
| `Locks.EscalationGivesRowAway` | minidb/txn/locks.py:206-232 | whenever two writers share a table, the request that reaches the threshold gives its row away |
| `Locks.TwoWritersShare` | minidb/txn/locks.py:187-209 | such a state is reached |
| `Locks.EscalatesExactly` | minidb/txn/locks.py:187-209 | a row request escalates if and only if it is free to go through and fills the threshold |
| `Locks.GuardLostExactly` | minidb/txn/locks.py:187-232 | a transaction loses its hold on a row in a step if and only if the step is its release, or a row request of its own that is free to go through and fills the threshold while another transaction holds the table |
| `Locks.EscalatedStaysAlone` | minidb/txn/locks.py:187-232 | after an escalation that got the table, until release, nobody else holds the table or any of its rows |
| `Locks.RowGrantedExactly` | minidb/txn/locks.py:187-209 | a row request goes through if and only if the table leaves room for an intention and nobody else holds the row |
| `Locks.TableGrantedExactly` | minidb/txn/locks.py:142-158 | a table request goes through if and only if the others hold: for IS nothing in X, for IX nothing but IS and IX, for S nothing but IS and S, for X nothing |
| `Locks.ModeTables` | minidb/txn/locks.py:31-36 | two modes go together exactly if no right of one disturbs one of the other, one covers another exactly if it gives all its rights, and the merge is the weakest mode that covers both |
| `Waiting.TableRequestWaits` | minidb/txn/locks.py:96-130 | a refused table request puts the transaction among the table's waiters, a granted one takes it off, and nobody else's waiting changes |
| `Waiting.RowRequestWaits` | minidb/txn/locks.py:187-209 | a refused row request puts it among the waiters of the table or the row that refused it, a granted one leaves it off the row's, and nobody else's waiting changes |
| `Waiting.OtherStepsWait` | minidb/txn/locks.py:291-313 | release takes nobody off a waiter list; giving up a wait takes off just the one |
| `Waiting.RefusedPointsAtHolder` | minidb/txn/locks.py:96-130 | a request for a row that another transaction holds is refused, takes no lock from anybody, and makes an edge to the holder |
| `Waiting.CrossedRequestsAreSeen` | minidb/txn/locks.py:237-271 | two transactions that ask for each other's row are both refused, and the graph built from the locks then has a cycle through both |
| `Waiting.CrossedFromEmpty` | minidb/txn/locks.py:237-271 | such a deadlock from a manager without locks |
| `Locks.LockManager.CanGrant` | minidb/txn/locks.py:80-91 | grantable if and only if no other holder clashes |
| `Locks.LockManager.Acquire` | minidb/txn/locks.py:96-130 | one pass of the wait loop: granted and off the waiters, or among them (`Waiting`) |
| `Locks.LockManager.AcquireTable` | minidb/txn/locks.py:142-158 | covered, granted and recorded, or waiting |
| `Locks.LockManager.Record` | minidb/txn/locks.py:170-182 | the merged mode goes to the books and the resource |
| `Locks.LockManager.AcquireRow` | minidb/txn/locks.py:187-209 | intention first, then the row, then escalation at the threshold; an escalated table goes through the table lock |
| `Locks.LockManager.DoEscalate` | minidb/txn/locks.py:211-232 | all row locks dropped, then the table upgraded if it can be |
| `Locks.LockManager.ReleaseEverything` | minidb/txn/locks.py:291-313 | the state without anything of the transaction |
| `Locks.LockManager.Leave` | minidb/txn/locks.py:128-130 | a call that gives up leaves the waiters |
| `Deadlock.BuildGraph` | minidb/txn/locks.py:242-249 | an edge from each waiter to each other holder of what it waits for, and no other |
| `Deadlock.Search` | minidb/txn/locks.py:256-270 | terminates; whatever it collects lies on cycles; nothing only if the start is on none |
| `Deadlock.Detect` | minidb/txn/locks.py:251-271 | none if and only if no transaction is on a cycle; otherwise the youngest of those found, all on cycles, one downstream of every deadlocked transaction |
| `Deadlock.DetectDeadlock` | minidb/txn/locks.py:251-271 | the victim is itself waiting and on a cycle of the wait-for graph |
| `Deadlock.CycleFor` | minidb/txn/locks.py:273-286 | a shortest cycle through the transaction, or the transaction alone if there is none |
| `Deadlock.DeadlockIsSeen` | minidb/txn/locks.py:242-271 | any group whose members block each other whatever the others do contains a cycle of the graph |
| `Deadlock.EdgesAreConflicts` | minidb/txn/locks.py:242-249 | in reachable lock states every edge of a refused waiter is a real conflict |
| `Expressions.ThreeValued` | minidb/engine/expressions.py:137-154 | AND, OR and NOT are the least, the greatest and the mirror of FALSE < UNKNOWN < TRUE |
| `Expressions.SplitHolds` | minidb/engine/expressions.py:280-284 | a predicate of truth values holds if and only if all its conjuncts do |
| `Expressions.ChainHolds` | minidb/engine/planner.py:191-197 | likewise a chain |
| `Expressions.ChainOfSplit` | minidb/engine/expressions.py:280-293 | splitting and chaining again keeps the value |
| `Evaluation.IntsCompare` | minidb/engine/expressions.py:176-188 | the six comparisons of integers are the relations of integers |
| `Evaluation.StringsCompare` | minidb/engine/expressions.py:176-188 | those of strings go by the first difference |
| `Evaluation.StringsOrdered` | minidb/engine/expressions.py:176-188 | of two different strings exactly one precedes the other |
| `Evaluation.BooleansCompare` | minidb/engine/expressions.py:176-188 | a Boolean compares like 0 or 1 |
| `Evaluation.MixedCompare` | minidb/engine/expressions.py:176-200 | a string and an integer are different and not ordered |
| `Evaluation.IntsCompute` | minidb/engine/expressions.py:189-200 | arithmetic of integers; division by zero raises |
| `Evaluation.StringsCompute` | minidb/engine/expressions.py:189-200 | `+` joins strings, `*` repeats one, everything else on strings raises |
| `Evaluation.NullsSpread` | minidb/engine/expressions.py:173-174 | NULL in, NULL out, for every operator but AND, OR, BETWEEN and the NULL tests |
| `Evaluation.NullOperand` | minidb/engine/expressions.py:124-129 | minus, NOT, UPPER and LOWER of NULL are NULL |
| `Evaluation.NullTests` | minidb/engine/expressions.py:130-133 | IS NULL holds exactly of NULL, IS NOT NULL of everything else |
| `Evaluation.ErrorsSpread` | minidb/engine/expressions.py:122-157 | no operator skips an operand that raises |
| `Evaluation.NotOf` | minidb/engine/expressions.py:127-129 | NOT of any value |
| `Evaluation.TruthsConnect` | minidb/engine/expressions.py:137-154 | AND and OR of truth values are least and greatest |
| `Evaluation.IntsConnect` | minidb/engine/expressions.py:137-154 | AND and OR of integers, which are neither TRUE nor FALSE |
| `Evaluation.BetweenIsBothBoundsExactly` | minidb/engine/expressions.py:159-165 | BETWEEN holds exactly if both bounds do; it has the value of their AND exactly unless one bound is NULL and the other violated |
| `Evaluation.NotBetweenLosesRow` | minidb/engine/expressions.py:159-165 | a NOT BETWEEN that loses a row which the negated AND keeps |
| `Evaluation.LikeOfTexts` | minidb/engine/expressions.py:167-171 | LIKE compares texts and NOT LIKE is its negation |
| `Evaluation.Functions` | minidb/engine/expressions.py:217-226 | UPPER and LOWER convert the text of their first argument; no other function is evaluated row by row |
| `Evaluation.SubqueryValue` | minidb/engine/expressions.py:229-257 | a subquery has the value that running it on the current rows gives |
| `Evaluation.BareName` | minidb/engine/expressions.py:81-85 | a bare name is the cell of the first table that has the column |
| `Evaluation.QualifiedName` | minidb/engine/expressions.py:67-75 | a qualified name is the cell of the table of that alias |
| `Evaluation.UnknownName` | minidb/engine/expressions.py:66-90 | a name that no table has raises |
| `Evaluation.SplitIsFlat` | minidb/engine/expressions.py:280-284 | splitting leaves no AND on top of a conjunct |
| `Evaluation.SplitOfChain` | minidb/engine/expressions.py:280-293 | splitting a chain gives back its members in order |
| `Planner.LocalValue` | minidb/engine/planner.py:57-77 | a local conjunct has the same value in its table's scan as in any join |
| `Planner.LocalExactly` | minidb/engine/planner.py:57-77 | a conjunct is local exactly if there is no subquery in it and each of its names is a column of the table, bare or under its alias |
| `Planner.MoveOn` | minidb/engine/planner.py:162-173 | moving every local ON conjunct to its scan keeps the joined rows, for any joins |
| `Planner.MoveWhere` | minidb/engine/planner.py:143-160 | filtering joined rows by conjuncts of INNER-joined tables is filtering the scans |
| `Planner.PushdownPreserves` | minidb/engine/planner.py:115-173 | pushdown keeps the sequence of result rows for any number of INNER and LEFT JOINs |
| `Planner.AsBuiltDropsOn` | minidb/engine/executor.py:582-600 | what the executor does with a plan is the query without the right-local ON conjuncts |
| `Executor.PlanSelect` | minidb/engine/planner.py:115-188 | each conjunct goes to the list its tables and join kinds decide, in order |
| `Executor.WherePlaced` | minidb/engine/planner.py:143-160 | a WHERE conjunct goes to the scan of the first table it is local to, base or joined by INNER JOIN, and stays behind the joins exactly if there is none |
| `Executor.OnPlaced` | minidb/engine/planner.py:162-173 | an ON conjunct is set aside exactly if it is local to the right table; else, in an INNER JOIN, one local to the base table goes to its scan |
| `Executor.ScanTable` | minidb/engine/executor.py:556-580 | the accepted rows of the table, by point lookup when keys are pinned |
| `Executor.KeysPinned` | minidb/engine/executor.py:484-509 | no key, one key, or none because equalities disagree |
| `Executor.PinsExactly` | minidb/engine/executor.py:528-553 | a conjunct pins a key exactly if it equates the key column with a literal that its type can take |
| `Executor.LooksAtOne` | minidb/engine/executor.py:556-580 | with a key pinned, a scan looks at one entry at most, the one under that key |
| `Executor.WriteLooksAtOne` | minidb/engine/executor.py:509-527 | with a key pinned, UPDATE and DELETE evaluate their WHERE on one row at most |
| `Executor.PassesExactly` | minidb/engine/expressions.py:116-118 | a row passes a predicate exactly if it evaluates to TRUE, and raises exactly if that raises |
| `Executor.ConvertStores` | minidb/storage/schema.py:125-181 | conversion gives a value as the column stores it and leaves such a value alone unless it is too long |
| `Executor.JoinLoop` | minidb/engine/executor.py:582-600 | each left row with its matches, padded in a LEFT JOIN without any |
| `Joins.LoopsList` | minidb/engine/executor.py:582-600 | whenever no predicate raises, the loops list each matching pair, in the order of the rows, and in a LEFT JOIN each left row without a match once, with NULL in every cell on the right |
| `Joins.JoinLists` | minidb/engine/executor.py:582-600 | the joins that queries mean list the same |
| `Joins.PaddedNames` | minidb/engine/executor.py:585-599 | in a padded row every column of the right table is NULL, so that IS NULL holds of it |
| `Joins.KeepLists` | minidb/engine/executor.py:570-601 | a filter lists what passes, in order |
| `Executor.RunSelect` | minidb/engine/executor.py:555-601 | plan, scans, joins and residual filter |
| `Executor.IndexPathIsScan` | minidb/engine/executor.py:484-580 | whenever the full scan goes through, the point lookup returns the same rows, for any conjuncts |
| `Executor.WriteCandidatesAreScan` | minidb/engine/executor.py:511-527 | the same for the rows UPDATE and DELETE lock |
| `Executor.ConvertedEqual` | minidb/storage/schema.py:125-181 | a stored key equal to a literal equals the converted literal |
| `Pushdown.SelectReturns` | minidb/engine/executor.py:555-601 | a SELECT over unambiguous truth-valued predicates returns the rows of the query with right-local ON conjuncts struck out |
| `Pushdown.SelectIsReference` | minidb/engine/executor.py:555-601 | without such conjuncts it returns the rows of joining unfiltered tables with whole ONs and filtering by the whole WHERE |
| `Dropped.PlainSameExactly` | minidb/engine/executor.py:582-600 | two queries with the same tables and different ONs, INNER or LEFT, return the same list if and only if their joins admit the same of the combinations that the WHERE keeps |
| `Dropped.SelectIsReferenceExactly` | minidb/engine/executor.py:555-601 | a SELECT returns its meaning if and only if no combination that its WHERE keeps is admitted with its whole ONs and not without the conjuncts set aside, or the other way round |
| `Dropped.InnerSelectExactly` | minidb/engine/executor.py:555-601 | over INNER JOINs: if and only if every combination let through also passes the conjuncts set aside |
| `Dropped.OneJoinSelectExactly` | minidb/engine/executor.py:555-601 | for one join with any WHERE: if and only if no pair that misses a conjunct set aside gets past the WHERE, and where such pairs hide that a left row has no match, its padded row does not either |
| `Dropped.SelectUnharmed` | minidb/engine/executor.py:555-601 | if no pair misses such a conjunct at any join, the SELECT returns its meaning, for any joins and rows |
| `Dropped.StruckConjunctShows` | minidb/engine/executor.py:582-600 | a query with such a conjunct, its meaning, and the row too many that it returns |
| `Dropped.AbsentWhereRaises` | minidb/engine/planner.py:143-171 | a query without WHERE that raises although its meaning has two rows |
| `Pushdown.PushdownKeepsMeaning` | minidb/engine/planner.py:115-173 | pushdown as intended always has that meaning |
| `Pushdown.AbsentWhereRaisesExactly` | minidb/engine/planner.py:143-171 | without WHERE and with a base-local ON conjunct, the query raises if and only if the base scan looks at a row |
| `Grammar.RoundTrip` | minidb/sql/parser.py:426-597 | at every level, parsing the printed tree and going on is having read the tree |
| `Grammar.ParseInvertsPrint` | minidb/sql/parser.py:426-597 | parsing a printed tree returns it and stops at its end |
| `Grammar.ReparseIsSame` | minidb/sql/parser.py:426-597 | printing a parsed tree and parsing it again gives the same tree |
| `Grammar.ParsesExactly` | minidb/sql/parser.py:426-597 | before anything that cannot go on with it, the parser reads a tree off some tokens exactly if they are a phrase of the grammar for it |
| `Grammar.LevelReads` | minidb/sql/parser.py:426-597 | whatever the parser has consumed is a phrase for the tree it returns |
| `Grammar.Unambiguous` | minidb/sql/parser.py:426-597 | no tokens are a phrase for two trees |
| `Grammar.PrintedIsPhrase` | minidb/sql/parser.py:426-597 | whatever is printed is a phrase for the tree |
| `Grammar.PlusMeansNothing` | minidb/sql/parser.py:528-535 | plus signs before a sign-level tree are read and mean nothing, however many |
| `Grammar.WordAsColumn` | minidb/sql/parser.py:559-597 | a keyword where an operand is wanted names a column exactly if it is NOT, DISTINCT or a plain one |
| `Grammar.WordAfterDot` | minidb/sql/parser.py:592-596 | behind a table's name and a dot every keyword is a column |
| `Grammar.ReservedIsError` | minidb/sql/parser.py:31-36 | words of clauses and operators are errors where an operand is wanted, whatever follows |
| `Parsing.OrFine` | minidb/sql/parser.py:426-597 | the parser returns only printable trees |
| `Grammar.InListParses` | minidb/sql/parser.py:492-510 | an IN list is read as the OR of equalities, negated or not |
| `Parsing.MembershipHolds` | minidb/sql/parser.py:502-509 | that OR holds if and only if one of the equalities does |
| `Parsing.NotBeforeSignIsLost` | minidb/sql/parser.py:452-459 | a NOT before a comparison sign makes no difference |
| `Parsing.Parser.OrLevel` | minidb/sql/parser.py:429-434 | the cursor method for OR returns and consumes what the grammar says |
| `Parsing.Parser.AndLevel` | minidb/sql/parser.py:436-441 | likewise for AND |
| `Parsing.Parser.NotLevel` | minidb/sql/parser.py:443-446 | likewise for NOT |
| `Parsing.Parser.ComparisonLevel` | minidb/sql/parser.py:448-490 | likewise for the comparison loop |
| `Parsing.Parser.InRest` | minidb/sql/parser.py:492-510 | likewise after IN |
| `Parsing.Parser.AdditiveLevel` | minidb/sql/parser.py:512-518 | likewise for sums |
| `Parsing.Parser.MultiplicativeLevel` | minidb/sql/parser.py:520-526 | likewise for products |
| `Parsing.Parser.UnaryLevel` | minidb/sql/parser.py:528-535 | likewise for signs |
| `Parsing.Parser.PrimaryLevel` | minidb/sql/parser.py:537-566 | likewise for literals, parentheses, calls and columns |
| `Parsing.Parser.Call` | minidb/sql/parser.py:568-581 | likewise for calls |
| `Parsing.Parser.ColumnRest` | minidb/sql/parser.py:583-597 | likewise for column references |

## Left out

- Threads, condition variables, latches, timeouts and wake-ups: every operation is one atomic step; checking a lock and recording its holder are one step.
- A grant that was true when checked and is stale when recorded (`locks.py:102-104`, `154-158`) does not occur here, because of the above.
- A transaction waits in at most one call, so that a resource's waiters are a set here; the event of each waiter is not modelled.
- Disk errors; fsync means that the synced prefix becomes the written prefix.
- JSON text: records and checkpoints are values; only the line structure of the log file is modelled.
- Several tables: a key of the transaction and log models stands for a pair of table and key; tables exist from committed transactions, and CREATE TABLE with its missing rollback is not part of this model.
- A crash between replacing the checkpoint and emptying the log: the two are one step.
- Keys and ids are integers in the tree, table and transaction models; Python's comparison of mixed key types is not modelled.
- `gc` drops the latch between reading the chains and replacing them (`table.py:214`, `232`): a version written in between is overwritten, or its new key deleted, by `replace_chains` (`table.py:190-200`). A collection is one step here, so that this does not happen.
- Sharing of version objects between chains and readers: chains are values that the tree stores.
- The count of reclaimed versions that `gc` returns, and `count_visible`.
- Full serializability: a SERIALIZABLE writer keeps a snapshot that may be stale after waiting. The results on reads hold for every snapshot as long as no writer, on whatever snapshot, fails the guard of `WritesExactly`; the one on lost updates is for READ COMMITTED.
- Mvcc.SnapshotReadsItsMoment: writes that fail their guard are not steps of a run, though the code makes them, after an aborted writer or on a snapshot older than the row lock; `WritesExactly` shows that each of them breaks the agreement, and their effect on one chain is in `Chains`.
- Mvcc.StepInv: likewise.
- Mvcc.NoLostUpdates: a row stays locked until its transaction releases everything, as it does unless the transaction escalates while another one holds the table; `GuardLostExactly` says exactly when that is.
- Durability.EveryRun: two kinds of writes are not steps of these runs, nor of `SysStepInv`, `CrashKeepsExactlyCommitted` and `RecoveryNeverStuck`: writes that fail the guard of `WritesExactly` (what readers get after a restart is in `RecoveryIsExact`, whether the engine is in order in `RecoveredInvExactly`), and writes under an id that an earlier session finished or left behind (exactly when they do no harm is in `SessionsExactly`). Refused escalations do not occur in them, as in the runs of `Mvcc`.
- Sessions.SessionsExactly: asks that the committed inserts of the next session meet no row; what the others lead to is in `NextRecoveredExactly`, key by key, where the ids are harmless.
- Durability.SysStepInv: see `EveryRun`.
- Durability.CrashKeepsExactlyCommitted: see `EveryRun`.
- Durability.RecoveryNeverStuck: see `EveryRun`.
- Dropped.PlainSameExactly: asks that no right table of a LEFT JOIN holds a row of NULLs only, which could not be told from padding; `SelectUnharmed` does not.
- Dropped.SelectIsReferenceExactly: asks the same.
- Dropped.OneJoinSelectExactly: asks the same.
- Manager.TransactionManager.Commit: the commit record before the state change and the release of locks after it are steps of their own, in `Durability` and `Locks`.
- Manager.TransactionManager.Abort: likewise.
- Parsing.Parser.InRest: IN with a SELECT is an error here, because statements are not parsed.
- Parsing.Parser.PrimaryLevel: a SELECT in parentheses is an error here, for the same reason.
- Deadlock.Detect: does not say that the victim is the youngest transaction on any cycle, as the source's documentation does, because the search stops at the first cycle it meets from a node; it is the youngest of those found.
- Pushdown.SelectReturns: predicates are unambiguous and evaluate to TRUE, FALSE or UNKNOWN on all rows their tables can form; what raises otherwise is not described.
- Shared row locks and IS requests, which the executor does not make, are outside the run theorem of `Locks`; the mode tables, the merge and the methods cover them.
- `min_key` and `__contains__` of the tree.
- Floats, and with them FLOAT columns and true division's value; LIKE matching, UPPER, LOWER and the text of a value are parameters of the evaluator.
- Subqueries: their SELECT is not parsed or run; in evaluation a subquery is a function of the current rows, and names do not fall back to enclosing queries.
- Case folding of names: names are lower-case already; a primary-key column with capital letters, on which the point lookup raises KeyError, is not modelled.
- Projection, grouping, aggregates, DISTINCT, ORDER BY, LIMIT and the remaining statement parsers, the lexer, the catalog, EXPLAIN text, sessions and the command line.
