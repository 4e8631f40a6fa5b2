# A verified model of RyuDB

RyuDB keeps each table as an immutable base, a timestamped delta of insert batches and tombstones, and a
write-ahead log. It rewrites a query before running it, and it computes group-bys and window functions by fast
column operations. This project models those parts in Dafny and proves what they promise, for every input, run
or reachable state.

## What is proved

**Storage.** The rows a reader sees are the base and the insert batches minus timestamp-aware tombstones. The
store is a state machine (commit, snapshot, restore, checkpoint, restart, crash inside a commit). Every run of it
ends where a plain database of tables and saved copies ends after the same steps (`Store.RunRefines`). A crash at any byte of the log
write leaves all of a commit or none of it. Every run of autocommit INSERT, DELETE and UPDATE gives the outcomes
and the rows of a plain table edited directly (`Statements.RunOfStatementsRefines`), and keeps every primary key, UNIQUE
key and NOT NULL column (`Statements.ConstraintsAlwaysHold`). The engine, the log, the delta
store and the transaction are also modelled as the mutable objects they are, and each method is proved against
the state machine.

**Sessions.** COMMIT publishes exactly what the transaction last saw. In any interleaving of requests, what an
open transaction reads changes only through its own statements, and until it commits nobody else can tell it
is there. The read/write lock is a step machine over any
number of threads: exclusion, writer priority, no lost wake-up, no deadlock, no starvation.

**Queries.** Plans have a bag semantics over named rows with three-valued WHERE and seven join kinds. Predicate
pushdown, projection pruning and join-side selection each preserve results, and so does the optimizer that runs
the three in a row (`Optimizer.OptimizePreservesBag`, and with ORDER BY and LIMIT `Optimizer.OptimizePreservesTopRows`). The row-id algorithms for outer, semi and anti joins compute
the joins they stand for. A correlated subquery lowered to a join gives each outer row the value of running the
subquery for that row.

**Fast aggregates and windows.** The dense group-by kernel returns filter-then-group-by for any block split and
any order of atomic additions. Window functions computed from boundaries and prefix sums equal counting and
folding over the rows themselves.

**Pages.** The Parquet page-header parser terminates on every byte string, stays inside its chunk, and on success
its pages tile the chunk. A chunk written by the protocol's rules parses into exactly the pages that were written
(`PageWriter.ChunkReadBack`). Its integers invert the "Integer encoding" section of the Apache Thrift Compact Protocol
specification.

## Where the code departs from what it promises

Each departure comes with the condition under which the code is right, for all inputs: exact where the lemma's
name ends in `Iff`, and with a concrete input on which the code fails.

- A key deleted and reinserted in one explicit transaction stays hidden by its own tombstone
  (`Transactions.TxnInsertIsPlainIff`, `Transactions.ReinsertExample`).
- COMMIT does not look for commits made since BEGIN, so two sessions can insert one key twice
  (`Transactions.CommitKeepsKeysIff`, `Server.RacingSessionsDuplicate`).
- An exception raised out of a writer's wait can leave readers asleep on a guard that is already false, with
  nobody left to wake them (`RwLock.InterruptLosesWakeupIff`, `RwLock.InterruptStrandsReader`).
- Pushdown descends through a nested outer join without asking which side it preserves
  (`NullSide.RightConjunctIff`, `NullSide.LeftConjunctIff`, `PushdownExample.NestedOuterJoinCounterexample`).
- Pushdown takes a column of a derived table for a column of the same name in a table that is not joined, and
  sends the conjunct to a scan without that column (`Pushdown.DestHasColumnsIff`,
  `PushdownExample.DerivedColumnCounterexample`). The code then fails to find the column; the model reads it as NULL.
- A star over a subquery, as in `SELECT * FROM t WHERE k IN (SELECT k FROM s)`, loses the columns of t that the
  query does not mention: the subquery's projection switches pruning on, and the star has none to ask for them
  (`Pruning.PruningPreservesIff`, `Pruning.StarOverSubqueryCounterexample`).
- Pruning under a DISTINCT that looks at unprojected rows, of a scan or of joins and filters over scans, merges
  rows that differ in an unreferenced column (`Pruning.DistinctIff`, `Pruning.TopDistinctIff`,
  `Pruning.DistinctOverScanCounterexample`).
- A LIMIT inside a correlated EXISTS survives the rewrite and then cuts the rows of all keys together
  (`Decorrelate.LimitedExistsIff`, `Decorrelate.LimitedExistsCounterexample`).
- EXISTS over an aggregate without GROUP BY is true of every outer row, but becomes a semi join on the keys
  (`Decorrelate.AggregateExistsIff`, `Decorrelate.AggregateExistsCounterexample`).
- LIMIT and OFFSET are peeled off a correlated scalar aggregate, so a subquery without a row gets a value
  (`ScalarSubquery.PeeledLimitIff`, `ScalarSubquery.PeeledLimitCounterexample`).
- NOT IN becomes an anti join, which keeps rows that SQL drops once a NULL is involved
  (`Decorrelate.NotInIsAntiIff`, `Decorrelate.NotInCounterexample`).
- The merge lets NULL keys meet, SQL does not (`JoinAlgorithms.MergeIsSqlJoinIff` for inner joins,
  `NullKeys.LeftMergeIsSqlIff`, `NullKeys.RightMergeIsSqlIff` and `NullKeys.FullMergeIsSqlIff` for outer ones,
  `JoinAlgorithms.NullKeysMeetCounterexample`).
- Without COUNT(*) the dense kernel drops groups whose aggregates are all 0 (`DenseAggregate.DenseIsGroupByIff`,
  `DenseAggregate.ZeroSumCounterexample`).
- The page parser's "correct field-skip" does not skip what the Compact Protocol writes. The length of a binary
  is plain there and read as zigzag, so the skip is off for every non-empty binary (`PageFormat.BinarySkipExactIff`,
  `PageFormat.BinarySkipCounterexample`). A list of up to 14 elements has no count, and the skip reads one from its
  elements: an empty list is never skipped (`CompactLists.EmptyShortListNever`), one of integers only when its first
  integer happens to count the others (`CompactLists.ShortIntListIff`), one of bytes or doubles only when its first
  bytes happen to (`CompactLists.ShortFixedListIff`), and one of booleans, which take a byte each and are skipped as
  taking none, only when it holds a single false (`CompactLists.ShortBoolListIff`). A longer list has a plain count,
  which is read as zigzag: odd counts are refused, even ones halved (`CompactLists.LongListLands`), so only the empty
  one is skipped (`CompactLists.LongListIff`, `CompactLists.LongIntListIff`, `CompactLists.LongBoolListIff`). So is the
  count of a map, and its one byte of types is read as two (`CompactLists.MapLands`). Inputs:
  `CompactLists.ShortListCounterexample`, `CompactLists.MapCounterexample`.

## Files

| files | part |
|---|---|
| `Values`, `Bags`, `Sums` | cells, rows and keys; lists seen as bags; sums in any order |
| `Mvcc`, `WalFormat`, `Wal`, `Deltas`, `Store`, `SnapshotNames` | visibility, log records, log, delta, the durable state machine and its named snapshots |
| `Statements`, `Transactions`, `StatementRows`, `Server`, `Engine` | DML against plain tables, transactions, statements told by rows, connections, the mutable engine |
| `RwLock` | the read/write lock |
| `Plans`, `Pushdown`, `PushdownExample`, `NullSide`, `Pruning`, `JoinBags`, `Sides`, `Optimizer` | plans and the three rewrites |
| `JoinAlgorithms`, `NullKeys`, `Decorrelate`, `ScalarSubquery` | joins by row id and with NULL keys, subqueries as joins |
| `WindowColumns`, `Windows`, `Ranking`, `RunningWindows` | window functions |
| `MixedRadix`, `DenseKernel`, `DenseAggregate` | the dense group-by kernel |
| `Varints`, `PageFormat`, `PageWriter`, `CompactLists`, `PageParser` | Parquet page headers, read and written |

## Model

| member | source | states |
|---|---|---|
| `Mvcc.KeepIffNoneKills` | ryudb/exec/executor.py:840-906 | reducing each kind of tombstone to its newest timestamp keeps a row exactly when no single tombstone kills it (DELETE up to its timestamp, UPDATE strictly before) |
| `Mvcc.CommitIsPlainEdit` | ryudb/exec/executor.py:774-906 | the merge after a commit is the plain edit of the merge before it, for any mix of inserts and both tombstone kinds |
| `Mvcc.SameCommitInserts` | ryudb/exec/executor.py:852-862 | rows inserted by a commit lose only the keys its own DELETE tombstones name |
| `Mvcc.TagParts` | ryudb/exec/executor.py:821-850 | base tagged 0, batches with their timestamps and buffered rows with the sentinel, concatenated in order |
| `Mvcc.MergeDelta` | ryudb/exec/executor.py:774-906 | the merge loop returns exactly the visible rows, in order, transaction buffer included |
| `WalFormat.PayloadRoundTrip` | ryudb/wal.py:97-119 | parsing a built payload gives back the commit, batch for batch and kind for kind |
| `WalFormat.NextReadBack` | ryudb/wal.py:97-119 | a whole record reads back as itself, whatever bytes follow |
| `WalFormat.TornRecordRefused` | ryudb/wal.py:151-194 | a record cut short at any byte is refused, whatever the checksum function |
| `WalFormat.DamagedRecordRefused` | ryudb/wal.py:160-190 | a record whose payload was damaged in place is refused whenever the checksum differs |
| `WalFormat.NextIsLocal` | ryudb/wal.py:151-194 | reading a record depends on no byte past its end |
| `WalFormat.ReadRecord` | ryudb/wal.py:160-190 | the header and checksum steps compute the record at the head of the bytes, or refuse |
| `WalFormat.ReadPayload` | ryudb/wal.py:287-307 | the payload loop parses exactly what the layout says, or fails |
| `WalFormat.RecordExample` | ryudb/wal.py:53-119 | one record byte by byte: length, checksum, timestamp, count, kind, name and frame |
| `WalFormat.WalCodingSound` | ryudb/wal.py:53-119 | the on-disk layout has the properties recovery rests on: round trip, torn tails refused, locality, progress |
| `Wal.ReplayAfterCrash` | ryudb/wal.py:151-194 | a log followed by a write cut at any byte replays to the log, plus the cut record exactly when all of it arrived, and keeps just those bytes |
| `Wal.ReplayIdempotent` | ryudb/wal.py:151-194 | on any bytes, replaying what replay kept gives the same records and cuts nothing more |
| `Wal.CutBytes` | ryudb/wal.py:232-275 | cutting the file at a timestamp leaves exactly the bytes of the records up to it |
| `Wal.CutIsPrefix` | ryudb/wal.py:232-275 | the cut keeps a prefix, and in an increasing log exactly the records up to the timestamp |
| `Wal.ReadRecords` | ryudb/wal.py:158-190 | the replay loop returns every record before the first bad one and where it starts |
| `Wal.WriteAheadLog.Replay` | ryudb/wal.py:151-194 | returns the good records and cuts the file after them; a disabled log is left alone |
| `Wal.WriteAheadLog.WriteCommit` | ryudb/wal.py:196-228 | appends the whole record, or on a fault leaves the file as it was; an empty commit writes nothing |
| `Wal.WriteAheadLog.Truncate` | ryudb/wal.py:232-275 | cuts the file at the first record past the timestamp or the first bad one |
| `Deltas.ApplyAllPerTable` | ryudb/delta.py:98-118 | a commit appends to each table its own frames, in order, under the commit's timestamp |
| `Deltas.UpToAfterCommit` | ryudb/delta.py:85-96 | entries up to a timestamp are untouched by any later commit |
| `Deltas.CutThenReplay` | ryudb/delta.py:146-168 | cutting an increasing log at a timestamp and replaying equals replaying and then rewinding to it |
| `Deltas.PruneChannel` | ryudb/delta.py:146-168 | the rewind loop keeps exactly the entries up to the timestamp, drops emptied tables, and reports exactly the tables that lost something |
| `Deltas.DeltaStore.Append` | ryudb/delta.py:98-104 | one insert batch at the end of its table's list, nothing else changed |
| `Deltas.DeltaStore.AppendTombstone` | ryudb/delta.py:106-118 | one tombstone, with its kind, at the end of its table's list |
| `Deltas.DeltaStore.Rewind` | ryudb/delta.py:146-168 | both channels rewound to the timestamp; the tables that lost an entry |
| `Deltas.DeltaStore.Clear` | ryudb/delta.py:170-175 | both channels of the table emptied, other tables untouched |
| `Store.CommitViews` | ryudb/exec/executor.py:486-517 | reads after a commit are the plain edit of reads before it, and reads at any older timestamp are what they were |
| `Store.RunRefines` | ryudb/exec/executor.py:442-692 | after every run of commits (failed writes included), snapshots, restores, checkpoints, restarts and crashes, the tables in view and the copies behind every known name are those of a plain database that took the same steps |
| `Store.LogAlwaysConsistent` | ryudb/exec/executor.py:286-298 | in every reachable state the file replays whole, with strictly increasing timestamps up to the counter, to exactly the delta in memory |
| `Store.RecoveryIsExact` | ryudb/exec/executor.py:286-298 | in every reachable state a restart changes no row, and a crash at any byte of a commit shows all of it exactly when its last byte arrived, else none of it |
| `Store.RestoreGivesBackCapture` | ryudb/exec/executor.py:533-579 | after any run that does not re-take the name, restoring a surviving snapshot shows every table exactly as it was at capture |
| `Store.RestoreForgetsLaterNames` | ryudb/exec/executor.py:554-579 | restoring `a` puts counter and tables back to its capture, and a name taken later survives exactly when no timestamp was used between the two captures |
| `Store.CheckpointRemembers` | ryudb/exec/executor.py:585-692 | only names captured at the tip outlive a checkpoint, and they keep their meaning; no visible row changes |
| `SnapshotNames.CaptureKnownIff` | ryudb/exec/executor.py:533-692 | after any run a name is known exactly when no restore went back behind its capture, no checkpoint with something to publish found it below the tip, and there was no restart; it stands for the counter at capture |
| `SnapshotNames.RestoreKeepsOlderNames` | ryudb/exec/executor.py:539-583 | restoring a keeps a name x taken before it, at its timestamp, and restoring x then shows every table as at x's capture |
| `SnapshotNames.TipOutlivesCheckpoint` | ryudb/exec/executor.py:585-692 | a name taken at the tip is still known after a checkpoint and restores the tables as captured |
| `SnapshotNames.CheckpointPublishes` | ryudb/exec/executor.py:585-692 | after a checkpoint the base holds every table as it was in view, and neither memory nor the log holds anything to merge |
| `SnapshotNames.RestartResumes` | ryudb/exec/executor.py:285-298 | a restart resumes the counter at the last record of the log and knows no name |
| `Statements.UpdateReadsSurvivors` | ryudb/exec/executor.py:1216-1318 | the uniqueness check of an UPDATE reads exactly the rows that will stay |
| `Statements.UpdateChecksAgree` | ryudb/exec/executor.py:1216-1318 | an UPDATE, key-changing or not, is accepted exactly when the plain table can take it |
| `Statements.DropMatched` | ryudb/exec/executor.py:1150-1197 | deleting by the matched rows' keys deletes exactly the matched rows |
| `Statements.StatementRefines` | ryudb/exec/executor.py:908-1318 | engine and plain table agree on acceptance, row count and every row; a rejected or failed statement changes nothing; constraints hold afterwards |
| `Statements.RunOfStatementsRefines` | ryudb/exec/executor.py:774-1318 | the same over every run of autocommit INSERT, DELETE and UPDATE, with visible keys distinct at the end |
| `Statements.InsertRejectedIff` | ryudb/exec/executor.py:908-962 | an INSERT with its NOT NULL columns filled is rejected exactly when a key of the primary key or of a UNIQUE constraint repeats in the batch or meets a visible row |
| `Statements.InsertNeedsValues` | ryudb/exec/executor.py:1000-1022 | an INSERT that leaves a NOT NULL column empty is rejected and changes nothing |
| `Statements.ConstraintsAlwaysHold` | ryudb/exec/executor.py:908-1062 | after any run of statements every table keeps its primary key, each UNIQUE key and its NOT NULL columns |
| `StatementRows.AutocommitRows` | ryudb/exec/executor.py:964-1318 | an accepted INSERT appends its rows, DELETE leaves the rows its condition does not hold of, UPDATE leaves those and appends the new ones, all in order; other tables stay |
| `StatementRows.DeleteInTxn` | ryudb/exec/executor.py:1150-1197 | inside a transaction DELETE leaves exactly the rows its condition does not hold of, in order, and reports how many went |
| `StatementRows.InsertInTxn` | ryudb/exec/executor.py:964-1062 | inside a transaction INSERT appends its rows but for keys the transaction has deleted, or is rejected for a repeated key or an empty NOT NULL column and adds nothing |
| `StatementRows.OtherTablesStay` | ryudb/exec/executor.py:964-1197 | a statement inside a transaction leaves every other table as the transaction saw it |
| `StatementRows.UpdateInTxn` | ryudb/exec/executor.py:1216-1250 | UPDATE inside a transaction is refused |
| `StatementRows.KeylessRefuses` | ryudb/exec/executor.py:1150-1250 | a table without a primary key takes no DELETE and no UPDATE |
| `StatementRows.UnknownTableRefused` | ryudb/exec/executor.py:964-1250 | a statement on an unknown table is rejected and changes nothing |
| `Statements.RefinedViewIsBag` | ryudb/exec/executor.py:774-906 | the refined view shows each plain row exactly once |
| `Transactions.CommitKeepsBufferOrder` | ryudb/exec/executor.py:461-484 | whatever order COMMIT takes the tables in, each gets its own buffered frames in buffer order |
| `Transactions.CommitPublishesOwnView` | ryudb/exec/executor.py:461-484 | with no other commit landed since BEGIN, failed ones allowed, COMMIT makes every table show exactly what the transaction last saw |
| `Server.UncommittedIsInvisible` | ryudb/exec/executor.py:519-529 | BEGIN, any statements, ROLLBACK: in any interleaving, restores and checkpoints included unless this transaction alone makes them refused, the store and every other connection end as if those requests had not been made |
| `Server.RollbackCloses` | ryudb/exec/executor.py:519-529 | after ROLLBACK the connection has no transaction and reads what is committed |
| `Server.BeginOpens` | ryudb/exec/executor.py:456-459 | BEGIN opens at the current counter and reads what was committed then; a second BEGIN changes nothing |
| `Server.CommitCloses` | ryudb/exec/executor.py:461-484 | COMMIT closes the transaction exactly when its record reaches the log, and otherwise leaves it and every read as they were |
| `Server.ConnectAdds` | ryudb/server/app.py:119-150 | connecting adds a connection without a transaction and leaves every other as it is |
| `Server.DisconnectDrops` | ryudb/server/app.py:119-150 | a disconnect drops the connection with its transaction and touches nothing else |
| `Server.RestoreForAll` | ryudb/server/handlers.py:634-664 | a restore is refused while anyone has a transaction open and otherwise every connection reads the restored tables |
| `Server.RestoredTable` | ryudb/server/handlers.py:634-664 | those are the tables as they were when the name was taken |
| `Server.CheckpointForAll` | ryudb/server/handlers.py:634-664 | a checkpoint is refused while anyone has a transaction open and otherwise carried out |
| `Server.CheckpointedTable` | ryudb/server/handlers.py:634-664 | then every connection reads what it read and nothing is left in the delta |
| `Server.AutocommitStaysClosed` | ryudb/server/app.py:119-139 | a statement outside a transaction leaves none open |
| `Server.GuardAgreesIff` | ryudb/server/app.py:141-150 | leaving a connection out changes the verdict on restores and checkpoints exactly when its transaction alone is open |
| `Transactions.TxnDelete` | ryudb/exec/executor.py:1150-1197 | DELETE inside a transaction removes exactly the tombstoned keys from its view |
| `Transactions.TxnInsert` | ryudb/exec/executor.py:850-906 | INSERT inside a transaction shows every inserted row except those whose key the transaction has deleted |
| `Transactions.TxnInsertIsPlainIff` | ryudb/exec/executor.py:850-906 | it behaves like an edit of the table if and only if none of its keys was deleted earlier in the transaction |
| `Transactions.ReinsertExample` | ryudb/exec/executor.py:852-862 | DELETE of the only row and INSERT of it again are both accepted, and the transaction sees no row |
| `Transactions.CommitKeepsKeysIff` | ryudb/exec/executor.py:461-484 | a table still satisfies a uniqueness constraint after COMMIT exactly when no row committed since BEGIN, and not written over by the transaction, shares its key with a buffered row that shows |
| `Transactions.TxnViewIsEdit` | ryudb/exec/executor.py:821-906 | a transaction reads its snapshot without the keys it has written, then the buffered rows that show |
| `Transactions.TxnDmlKeepsKeys` | ryudb/exec/executor.py:908-962 | the checks made inside a transaction keep its own view within every declared constraint |
| `Server.RacingSessionsDuplicate` | ryudb/exec/executor.py:461-484 | eight requests from an empty table: two connections begin, insert one key and commit, all accepted, and the table holds the key twice |
| `Server.OwnViewKeepsKeys` | ryudb/server/app.py:119-150 | in any interleaving an open transaction's own view keeps its keys apart, whatever others commit |
| `Server.HandleKeepsInv` | ryudb/server/app.py:119-150 | every request, of any connection, keeps the store consistent and every open snapshot in the past |
| `Server.OthersCannotDisturb` | ryudb/server/handlers.py:634-664 | a request of anyone else leaves an open transaction in place and what it reads unchanged |
| `Server.OpenTransactionIsIsolated` | ryudb/server/app.py:119-150 | over any interleaving of other sessions' statements, commits, rollbacks, disconnects and guarded admin operations, an open transaction reads the same rows |
| `Engine.ProjectedMerge` | ryudb/exec/executor.py:720-772 | merging projected parts is projecting the merge when no tombstone is live, transaction buffer included |
| `Engine.CollisionOnKeyColumns` | ryudb/exec/executor.py:908-962 | checking keys against a scan of the key columns is checking them against the rows |
| `Engine.Transaction.BufferAppend` | ryudb/transaction.py:46-48 | one frame at the end of its table's buffer |
| `Engine.Transaction.TombstoneAppend` | ryudb/transaction.py:54-62 | one tombstone frame with its kind at the end of its table's list |
| `Engine.Engine.constructor` | ryudb/exec/executor.py:286-298 | start-up over any log file stands in the state the machine's restart gives, and in a valid one if the good prefix is the log of a consistent store |
| `Engine.Engine.Scan` | ryudb/exec/executor.py:720-772 | whatever the cache and the delta hold, a scan returns the projection of the merged table and keeps the cache coherent |
| `Engine.Engine.WriteCommit` | ryudb/exec/executor.py:486-517 | counter, then log, then memory: the machine's commit step, failed writes included |
| `Engine.Engine.Begin` | ryudb/exec/executor.py:456-459 | opens an empty transaction at the current counter, refuses a second one |
| `Engine.Engine.Commit` | ryudb/exec/executor.py:461-484 | one record for the whole buffer; a failed write leaves the transaction open |
| `Engine.Engine.Rollback` | ryudb/exec/executor.py:519-529 | drops the buffer and nothing else |
| `Engine.Engine.Restore` | ryudb/exec/executor.py:539-579 | the machine's restore step; refused inside a transaction, for unknown names and for names past the counter |
| `Engine.Engine.Checkpoint` | ryudb/exec/executor.py:585-692 | the machine's checkpoint step, with the caches of rewritten tables dropped; refused inside a transaction |
| `Engine.Engine.Snapshot` | ryudb/exec/executor.py:533-537 | the name now stands for the current counter; an open transaction's buffer is not part of it |
| `Engine.Engine.EnforceUnique` | ryudb/exec/executor.py:908-962 | accepts exactly when no declared key repeats in the batch or meets a visible row |
| `Engine.Engine.InsertInto` | ryudb/exec/executor.py:964-1062 | inside a transaction the rows are buffered and the store is unchanged, outside it they commit at once |
| `Engine.Engine.DeleteFrom` | ryudb/exec/executor.py:1150-1197 | inside a transaction the tombstone is buffered and the store is unchanged, outside it commits at once |
| `Engine.Engine.InsertAuto` | ryudb/exec/executor.py:964-1062 | outcome and new state of INSERT outside a transaction |
| `Engine.Engine.DeleteAuto` | ryudb/exec/executor.py:1150-1197 | outcome and new state of DELETE outside a transaction |
| `Engine.Engine.UpdateAuto` | ryudb/exec/executor.py:1216-1318 | outcome and new state of UPDATE: tombstone and new rows as one record, discarded on any failure |
| `RwLock.Lock.TryRead` | ryudb/exec/executor.py:187-191 | a reader enters exactly when no writer holds or waits |
| `RwLock.Lock.ReleaseRead` | ryudb/exec/executor.py:193-197 | the last reader out wakes everyone |
| `RwLock.Lock.AnnounceWrite` | ryudb/exec/executor.py:199-202 | a writer counts as waiting before it first looks at the guard |
| `RwLock.Lock.TryWrite` | ryudb/exec/executor.py:199-207 | a writer enters exactly when nobody holds, and then no longer waits |
| `RwLock.Lock.ReleaseWrite` | ryudb/exec/executor.py:209-212 | the write side is free and all else as before |
| `RwLock.StepKeepsInv` | ryudb/exec/executor.py:181-212 | every step of every thread keeps exact counters, exclusion and no sleeper on a false guard |
| `RwLock.MutualExclusion` | ryudb/exec/executor.py:181-212 | in every reachable state a writer excludes every other holder |
| `RwLock.NoReaderOvertakes` | ryudb/exec/executor.py:187-207 | while some writer waits no thread becomes a reader |
| `RwLock.NeverStuck` | ryudb/exec/executor.py:181-212 | if any thread waits, some thread can step |
| `RwLock.InternalStepsShrink` | ryudb/exec/executor.py:181-212 | every step a thread takes by itself lowers one measure of the whole system |
| `RwLock.EveryRequestIsServed` | ryudb/exec/executor.py:181-212 | with no new calls every schedule stops within a bound, and one that cannot go on has served and released everyone |
| `RwLock.InterruptLosesWakeupIff` | ryudb/exec/executor.py:199-207 | an interrupted writer loses a wake-up exactly when it was the only reason readers sleep |
| `RwLock.InterruptStrandsReader` | ryudb/exec/executor.py:199-207 | two readers and an interrupted writer reach a state where the lock is free, everyone else is idle and a reader sleeps, with no step of the threads enabled |
| `RwLock.StrandedNeedsHelp` | ryudb/exec/executor.py:187-212 | from such a state only a new call or a spurious wake-up leads on |
| `Plans.EvalLocal` | ryudb/sql/plan.py:20-120 | an expression's value depends only on the columns it names |
| `Plans.WhereKeepsTrue` | ryudb/exec/executor.py:1710-1716 | WHERE keeps the rows its predicate is TRUE of and drops those of FALSE and NULL |
| `Plans.NamedCell` | ryudb/exec/executor.py:2732-2750 | each selected expression stands under its own name |
| `Plans.CrossJoinSize` | ryudb/exec/executor.py:1805-1808 | a cross join has every pair |
| `Plans.ClipTakes` | ryudb/exec/executor.py:2795-2798 | LIMIT and OFFSET return the rows from the offset on, as many as asked for or as there are |
| `Pushdown.SubtreeTablesLoop` | ryudb/sql/optimize.py:168-185 | the stack walk collects exactly the tables of the subtree, derived tables left closed |
| `Pushdown.RouteLoop` | ryudb/sql/optimize.py:248-344 | the conjunct loop routes as the routing function says, in order |
| `Pushdown.ConjoinLoop` | ryudb/sql/optimize.py:435-440 | the fold builds the conjunction of its parts |
| `Pushdown.RoutePasses` | ryudb/sql/optimize.py:248-344 | routing loses no conjunct and invents none |
| `Pushdown.InsertMeans` | ryudb/sql/optimize.py:187-246 | distributing routed conjuncts over a plan filters its result by exactly those conjuncts |
| `Pushdown.PushFilterMeans` | ryudb/sql/optimize.py:248-344 | one filter above one join of any kind: the pushed plan returns the same rows |
| `Pushdown.PushdownPreservesResults` | ryudb/sql/optimize.py:155-344 | the whole rewrite returns the same rows in the same order for every database, three-valued WHERE and all seven join kinds |
| `Pushdown.DestIff` | ryudb/sql/optimize.py:275-333 | a conjunct is pushed to a table exactly when that table is the one joined table it touches, stands on one side only, and the join preserves that side |
| `Pushdown.DestHasColumnsIff` | ryudb/sql/optimize.py:305-333 | the scan a conjunct is routed to has all its columns exactly when the joined tables have them |
| `PushdownExample.DerivedColumnCounterexample` | ryudb/sql/optimize.py:158-165 | a query over a derived table whose column shares its name with an unrelated table's loses its row |
| `NullSide.RightConjunctIff` | ryudb/sql/optimize.py:201-214 | pushing a conjunct of the right side below a left or full join gives the filtered join exactly when every left row keeps a partner, or has none and its padding passes |
| `NullSide.LeftConjunctIff` | ryudb/sql/optimize.py:201-214 | the same for a conjunct of the left side below a right or full join |
| `PushdownExample.NestedOuterJoinCounterexample` | ryudb/sql/optimize.py:201-214 | a three-table query that returns nothing before the rewrite and a padded row after it |
| `Pruning.JoinAgree` | ryudb/sql/optimize.py:63-121 | joins of inputs that agree on the referenced columns agree on them, for every kind |
| `Pruning.PruningPreservesResults` | ryudb/sql/optimize.py:63-147 | reading only referenced columns returns the same relation, row for row, and plans that project nowhere are left alone |
| `Pruning.PruningPreservesIff` | ryudb/sql/optimize.py:63-147 | the result is unchanged exactly when the pass does nothing or no column that reaches the output straight from a scan goes unmentioned |
| `Pruning.StarOverSubqueryCounterexample` | ryudb/sql/optimize.py:63-82 | SELECT * with an IN subquery loses a column of its table on every database |
| `Pruning.RewriteLoses` | ryudb/sql/optimize.py:84-121 | the rewritten plan returns the rows of the plan cut down to the columns not lost, in order, for every join kind |
| `Pruning.DistinctIff` | ryudb/sql/optimize.py:63-121 | a projection of SELECT DISTINCT * over any joins, filters, sorts, limits and windows is unchanged by pruning exactly when the pass does nothing or the columns left tell the rows under the DISTINCT apart |
| `Pruning.TopDistinctIff` | ryudb/sql/optimize.py:63-121 | SELECT DISTINCT * is unchanged exactly when the pass does nothing or no column is lost |
| `Pruning.DistinctOverScanCounterexample` | ryudb/sql/optimize.py:63-121 | SELECT k FROM (SELECT DISTINCT * FROM t) loses a row |
| `JoinBags.JoinBag` | ryudb/sql/optimize.py:373-421 | a join's bag depends only on the bags of its inputs |
| `JoinBags.SidesCommute` | ryudb/sql/optimize.py:373-398 | exchanging the sides of a join, left and right changing places, keeps the bag of named rows |
| `JoinBags.FullSplits` | ryudb/exec/executor.py:1906-1992 | a full join is its pairs plus the padded unmatched rows of both sides |
| `Sides.SelectionBuildsOnSmaller` | ryudb/sql/optimize.py:373-421 | afterwards every join that may be turned has its smaller estimate on the left |
| `Sides.EstimateIsUpperBound` | ryudb/sql/optimize.py:356-371 | with true table sizes the estimate of scans under filters, projections, limits, DISTINCT and inner, cross and semi joins is no less than the rows returned, up to its cap |
| `Sides.SideSelectionPreservesBag` | ryudb/sql/optimize.py:352-421 | whatever the statistics, the bag of named rows is the same, LIMIT over rows in a settled order included |
| `Sides.KeysDecideOrder` | ryudb/sql/optimize.py:408-411 | ORDER BY settles the order of rows when rows with equal sort keys are equal |
| `Optimizer.OptimizePreservesBag` | ryudb/sql/optimize.py:49-55 | the three passes in a row keep the bag of named rows, with all conditions on the plan given |
| `Optimizer.OptimizePreservesTopRows` | ryudb/sql/optimize.py:49-55 | SELECT ... ORDER BY ... LIMIT n with an ORDER BY that decides returns the same rows in the same order after the three passes |
| `JoinAlgorithms.OuterJoinIsExact` | ryudb/exec/executor.py:1906-1992 | the row-id algorithm returns one row per satisfied pair and one padded row per preserved row without any, for left, right and full, duplicates included, in any merge order |
| `JoinAlgorithms.NoNullKeysSameJoin` | ryudb/exec/executor.py:1906-1992 | with no NULL among the left keys the merge's reading of ON is SQL's |
| `JoinAlgorithms.MergeIsSqlJoinIff` | ryudb/exec/executor.py:1810-1820 | merged pairs are the SQL inner join exactly when no two rows share a key holding a NULL and pass the residual |
| `JoinAlgorithms.NullKeysMeetCounterexample` | ryudb/exec/executor.py:1810-1820 | one NULL-key row on each side: one merged pair, no SQL pair |
| `NullKeys.LeftMergeIsSqlIff` | ryudb/exec/executor.py:1810-1820 | the left join by merge is SQL's exactly when each left row with a NULL in its key meets no right row, or a single one that is all NULL |
| `NullKeys.RightMergeIsSqlIff` | ryudb/exec/executor.py:1810-1820 | the same of the right join, seen from its right rows |
| `NullKeys.FullMergeIsSqlIff` | ryudb/exec/executor.py:1810-1820 | the full join by merge, over rows that each hold a value, is SQL's exactly when no two rows share a key holding a NULL and pass the residual |
| `JoinAlgorithms.SemiByMembershipIsExact` | ryudb/exec/executor.py:1851-1856 | the one-key membership path is the semi or anti join |
| `JoinAlgorithms.SemiByIdsIsExact` | ryudb/exec/executor.py:1858-1878 | the composite-key row-id path is the semi or anti join, NULL keys matching nothing, order kept |
| `Decorrelate.ClassifyLoop` | ryudb/sql/parse.py:1417-1467 | the classifier's loop splits the WHERE into key pairs and local conjuncts, or refuses, as its definition says |
| `Decorrelate.LiftedRows` | ryudb/sql/parse.py:1417-1467 | filtering by the local conjuncts and matching keys leaves each outer row exactly the rows its own evaluation would see |
| `Decorrelate.ExistsIsSemiJoin` | ryudb/sql/parse.py:1358-1382 | correlated EXISTS is the semi join and NOT EXISTS the anti join on the lifted keys, NULL and composite keys included |
| `Decorrelate.LimitedExistsIff` | ryudb/sql/parse.py:1358-1382 | with LIMIT n inside, right for an outer row exactly when n is 0 or the cut did not lose its key |
| `Decorrelate.LimitedExistsCounterexample` | ryudb/sql/parse.py:1358-1382 | two keys under LIMIT 1: an outer row with a match is lost |
| `Decorrelate.AggregateExistsIff` | ryudb/sql/parse.py:1358-1382 | with an aggregate in the subquery, the semi or anti join is right exactly when every outer row has a row of its own |
| `Decorrelate.AggregateExistsCounterexample` | ryudb/sql/parse.py:1358-1382 | EXISTS over COUNT(*) of an empty table loses every outer row |
| `Decorrelate.InIsSemiJoin` | ryudb/sql/parse.py:1385-1392 | IN under three-valued logic keeps the rows of the semi join, NULLs included |
| `Decorrelate.NotInIsAntiIff` | ryudb/sql/parse.py:1385-1392 | NOT IN keeps the rows of the anti join exactly when, for each row, the list is empty, holds its value, or no NULL is involved |
| `Decorrelate.NotInCounterexample` | ryudb/sql/parse.py:1385-1392 | 1 NOT IN (NULL): SQL drops the row, the anti join keeps it |
| `ScalarSubquery.ScalarSubqueryIsLeftJoin` | ryudb/sql/parse.py:1687-1742 | each outer row comes out once, in place and unchanged, with the value of the subquery run for it: NULL keys, missing groups and COUNT over nothing included |
| `ScalarSubquery.AggregatesSkipNulls` | ryudb/sql/parse.py:1687-1742 | COUNT(x) counts the rows of which x is not NULL, and any other aggregate is NULL over none |
| `ScalarSubquery.PeeledLimitIff` | ryudb/sql/parse.py:1711-1722 | with LIMIT and OFFSET after the aggregate, every outer row gets its subquery's value exactly when they keep the one row or the value is NULL for every outer row |
| `ScalarSubquery.PeeledLimitCounterexample` | ryudb/sql/parse.py:1711-1722 | COUNT(*) LIMIT 0 is NULL and the lowered query answers 0 |
| `ScalarSubquery.OneGroupOneHit` | ryudb/sql/parse.py:1717-1735 | distinct group keys: an outer row meets at most one group |
| `Windows.PartitionIsBlock` | ryudb/exec/executor.py:2714-2730 | the rows of a partition are the block between its boundaries, NULL keys forming one partition |
| `Windows.PeersAreBlock` | ryudb/exec/executor.py:2547-2555 | the peers of a row are a block inside its partition |
| `Windows.SmallerIsAbove` | ryudb/exec/executor.py:2441-2487 | in a partition a row has a smaller key exactly when it stands above the peers |
| `Ranking.RankCounts` | ryudb/exec/executor.py:2468-2478 | RANK, put back in the original order, is one plus the rows of the partition with a strictly smaller key |
| `Ranking.DenseRankCounts` | ryudb/exec/executor.py:2479-2482 | DENSE_RANK is one plus the distinct smaller keys of the partition |
| `Ranking.RowNumberInRange` | ryudb/exec/executor.py:2463-2470 | row numbers lie between 1 and the partition's size |
| `Ranking.RowNumberOrders` | ryudb/exec/executor.py:2463-2470 | each number is given once and numbers follow the order key |
| `Ranking.RowNumberReached` | ryudb/exec/executor.py:2463-2470 | every number up to the partition's size is given |
| `Ranking.OffsetStaysInPartition` | ryudb/exec/executor.py:2483-2500 | LAG and LEAD read the row that many places away in the same partition, or give the default |
| `RunningWindows.WindowIsBlock` | ryudb/exec/executor.py:2636-2665 | the clamped bounds enclose exactly the rows the RANGE or ROWS frame names |
| `RunningWindows.GatherIsSum` | ryudb/exec/executor.py:2667-2681 | over a non-empty window both gathers stay in the row's partition and give the sum over it |
| `RunningWindows.RunningIsFold` | ryudb/exec/executor.py:2538-2580 | SUM, COUNT, COUNT(*) and AVG equal the fold over the window with NULLs skipped, whatever a stray gather returns, and never fail on a row whose window holds it |
| `RunningWindows.RangeFoldAnyOrder` | ryudb/exec/executor.py:2547-2555 | a RANGE fold over the sorted frame is the fold over the rows as they were given |
| `RunningWindows.RunningReturnsToRows` | ryudb/exec/executor.py:2507-2580 | after sorting and putting back, every row finds its own fold in its original place, for RANGE over the original rows and their arguments |
| `MixedRadix.ComputeStrides` | ryudb/exec/fused.py:196-199 | under the strides it computes every combination of codes has an index of its own below the group count |
| `MixedRadix.DotIsEncode` | ryudb/exec/fused.py:449-450 | the kernel's index expression is the mixed-radix code |
| `MixedRadix.EncodeInRange` | ryudb/exec/fused.py:196-203 | every group index is below the number of groups |
| `MixedRadix.DecodeEncode` | ryudb/exec/fused.py:537-542 | codes come back from their index |
| `MixedRadix.EncodeDecode` | ryudb/exec/fused.py:537-542 | every index is the code of one combination |
| `MixedRadix.DecodeLoop` | ryudb/exec/fused.py:537-542 | the quotient-remainder loop decodes |
| `DenseKernel.ScheduleFits` | ryudb/exec/fused.py:455-484 | no step of any schedule leaves the accumulators |
| `DenseKernel.KernelIsExact` | ryudb/exec/fused.py:455-484 | for any block split and any interleaving that respects the barrier, each global cell ends with the sum of what the rows add to it |
| `DenseAggregate.GroupIffKeys` | ryudb/exec/fused.py:178-203 | a group index stands for exactly one combination of key values |
| `DenseAggregate.AddsSum` | ryudb/exec/fused.py:449-464 | what the rows add to a cell is the group's total over passing rows |
| `DenseAggregate.CountIsSize` | ryudb/exec/fused.py:455-464 | a COUNT(*) slot totals the number of rows of the group that pass |
| `DenseAggregate.SumIsSum` | ryudb/exec/fused.py:455-464 | a SUM slot totals its argument over those rows |
| `DenseAggregate.KernelAccumulates` | ryudb/exec/fused.py:199-235 | the accumulators hold the group totals and no index reaches MAX_ACC_CELLS |
| `DenseAggregate.BuildResult` | ryudb/exec/fused.py:513-557 | the read-out loop emits each shown group once, decoded, with its cells |
| `DenseAggregate.DenseIsGroupByIff` | ryudb/exec/fused.py:513-557 | the result is filter-then-group-by if and only if COUNT(*) is there or no group of passing rows has every aggregate 0 |
| `DenseAggregate.ZeroSumCounterexample` | ryudb/exec/fused.py:531-536 | SUM alone over one row holding 0: the group is lost in every run |
| `Varints.VarintRoundTrip` | ryudb/kernels/pqpages.cpp:46-62 | the reader inverts the writer on every 64-bit integer, wherever the bytes stand |
| `PageFormat.SkipValue` | ryudb/kernels/pqpages.cpp:74-129 | skipping any value, nested to any depth, moves forward and stays inside the bytes, or fails |
| `PageFormat.PagesTile` | ryudb/kernels/pqpages.cpp:229-256 | on success headers and payloads follow one another without gap or overlap to the end |
| `PageFormat.PayloadsInOrder` | ryudb/kernels/pqpages.cpp:229-256 | each payload lies inside the chunk and ends where the next header starts |
| `PageFormat.BinarySkipExactIff` | ryudb/kernels/pqpages.cpp:90-95 | the skip finds the end of a binary written with a plain length exactly when the binary is empty |
| `PageFormat.BinarySkipCounterexample` | ryudb/kernels/pqpages.cpp:90-95 | a one-byte binary is refused |
| `PageWriter.HeaderReadBack` | ryudb/kernels/pqpages.cpp:131-224 | a written page header, with or without checksum and data or dictionary page header, reads back with every value in its field and the position after its STOP |
| `PageWriter.ChunkReadBack` | ryudb/kernels/pqpages.cpp:229-256 | a chunk of written headers and payloads parses into exactly those pages, each at its offset |
| `PageWriter.FarFieldAt` | ryudb/kernels/pqpages.cpp:133-145 | a field header without a relative number takes the number that follows it |
| `PageWriter.StructSkipped` | ryudb/kernels/pqpages.cpp:96-104 | a struct of integers, however numbered, is skipped up to the byte after its STOP |
| `PageWriter.UnknownStruct` | ryudb/kernels/pqpages.cpp:220-223 | an unknown header field leaves the page as it is |
| `PageWriter.UnknownInnerStruct` | ryudb/kernels/pqpages.cpp:150-185 | an unknown struct inside a data or dictionary page header leaves the page as it is |
| `PageWriter.WrongTypeRefused` | ryudb/kernels/pqpages.cpp:199-211 | page type and sizes that are not i32 fields are refused |
| `CompactLists.EmptyShortListNever` | ryudb/kernels/pqpages.cpp:105-113 | the empty list, a header byte alone, is never skipped exactly |
| `CompactLists.ShortIntListIff` | ryudb/kernels/pqpages.cpp:105-113 | a short list of integers is skipped exactly when its first integer is the number of those after it |
| `CompactLists.ShortFixedListIff` | ryudb/kernels/pqpages.cpp:105-113 | a short list of bytes or doubles is skipped exactly when its first bytes read as the number of elements that fill the rest |
| `CompactLists.ShortBoolListIff` | ryudb/kernels/pqpages.cpp:105-113 | a short list of booleans is skipped exactly when it holds one false |
| `CompactLists.LongListLands` | ryudb/kernels/pqpages.cpp:105-113 | a plain count is refused when odd and halved when even |
| `CompactLists.LongListIff` | ryudb/kernels/pqpages.cpp:105-113 | a long list of elements the skip itself gets right is skipped exactly only when empty |
| `CompactLists.LongIntListIff` | ryudb/kernels/pqpages.cpp:105-113 | the same of integers as they are encoded |
| `CompactLists.LongBoolListIff` | ryudb/kernels/pqpages.cpp:105-113 | the same of booleans, one byte each |
| `CompactLists.MapLands` | ryudb/kernels/pqpages.cpp:114-125 | a map's plain count is refused when odd and halved when even, and its one byte of types is read as two |
| `CompactLists.PairsTakeTurns` | ryudb/kernels/pqpages.cpp:114-125 | the pairs of a map are skipped key by key and value by value, each by its own type |
| `CompactLists.ShortListCounterexample` | ryudb/kernels/pqpages.cpp:105-113 | the list of the one i32 value 1 is refused |
| `CompactLists.MapCounterexample` | ryudb/kernels/pqpages.cpp:114-125 | the map of one i32 pair is refused |
| `PageParser.Cursor.Varint` | ryudb/kernels/pqpages.cpp:46-62 | the ten-group loop computes the integer and moves past it, or fails |
| `PageParser.Cursor.SkipOne` | ryudb/kernels/pqpages.cpp:74-129 | the recursive skip moves the cursor as the format says, the remaining bytes bounding the nesting |
| `PageParser.Cursor.ParseInnerHeader` | ryudb/kernels/pqpages.cpp:150-185 | the data and dictionary page headers: stored and skipped fields, truncation to 32 bits |
| `PageParser.Cursor.ParsePageHeader` | ryudb/kernels/pqpages.cpp:190-225 | one page header read field by field, the cursor left at the payload |
| `PageParser.ParseColumnChunkPages` | ryudb/kernels/pqpages.cpp:229-256 | every page of the chunk in order, tiling it exactly; refused when the chunk passes the file's end and for every negative size |

## Left out

- Crash or cancellation in the middle of a checkpoint: the model takes checkpoint as one completed step.
- `restore_to` with a raw timestamp, and RESTORE by SQL while another connection holds a transaction.
- A log without a data directory, and file-system calls beyond append and truncate.
- Wal.WriteAheadLog.WriteCommit: a second fault, while a failed write is being cut back, is not modelled; the code swallows it and leaves a torn tail that later commits would follow.
- Serialisation of frames and names (any round-tripping codec) and CRC32 (any function of the bytes); column types, casts and the row order of the frame library.
- MERGE, INSERT ... SELECT, column defaults and DDL.
- The caches of factorise codes and of key uniqueness, and re-registering a table under a cached scan.
- Server.OpenTransactionIsIsolated: takes each request as one atomic step, as with the default one-worker pool.
- RwLock.EveryRequestIsServed: bounds the steps once no new call arrives; a stream of new writers can still delay readers for ever, which is what writer priority means.
- Pushdown.PushdownPreservesResults: asks, of the plan alone, that the one joined table a conjunct touches, on a preserved side, be scanned once and lie inside that side under filters and joins that preserve it, and that the conjunct name that table's columns only (`NullSide` and `Pushdown.DestHasColumnsIff` say what happens otherwise), and that the joins on the way share no column name; alias renaming of colliding columns and USING are not modelled.
- Pruning.PruningPreservesIff: DISTINCT and set operations must see projected rows (`Pruning.DistinctIff` is about DISTINCT over other rows; a set operation over them, being any function of two relations here, is left open), and column names are unique.
- Sides.SideSelectionPreservesBag: a LIMIT over a join needs an ORDER BY that decides, since otherwise which rows it keeps is open; estimates are integers instead of floats.
- Optimizer.OptimizePreservesBag: a LIMIT over a join below the top of the plan.
- JoinAlgorithms.OuterJoinIsExact: the temporary key names are not modelled, so neither is the failure of a residual that names an equi-key, nor a key column listed twice; USING keys do not coalesce.
- JoinAlgorithms.NoNullKeysSameJoin: sufficient only; the exact conditions are those of `NullKeys`.
- NullKeys.FullMergeIsSqlIff: leaves out rows that are NULL in every column, of which two on either side give as many pairs as padded rows.
- Uncorrelated scalar and EXISTS subqueries (a cross join with one row), HAVING and GROUP BY inside EXISTS.
- Running MIN and MAX, statistical window functions, windows without ORDER BY, and LAG or LEAD with a negative offset.
- Floating-point rounding: window and kernel sums are real numbers; date, decimal, string and LIKE functions.
- DenseAggregate.DenseIsGroupByIff: SUM over a NULL argument is not modelled, nor are the C++ and CUDA back ends; NULL keys, which the code's matcher turns away, are treated like any other value.
- PageParser.ParseColumnChunkPages: the field id grows without 32-bit overflow.
- CompactLists.ShortIntListIff: short lists of binaries, structs and collections have no closed condition; the skip reads their first bytes as a count like any other's.
- CompactLists.MapLands: says where the skip of a map lands, not for which keys and values that happens to be the map's end.
- Varints.VarintFrom: adds each group at its shift where the code ORs it in; the two agree because lower groups leave the higher bits clear.
- Command line, wire protocols, notebooks, benchmarks and the frontend.
