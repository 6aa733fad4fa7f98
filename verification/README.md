# A verified model of fsql

fsql is a small SQL engine: tables with primary, secondary and full-text indexes, a text file format, a
single-connection engine with transactions, and a connection pool in which transactions work on private snapshots,
lock rows by string keys, reserve row ids on the committed catalog and overlay their locked rows at COMMIT.
This project models that behaviour in Dafny and proves what holds of every input, every run and every reachable state.

How it is laid out:

- `Basics`, `Text`, `Values`: wrapper types, B-tree iteration order, trimming, numerals, UTF-8, and column values with
  floats as bit patterns.
- `Codec`, `Catalogs`, `CatalogRoundTrip`, `AcceptedFiles`: the value codec and the catalog file, what reading back a
  written file gives, and what any accepted file guarantees.
- `Ast`, `Tables`, `TableFacts`, `Selects`, `AccessPaths`, `TableMeaning`, `TableObjects`, `Invisible`: statements, the
  table and its indexes, first as functions on values, then as a mutable object whose methods are proved against those
  functions, and what the operations mean on rows alone.
- `Identifiers`, `Orders`, `Filters`, `Answers`: what a client may rely on, said without the functions above: which
  spellings stand for one name, in which order a vector search answers (on bit patterns and on the numbers they stand
  for), which rows a filter selects as it was sent, and what every statement answers and leaves.
- `Engine`, `Databases`, `Sessions`: statement execution on a catalog, the single-connection engine with failing
  persistence, and what its client is told over a whole run.
- `LockKeys`, `Merge`, `Pools`, `PoolFacts`, `PoolLaws`, `PoolCommits`, `PoolHistories`, `InsertLocks`, `PoolSessions`,
  `RowIds`, `PoolObjects`: the pool as a machine of atomic steps, its invariants, its laws, whom its locks keep out, what
  one connection sees and is told, where row ids come from, and its objects in place.
- `Counterexamples`, `PoolCounterexamples`: concrete inputs where a law fails.
- `Permits`, `StatementCache`, `Scanner`, `Cuts`, `Literals`: the permit counter with its condition variable, the cache of
  parsed statements, and the splitter and literal parser of the SQL front end.

Conventions. A statement that depends on runtime settings takes an `Env`: the tokeniser in use, vector dimensions, worker
count, and as functions the computations that are not modelled (tokenising, geographic and vector distance, integer to
float conversion). Whether the file can be written is a parameter `ok` of each step; a write either replaces the whole
file or changes nothing. A table is `WellFormed` for a tokeniser when its rows are typed, below the next row id, and
rebuilding its indexes would change nothing; it is `Sound` when it is well formed for the simple or for the configured
tokeniser, which is the most the code keeps, because secondary index creation and pool merges rebuild with default
settings. A pool state is `Reachable` when some interleaving of any number of connections leads to it from a pool over a
sound catalog.

Some laws one might expect are not kept by the code. For each the model gives the exact condition under which it holds and
an input where it fails:

- An indexed equality and a scan disagree when some row spells the wanted number with other bits, as -0.0 for 0.0
  (`EqualityAgreesIff`, `NegativeZeroDisagrees`).
- Indexed MATCH and a scan disagree when the index was filled by another tokeniser than the configured one and the two see
  the words of the query differently (`FulltextAgreesIff`, `FulltextDisagrees`).
- A failed UPDATE does not restore full-text maps that another tokeniser had filled (`FailedUpdateRestores`,
  `FailedUpdateDoesNotRestore`); inside a transaction such a stale UPDATE with a key clash, and nothing else, makes the
  committed catalog differ from the replay of what succeeded (`ReplayLawIff`, `StaleRunIsNotItsReplay`).
- A COMMIT fails when a staged table's name is a colon-prefix of a locked table's (`ColonNamesBreakCommit`), or when
  primary keys clash, as when two transactions give different rows one new key (`KeyClashBreaksCommit`); there is no other
  cause but a failed write (`CommitSucceedsIff`). It then leaves its locks behind for good, and no definition is accepted
  any more (`CommitReleasesIff`, `FailedMergeBlocksForever`).
- A row a transaction has locked still changes when an autocommitted statement overwrites it; no other step of another
  connection changes it (`HeldStepIff`, `HeldRowIff`, `AutocommitOverrunsHeldRow`).
- Creating an index can show in later statements: an equality that meets a second spelling of its number now takes the
  index, and all full-text maps are refilled, with the simple tokeniser for a secondary index and the configured one for a
  full-text index (`IndexChangesLookupIff`, `IndexShowsOnNegativeZero`, `IndexShowsInMatch`). It shows in nothing else
  (`IndexIsInvisible`).
- An INSERT locks the key value as it was given, and the table keeps it as it is stored: in a FLOAT column, and nowhere
  else, one key can have two locks, as 1 and 1.0 (`OneKeyTwoLocksIff`).
- The empty literal list does not survive printing and parsing (`LiteralListRoundTrip`).

## Model

| member | source | states |
|---|---|---|
| `PoolLaws.RunOk` | src/pool.rs:333-577 | over every interleaving of connections, the pool invariant holds: sound committed and staged catalogs, staged catalogs with only committed tables and next row ids at most the committed ones, owned locks, distinct transactions, unique row ids |
| `PoolLaws.LocksExclusive` | src/pool.rs:505-550 | in every reachable state each key an active transaction has locked is its own in the lock table, so the lock sets of two active transactions are disjoint |
| `PoolLaws.CommitSucceedsIff` | src/pool.rs:362-406 | COMMIT succeeds if and only if the file can be written, no staged table name is a colon-prefix of a locked one, and the overlaid rows of every staged table have distinct non-null primary keys |
| `PoolLaws.MergesAllIff` | src/pool.rs:593-630 | the merge goes through if and only if the last two of these hold |
| `PoolLaws.AppendsNothing` | src/pool.rs:621-626 | when a staged table is not ahead of the committed next row id, as in every reachable state, the append loop adds nothing and the merged table is the overlay |
| `PoolLaws.StagedNeverAhead` | src/pool.rs:599-626 | in every reachable state a staged catalog has only committed tables, with the same columns and next row ids at most the committed ones, so the missing-table branch and the append loop add nothing |
| `PoolLaws.LockedIdsAre` | src/pool.rs:604-611 | the row ids a merge reads out of a transaction's string keys for a table are exactly those of its row keys on that table |
| `PoolLaws.MergesIff` | src/pool.rs:593-630 | the exact condition under which one table's part of the merge goes through |
| `PoolCommits.CommitIsOverlay` | src/pool.rs:362-406 | a successful COMMIT gives, row by row, the staged row where the key is locked and the committed row elsewhere, with tables, columns, index definitions and next row ids unchanged; a failed one changes no row and no file |
| `PoolCommits.CommitLosesNothing` | src/pool.rs:462-469 | every row where the staged catalog differs from the snapshot taken at BEGIN is committed as staged |
| `PoolCommits.CommitReleasesIff` | src/pool.rs:382-405 | COMMIT gives its locks back if and only if the locked rows can be overlaid or there are none, and a COMMIT that cannot overlay leaves the whole shared state as it was |
| `PoolCommits.CommitsCommute` | src/pool.rs:362-406 | the commits of two active transactions yield the same catalog, lock table and file in either order, whenever both orders succeed |
| `PoolCommits.MergedTables` | src/pool.rs:593-630 | a merge adds and drops no table, and every staged table becomes the overlay with freshly built indexes |
| `PoolHistories.HeldRowLaw` | src/pool.rs:471-534 | while a transaction holds a row key, no run of other connections changes that committed row, unless an autocommitted statement overwrites that very row |
| `PoolHistories.HeldStepIff` | src/pool.rs:471-534 | a step of another connection changes a held row if and only if it is an autocommitted DELETE that finds the row, or an autocommitted UPDATE that finds it, is accepted, clashes with no key and gives it another value, and the file can be written |
| `PoolHistories.HeldRowIff` | src/pool.rs:471-534 | the held row keeps its value at every moment of such a run if and only if no step of the run is one of these |
| `PoolFacts.OverwritesIff` | src/storage/table.rs:190-407 | a statement changes a stored row if and only if, read off the table before it, it is a DELETE that finds the row or an accepted UPDATE without key clash that finds it and gives it another value |
| `PoolCounterexamples.AutocommitOverrunsHeldRow` | src/pool.rs:471-494 | a reachable state in which one connection holds the key of a row and an autocommitted UPDATE of another changes that row |
| `PoolHistories.DeadRun` | src/pool.rs:544-550 | a lock whose owner has ended stays in the lock table, with its owner, through every later run |
| `PoolHistories.FailedMergeBlocksForever` | src/pool.rs:382-458 | after a COMMIT whose rows could not be overlaid, every one of its locks stays through every later run, and every later definition on any connection is refused |
| `PoolCounterexamples.ColonNamesBreakCommit` | src/pool.rs:605-611 | a run with tables "a" and "a:b" in which an INSERT and a COMMIT with a writable file fail, and the row key then stays locked for good |
| `PoolCounterexamples.KeyClashBreaksCommit` | src/pool.rs:382-405 | a reachable state with two transactions that have given two different rows one new key: either could commit alone, but after the first COMMIT the second fails with a writable file, and its row key then stays locked for good |
| `PoolHistories.NothingLeaks` | src/pool.rs:333-427 | over any run without a successful COMMIT or autocommit, committed rows, schemas, index contents, encoded text and file stay exactly as they were; only next row ids advance |
| `PoolHistories.OnlyCommitPublishes` | src/pool.rs:437-495 | inside a transaction the only step that can publish is a successful COMMIT |
| `PoolHistories.IssuedOnce` | src/pool.rs:663-694 | no two reservations or autocommitted inserts of a run are given the same row id |
| `PoolHistories.InsertUsesReserved` | src/pool.rs:663-694 | a staged INSERT stores its row under exactly the id reserved for it, which was free |
| `PoolHistories.DurableRun` | src/pool.rs:382-396 | at every point of every run, with writes failing at will and row ids reserved, reopening the file gives the committed catalog up to next row ids |
| `PoolHistories.StartDurable` | src/pool.rs:172-190 | a pool over a written file, or a new one, starts durable |
| `PoolHistories.CommittedIndexesAgree` | src/storage/table.rs:678-746 | in every reachable pool state, merges included and under every tokeniser, a lookup on a committed table returns the scan's row ids in the scan's order if and only if the filter is refused or takes no index that can disagree; with the simple tokeniser and no negative zero it always does |
| `PoolHistories.StagedIndexesAgree` | src/pool.rs:744-764 | the same for the lookups by which a transaction chooses the rows to lock |
| `PoolHistories.QuietStep` | src/pool.rs:437-534 | a step that commits nothing changes at most a next row id |
| `PoolFacts.OthersKept` | src/pool.rs:505-550 | a step that only grows the catalog and keeps other owners' locks preserves every other connection's invariant |
| `PoolFacts.ReserveOk` | src/pool.rs:663-694 | the reserved key was in no one's hands, so writing it unconditionally keeps exclusivity, and the staged next row id becomes the reserved id |
| `PoolFacts.LockLoopOk` | src/pool.rs:505-534 | the lock loop keeps the invariant both when it finishes and when it stops at a conflict with part of the keys taken |
| `PoolFacts.LockAllFacts` | src/pool.rs:517-530 | no entry of the lock table is overwritten, and on success every asked key is owned |
| `PoolFacts.StageOk` | src/pool.rs:505-534 | after the locking section every row the statement may touch is locked |
| `PoolFacts.ExecuteOk` | src/pool.rs:462-469 | running the statement on the staged catalog keeps every difference from the snapshot covered by a lock |
| `PoolFacts.MergeSound` | src/pool.rs:593-630 | a merge of sound catalogs is sound, whatever the lock set says |
| `PoolFacts.CommitOk` | src/pool.rs:362-406 | COMMIT, in all its outcomes, keeps the shared invariant and other owners' locks |
| `PoolFacts.LocalStepOk` | src/pool.rs:311-577 | every step of one connection keeps the shared invariant and its own |
| `PoolFacts.ExecTableTouches` | src/storage/table.rs:190-407 | a statement changes only the rows it matches, or the one at the next row id, and no index definition |
| `PoolFacts.KeysToLockFacts` | src/pool.rs:744-764 | the keys asked for cover all rows an UPDATE or DELETE touches, and all name staged rows or inserts |
| `InsertLocks.SlotMeans` | src/pool.rs:704-736 | a transactional INSERT locks the first value it gives for the primary key, by position, or the next row id if it gives none |
| `InsertLocks.InsertKeysEqualIff` | src/pool.rs:715-731 | two INSERTs have one lock key if and only if they are into one table and give one key value, or no value at one next row id, whatever colons are in the names |
| `InsertLocks.OneKeyTwoLocksIff` | src/pool.rs:715-731 | two different given values are stored as one key exactly in a FLOAT column, for an integer and the float it becomes or two integers that become one float |
| `InsertLocks.OneInserter` | src/pool.rs:505-534 | in every reachable state at most one active transaction has locked the insert of one key value into a table |
| `InsertLocks.InsertTakesLock` | src/pool.rs:505-534 | an INSERT that is let through holds the lock of its value |
| `InsertLocks.SameInsertRefused` | src/pool.rs:517-530 | while a transaction holds the insert of a key value, every INSERT of it by another is refused and changes nothing |
| `InsertLocks.InsertLockHistory` | src/pool.rs:505-534 | every insert key in the lock table was put there by an INSERT of that very value into that very table on behalf of its owner |
| `InsertLocks.InsertLetThrough` | src/pool.rs:517-530 | an INSERT whose value no other transaction of the run has asked for is never refused |
| `InsertLocks.LocksOwnedIff` | src/pool.rs:362-427 | after a run every lock belongs to an active transaction if and only if no COMMIT with locks in it failed to overlay |
| `InsertLocks.DefinitionRefusedIff` | src/pool.rs:443-460 | where every lock is owned, a definition is refused if and only if its connection is in a transaction or some active transaction has locked a key |
| `PoolSessions.SeesEngine` | src/pool.rs:311-495 | BEGIN, ROLLBACK, definitions, changes outside a transaction and statements inside one do to a connection's view, and answer, exactly what the single-connection engine does; a SELECT outside one differs in failing when the file cannot be written, and there is no EXPLAIN |
| `PoolSessions.BeginMeans` | src/pool.rs:333-352 | a transaction begins with the committed catalog, no locks, and an id above those of all active ones |
| `PoolSessions.RepeatableRead` | src/pool.rs:462-469 | inside a transaction a SELECT is never refused, takes no lock, and answers the same after any run of other connections, commits included |
| `PoolSessions.LockStep` | src/pool.rs:505-534 | a statement let through waits to be executed, a refused one is an error and leaves the transaction open |
| `PoolSessions.RowLocksIff` | src/pool.rs:505-534 | an UPDATE or DELETE is let through if and only if its filter is accepted and no other transaction holds a row it selects; it then holds exactly these rows, and refused those before the first contested one |
| `PoolSessions.UndisturbedCommit` | src/pool.rs:362-406 | when the committed rows are those the transaction began with, a successful COMMIT makes every row the staged one |
| `RowIds.RowsHaveIssuedIds` | src/pool.rs:663-694 | over every run each row that is committed or staged anywhere and was not there from the start has an id some reservation or autocommitted INSERT took off its table, and no id was taken twice |
| `PoolObjects.PoolInner.ReleaseLocks` | src/pool.rs:544-550 | the loop removes exactly the entries that still name the transaction |
| `PoolObjects.PoolInner.Persist` | src/engine.rs:440-470 | a write replaces the file with the encoded catalog or changes nothing, and cannot fail without a path |
| `PoolObjects.FindInsertKey` | src/pool.rs:704-736 | the loop finds the insert lock key the specification names, or the same error |
| `PoolObjects.Connection.Begin` | src/pool.rs:333-352 | BEGIN in place is the begin step |
| `PoolObjects.Connection.Commit` | src/pool.rs:362-406 | COMMIT in place is the commit step: the transaction ends in every case, and a failed merge leaves before the locks are released |
| `PoolObjects.Connection.Rollback` | src/pool.rs:416-427 | ROLLBACK in place is the rollback step |
| `PoolObjects.Connection.Drop` | src/pool.rs:562-577 | dropping a connection in place is the drop step |
| `PoolObjects.Connection.RowsToLock` | src/pool.rs:744-764 | computes the keys the specification names |
| `PoolObjects.Connection.LockKeysInOrder` | src/pool.rs:517-530 | the loop over the keys is the sequential lock specification, partial locks on conflict included |
| `PoolObjects.Connection.ReserveInsertRowId` | src/pool.rs:663-694 | reservation in place is the reservation step |
| `PoolObjects.Connection.LockStatementRows` | src/pool.rs:505-534 | the locking section in place is the locking step |
| `PoolObjects.Connection.CheckDefinition` | src/pool.rs:443-460 | the first mutex section of a definition in place is the check step: refused inside a transaction or while any lock is held |
| `PoolObjects.Connection.ExecuteCommitted` | src/pool.rs:471-494 | a statement on the committed catalog in place is the autocommit step, put back when it or the write fails |
| `PoolObjects.Connection.ExecuteStaged` | src/pool.rs:462-469 | running on the staged catalog in place is the local execution step |
| `PoolObjects.Connection.ExecuteCatalogStatement` | src/pool.rs:437-495 | dispatch in place: refused definitions change nothing, staged statements lock and then run, others autocommit or restore |
| `Merge.OverlayLocked` | src/pool.rs:604-620 | the loop over the locked string keys yields the overlay of the ids they name, or fails exactly when one cannot be read |
| `Merge.AppendBetween` | src/pool.rs:621-625 | the append loop adds exactly the staged rows between the two next row ids |
| `Merge.MergeInto` | src/pool.rs:599-628 | one table's merge in place is the specification |
| `Merge.MergeAll` | src/pool.rs:593-630 | the loop over the staged tables yields the merged catalog, or the error if any table fails |
| `LockKeys.RowKeyInjective` | src/pool.rs:651-653 | two row keys are equal only for the same table and id, colons in names notwithstanding |
| `LockKeys.ReadOfRowKey` | src/pool.rs:605-611 | a table reads its own keys exactly, fails on those of a table whose name continues its own after a colon, and passes over all others |
| `LockKeys.InsertKeyIsNoRow` | src/pool.rs:704-736 | an insert key is never a row key and no table reads it as one |
| `Sessions.AnswerLaw` | src/engine.rs:231-370 | over every run without a failed stale UPDATE each outcome follows from the statements sent and the outcomes before: control statements succeed exactly in turn and when the file can be written, and every other statement answers as on the replay of the log, unless a change outside a transaction cannot be written |
| `Answers.SelectAnswer` | src/engine.rs:570-584 | SELECT changes nothing, succeeds if and only if projected names, filter and order are accepted, and answers one projected row for each selected row, in order, cut to the limit |
| `Answers.InsertAnswer` | src/engine.rs:558-569 | INSERT succeeds if and only if there is one value for each column, each fits, and the primary key is not null and no other row's; it adds exactly that row at the next row id and answers with the growth of the table |
| `Answers.DeleteAnswer` | src/engine.rs:597-604 | DELETE succeeds if and only if its filter is accepted, takes away exactly the selected rows and answers with the loss |
| `Answers.UpdateAnswer` | src/engine.rs:585-596 | UPDATE succeeds if and only if its filter is accepted, every assignment names a column that takes its value and the new keys are distinct and not null; it assigns in exactly the selected rows and answers with their number |
| `Answers.CreateTableAnswer` | src/engine.rs:532-540 | CREATE TABLE succeeds if and only if the name is free, the column names are distinct and at most one is the primary key; it adds one empty table |
| `Answers.CreateIndexAnswer` | src/engine.rs:541-557 | CREATE INDEX succeeds if and only if the column exists, is text for a full-text index, and the name is free in the table; it adds that definition and changes no row |
| `Answers.UnknownTable` | src/engine.rs:541-615 | a statement on an unknown table, or none that runs on a catalog, fails and changes nothing |
| `Filters.FilterMeans` | src/storage/table.rs:596-746 | for every sound table a filter, as it was sent, is accepted if and only if it names a column of the right type and an equality a value the column takes, and then finds exactly the rows whose column holds the stored form of the value, whose text has all words, or whose point lies within the distance |
| `Filters.InsertedIsFound` | src/storage/table.rs:190-230 | after an accepted INSERT of a value for a column, WHERE with the same name and the same unconverted value finds the new row |
| `Filters.ValidatedStores` | src/storage/table.rs:825-860 | a column takes the values of its type and, for FLOAT, integers, which it stores as floats |
| `Orders.SortedOnPatterns` | src/storage/table.rs:292-304 | the order on bit patterns: non-negative patterns ascend, negative ones descend and come first, ties go by row id, DESC is the mirror; and it is the order of the numbers the patterns stand for |
| `Orders.NearestRows` | src/storage/table.rs:292-309 | a vector search with LIMIT k returns k of the selected rows with a vector, or all if fewer, and no row left out is nearer than one returned; DESC the farthest |
| `Orders.ComparesNumbers` | src/storage/table.rs:717-746 | the comparisons of floats are those of the numbers their patterns stand for (section 3.4 of IEEE 754-2008) |
| `Orders.FiniteIsBelowInfinity` | src/storage/table.rs:833-853 | the patterns that count as finite are those that stand for less than infinity, and those beyond it are no numbers |
| `Identifiers.SpellingOf` | src/identifier.rs:7-14 | a name in blanks, back quotes, double quotes and single quotes, in any case, stands for the bare name in lower case |
| `Databases.ReplayLaw` | src/engine.rs:231-365 | over every run with arbitrary write failures, the committed catalog is the replay, in order, of exactly the statements that succeeded outside a transaction or inside one that committed, and the open transaction continues it, as long as no statement is run inside a transaction that is, read off the state before it, a stale UPDATE with a key clash |
| `Databases.ReplayLawIff` | src/engine.rs:231-365 | the law holds at every moment of a run if and only if the run has no such statement, for every sound catalog and every tokeniser |
| `Databases.BreaksIff` | src/engine.rs:291-313 | a stale UPDATE inside a transaction fails if and only if its assignments would leave two rows with one primary key, or one without |
| `Databases.KeptTokeniserNeverStale` | src/engine.rs:526-616 | a run from a well-formed catalog has no stale UPDATE with the simple tokeniser, or without secondary index creation |
| `Counterexamples.StaleRunIsNotItsReplay` | src/engine.rs:309-350 | a run of CREATE INDEX, BEGIN, a failing UPDATE and COMMIT whose committed catalog is not the replay of what succeeded |
| `Databases.FailureChangesNothing` | src/engine.rs:291-365 | from every sound state, a failing statement leaves catalog, open transaction and file exactly as they were if and only if it is not a stale UPDATE inside a transaction; a failed COMMIT keeps the transaction open |
| `Databases.StepTracks` | src/engine.rs:231-365 | one statement that is not a failing stale UPDATE extends the log and the replay together |
| `Databases.DurableLaw` | src/engine.rs:477-504 | over every run, reopening the file gives the committed catalog up to next row ids and full-text tokeniser |
| `Databases.RestartLaw` | src/engine.rs:129-146 | a database opened on that file is well formed, durable, and encodes to the same text |
| `Databases.StepSound` | src/engine.rs:231-365 | every statement keeps committed and staged catalogs sound |
| `Databases.ExecuteStatement` | src/engine.rs:526-616 | statement execution on table objects is the specification on values |
| `Databases.ExecuteOnTable` | src/engine.rs:542-601 | the same for one table |
| `Databases.Database.Persist` | src/engine.rs:477-504 | a write replaces the file with the encoded catalog or changes nothing |
| `Databases.Database.Commit` | src/engine.rs:339-350 | COMMIT in place is the commit step, restoring the catalog on a failed write |
| `Databases.Database.ExecuteCatalogStatement` | src/engine.rs:291-313 | autocommit with a backup copy, or execution on the active catalog, is the specified step |
| `Databases.Database.ExecuteParsed` | src/engine.rs:231-239 | dispatch in place is the specified step and keeps the invariant |
| `Engine.ExecSound` | src/engine.rs:526-616 | every statement keeps every table filed under its name and sound |
| `Engine.ExecAtomic` | src/engine.rs:309-312 | a failing statement leaves a sound catalog exactly as it was, without a backup copy, if and only if it is not a stale UPDATE |
| `Engine.ExecTableAtomic` | src/storage/table.rs:342-376 | the same for one table |
| `Engine.UpdateErrsIff` | src/storage/table.rs:342-376 | an UPDATE whose filter and assignments are accepted fails if and only if the assigned rows have a null or repeated primary key |
| `Engine.ExecWellFormed` | src/engine.rs:526-616 | with the simple tokeniser, or without secondary index creation, every statement leaves the indexes those of the configured tokeniser |
| `Engine.ExecTableKeepsName` | src/storage/table.rs:190-407 | no statement changes a table's name, columns or primary key, or moves its next row id back |
| `Engine.ReadersChangeNothing` | src/sql/ast.rs:200-209 | statements that are not classed as mutating change nothing |
| `TableFacts.InsertRebuilds` | src/storage/table.rs:225-229 | from a sound table, the rebuild that ends INSERT cannot fail |
| `TableFacts.InsertSound` | src/storage/table.rs:190-229 | an accepted INSERT succeeds and leaves a well-formed table |
| `TableFacts.DeleteSound` | src/storage/table.rs:395-407 | the rebuild that ends DELETE cannot fail, and leaves a well-formed table |
| `TableFacts.AddIndexSound` | src/storage/table.rs:112-125 | the rebuild that ends secondary index creation cannot fail, and leaves a table well formed for the simple tokeniser |
| `TableFacts.AddFulltextSound` | src/storage/table.rs:144-167 | full-text index creation succeeds if and only if the column is a text column and the name is free |
| `TableFacts.FailedUpdateRestores` | src/storage/table.rs:342-376 | a failed UPDATE restores rows and all index maps if and only if it failed before storing or the full-text maps were those of the configured tokeniser |
| `Counterexamples.FailedUpdateDoesNotRestore` | src/storage/table.rs:369-374 | two rows with a full-text index, a secondary index created under another tokeniser than the simple one, and an UPDATE that gives both the same key: the rows come back, the full-text maps do not |
| `TableFacts.UpdateSound` | src/storage/table.rs:342-376 | a successful UPDATE leaves a well-formed table; a failed one the old rows |
| `TableFacts.BuiltIsWellFormed` | src/storage/table.rs:483-542 | rebuilding reaches a fixed point at once |
| `TableFacts.NewTableWellFormed` | src/storage/table.rs:75-104 | a new table is well formed for every tokeniser |
| `TableMeaning.InsertMeaning` | src/storage/table.rs:190-229 | INSERT succeeds if and only if the values fit their columns one to one and the primary key is given, not null and no other row's; it adds exactly one row, at the next row id, with the given values and null elsewhere |
| `TableMeaning.UpdateMeaning` | src/storage/table.rs:342-376 | from any sound table, UPDATE assigns to exactly the rows the filter finds and counts them; these are rows of the table, and exactly those the filter holds of if and only if the lookup takes no index that disagrees with a scan; it succeeds if and only if filter and assignments are acceptable and the new primary keys are distinct and non-null; a failure leaves all but at most the full-text maps as they were |
| `TableMeaning.DeleteMeaning` | src/storage/table.rs:395-407 | from any sound table, DELETE removes exactly the rows the filter finds (with the same exact condition for these to be the rows it holds of), and the rows left and the reported count add up to the rows before |
| `TableMeaning.SelectMeaning` | src/storage/table.rs:260-319 | from any sound table, SELECT succeeds if and only if projection, filter and order are accepted; it returns the projections of exactly the rows the filter finds, under the same exact condition those it holds of (with an order, of those with a vector, each once), by row id or by score, cut to the limit |
| `TableMeaning.OrderMeaning` | src/storage/table.rs:274-304 | an order is accepted if and only if it names a vector column, has the configured dimension and every selected vector has a distance; it then lists exactly the selected rows with a vector, sorted |
| `TableMeaning.AssignAt` | src/storage/table.rs:360-366 | assigning left to right leaves each column with its last assigned value and the others alone |
| `TableMeaning.NormalizedAt` | src/storage/table.rs:350-357 | assignments are accepted exactly when every one names a column that takes its value |
| `TableMeaning.FillIsAssign` | src/storage/table.rs:214-222 | the row an INSERT builds is what the same assignments make of a row of nulls, with the same errors |
| `TableMeaning.ValidatedIff` | src/storage/table.rs:825-861 | a column takes exactly the values that fit its type and the configured dimension, unchanged but for integers in a float column |
| `TableObjects.CreateTableValue` | src/storage/table.rs:75-104 | the loop over the columns accepts exactly distinct names with at most one primary key |
| `TableObjects.AddToIndexes` | src/storage/table.rs:520-526 | adding one row to all secondary indexes gives the indexes of the enlarged table, or fails on a value that cannot be indexed |
| `TableObjects.AddToFulltext` | src/storage/table.rs:528-538 | adding one row to all full-text indexes gives the indexes of the enlarged table |
| `TableObjects.TableObject.RebuildIndexes` | src/storage/table.rs:483-542 | the row-by-row rebuild succeeds exactly when keys are present, distinct and indexable, and then gives the declarative index contents |
| `TableObjects.TableObject.CreateIndex` | src/storage/table.rs:112-125 | in place: the specified table, and nothing changed on failure |
| `TableObjects.TableObject.CreateFulltext` | src/storage/table.rs:144-167 | in place: the specified table, and nothing changed on failure |
| `TableObjects.TableObject.BuildRow` | src/storage/table.rs:196-223 | the loop over columns and values builds the specified row or the same error |
| `TableObjects.TableObject.Insert` | src/storage/table.rs:190-229 | in place and with no backup: the specified table, and nothing changed on failure |
| `TableObjects.TableObject.AssignRows` | src/storage/table.rs:360-366 | the nested loops overwrite exactly the matched rows |
| `TableObjects.TableObject.Update` | src/storage/table.rs:342-376 | in place: the specified table and count, including the restore after a failed rebuild; every matched id is a row |
| `TableObjects.TableObject.Delete` | src/storage/table.rs:395-407 | in place: the specified table and count, and nothing changed on failure |
| `TableObjects.TableObject.Select` | src/storage/table.rs:260-319 | the query in steps returns the specified rows |
| `AccessPaths.MatchingAgreesIff` | src/storage/table.rs:678-746 | for every filter, the row ids found are those of a scan defined on columns and rows alone, in the same order, if and only if the filter is refused, or an indexed equality meets one spelling of the number, or an indexed MATCH meets tokenisers that agree |
| `AccessPaths.SoundMatchingIff` | src/storage/table.rs:678-746 | the same for every table the engine holds, under every tokeniser |
| `AccessPaths.MatchingAgrees` | src/storage/table.rs:678-746 | lookups agree with the scan for an equality without negative zeros, for a MATCH on maps of the configured tokeniser, and always for other filters |
| `AccessPaths.EqualityAgreesIff` | src/storage/table.rs:678-746 | an indexed equality agrees with the scan if and only if the column holds the wanted number in one spelling |
| `Counterexamples.NegativeZeroDisagrees` | src/storage/table.rs:717-717 | a concrete table with an index and a stored -0.0 where they disagree on 0.0 |
| `AccessPaths.FulltextAgreesIff` | src/storage/table.rs:754-803 | indexed MATCH gives the scan's answer if and only if the query has no words or every row has them all under the tokeniser that filled the index exactly when it does under the configured one |
| `Counterexamples.FulltextDisagrees` | src/storage/table.rs:754-803 | text "a-b" indexed as two words and searched as one: the index finds nothing, the scan finds both rows |
| `AccessPaths.PrimaryIsExact` | src/storage/table.rs:686-691 | the primary map finds exactly the row holding the key |
| `AccessPaths.PostingIsExact` | src/storage/table.rs:694-712 | a secondary index finds exactly the rows holding the value |
| `AccessPaths.MatchingInRows` | src/storage/table.rs:678-746 | every matched id is the id of a row, whichever tokeniser filled the index |
| `AccessPaths.MatchingFinds` | src/storage/table.rs:678-746 | for every sound table a lookup lists, in ascending order, the rows with the exact value if it takes an index for an equality, those with an equal number if it scans, and for a MATCH those with all words under the tokeniser that decides |
| `AccessPaths.FoundIsHitsIff` | src/storage/table.rs:678-746 | these are the rows the filter holds of if and only if the path taken agrees with a scan |
| `AccessPaths.LimitIsPrefix` | src/storage/table.rs:306-309 | LIMIT k returns the first k rows of the unlimited query |
| `Invisible.IndexIsInvisible` | src/storage/table.rs:112-167 | from any sound catalog, after creating any index, every later run of SELECT, INSERT, UPDATE, DELETE and CREATE TABLE gives the same results, counts, errors and data as without it, provided each lookup of the run is one the two catalogs answer alike |
| `Invisible.IndexIsInvisibleToPlainRuns` | src/storage/table.rs:112-167 | this is so when catalog and run hold no negative zero and the run has no MATCH, or the simple tokeniser is configured, or the new index is a full-text one and the maps are those of the configured tokeniser |
| `Invisible.IndexChangesLookupIff` | src/storage/table.rs:112-167 | creating an index, secondary or full-text, leaves a lookup on the table alone if and only if the filter is refused, or an equality meets one spelling of the number or the same access path, or the tokenisers that decide a MATCH before and after see the rows alike |
| `Invisible.LookupAlikeIff` | src/storage/table.rs:678-746 | the same condition for any two sound tables with the same data |
| `Counterexamples.IndexShowsInMatch` | src/storage/table.rs:112-125 | a MATCH that finds two notes before CREATE INDEX and none after it |
| `Counterexamples.IndexShowsOnNegativeZero` | src/storage/table.rs:112-125 | an equality with 0.0 that finds a stored -0.0 before CREATE INDEX and not after it |
| `Invisible.RunAlike` | src/storage/table.rs:260-407 | two sound catalogs that differ only in indexes answer every run alike whose lookups they answer alike |
| `Selects.VectorScoresChunk` | src/storage/table.rs:962-977 | the scoring loop is one pass, first error included |
| `Selects.VectorScores` | src/storage/table.rs:926-954 | for every worker count, chunked scoring returns the same list or the same first error as one pass |
| `Selects.SortScored` | src/storage/table.rs:292-304 | the result is sorted by the total order of section 5.10 of IEEE 754-2008 and row id, and is a permutation of the scores |
| `Selects.SortedUnique` | src/storage/table.rs:292-304 | the order depends only on the set of scored rows |
| `Selects.DescendingReverses` | src/storage/table.rs:292-304 | DESC is the exact reverse of ASC |
| `CatalogRoundTrip.DecodeOfEncode` | src/storage/catalog.rs:33-193 | for every storable catalog, decoding its encoding succeeds and gives the same tables, columns, rows, definitions and rebuilt indexes, with the least next row id |
| `CatalogRoundTrip.TextFixedPoint` | src/storage/catalog.rs:33-193 | encoding what was decoded gives the same text |
| `CatalogRoundTrip.EncodeSameText` | src/storage/catalog.rs:33-80 | the text depends on neither next row ids nor index contents |
| `CatalogRoundTrip.LeastNext` | src/storage/catalog.rs:163-175 | the next row id after decoding is the least one of at least 1 above every stored id |
| `CatalogRoundTrip.RereadWellFormed` | src/storage/catalog.rs:99-193 | for a table indexed with the configured tokeniser nothing but the next row id changes |
| `AcceptedFiles.DecodedGuarantee` | src/storage/catalog.rs:99-193 | any accepted text is empty or begins with the header, each line stands where it may and every table is ended; every table has distinct columns, at most one key, the least next row id and indexes that hold exactly its rows |
| `AcceptedFiles.LineEndsIgnored` | src/storage/catalog.rs:99-110 | a file is read alike whichever of its lines end in a carriage return and a line feed and whichever in a line feed alone |
| `AcceptedFiles.TypeSpellings` | src/sql/ast.rs:163-173 | each column type may be given by each of its names, in any case and with blanks around it |
| `AcceptedFiles.TagsNameVariants` | src/storage/codec.rs:39-104 | an accepted value text has the tag of its variant, and a boolean is nothing but 0 or 1 |
| `Catalogs.EncodeCatalogLoop` | src/storage/catalog.rs:33-80 | the nested loops that push onto a string produce the specified text |
| `Catalogs.DecodeCatalogLoop` | src/storage/catalog.rs:99-193 | the loop over lines is the specified decoder |
| `Codec.ValueRoundTrip` | src/storage/codec.rs:10-104 | decoding an encoded value gives it back bit for bit, for all seven variants |
| `Codec.EncodeValueSafe` | src/storage/codec.rs:10-30 | no encoding contains a tab, a line break or an equals sign |
| `Codec.StringRoundTrip` | src/storage/codec.rs:116-144 | hexadecimal string encoding over UTF-8 (section 4 of RFC 3629) is undone by decoding |
| `Codec.DecodeStringLoop` | src/storage/codec.rs:130-144 | the loop over digit pairs is the specified decoder |
| `Codec.IndexKeyNamesValue` | src/storage/table.rs:889-918 | exactly the finite values have an index key, and it is their file encoding |
| `Codec.IndexKeyInjective` | src/storage/table.rs:889-918 | two finite values have the same key only if they are the same value of the same variant |
| `Text.FromUtf8OfUtf8` | src/storage/codec.rs:116-144 | decoding UTF-8 undoes encoding |
| `Text.Utf8OfFromUtf8` | src/storage/codec.rs:130-144 | only the one encoding of each string is accepted |
| `Scanner.SplitTopLevelLoop` | src/sql/parser.rs:1167-1197 | the loop with quote, parenthesis and bracket counters gives the specified segments |
| `Scanner.SplitOnceLoop` | src/sql/parser.rs:1133-1159 | the loop finds the specified first cut |
| `Cuts.SplitsAtCuts` | src/sql/parser.rs:1167-1197 | the splitter cuts at exactly the delimiters outside quotes before which every parenthesis and every bracket is closed, as counted on the text, and gives the trimmed stretches in between |
| `Cuts.SplitsOnceAtFirst` | src/sql/parser.rs:1133-1159 | splitting once splits at the first of these positions |
| `Scanner.SegmentsJoin` | src/sql/parser.rs:1167-1197 | the untrimmed segments joined by the delimiter are the input |
| `Scanner.SplitStable` | src/sql/parser.rs:1167-1197 | every segment of a split splits to itself |
| `Scanner.SplitOnceIsFirstCut` | src/sql/parser.rs:1133-1159 | splitting once gives the first segment and a rest that splits into the others |
| `Scanner.LiteralListRoundTrip` | src/sql/parser.rs:1012-1075 | printing a list of finite values of all seven kinds, over any float printer whose numerals parse back, and parsing it gives the list back bit for bit, if and only if it is not empty |
| `Scanner.LiteralParses` | src/sql/parser.rs:1012-1055 | each printed literal, with quotes doubled as in subclause 5.3 of ISO/IEC 9075-2, points as POINT(lon,lat) and vectors in brackets, parses to its value |
| `Scanner.TextParses` | src/sql/parser.rs:1063-1075 | text in either kind of quotes, with those inside doubled, parses to the text |
| `Literals.ParsedFinite` | src/sql/parser.rs:1012-1055 | every accepted literal is a finite value, whatever the float parser yields |
| `Literals.PointNeedsTwo` | src/sql/parser.rs:1029-1038 | a point of n coordinates is accepted if and only if n is two |
| `Literals.WordsParse` | src/sql/parser.rs:1014-1022 | NULL, TRUE and FALSE parse in any case |
| `Permits.PermitLaw` | src/pool.rs:110-164 | in every reachable state permits and live connections add up to the maximum, and if a thread sleeps while a permit is free some woken thread has yet to run |
| `Permits.StepMeans` | src/pool.rs:110-164 | what each call does in counts: get and try_get take a free permit; without one get sleeps and try_get changes nothing; a drop frees one and wakes one sleeper |
| `Permits.LiveIsGotLessDropped` | src/pool.rs:110-164 | over every run the live connections are those got and not yet dropped |
| `Permits.StepOk` | src/pool.rs:562-582 | every step, spurious wakeups and barging included, conserves permits and loses no wakeup |
| `Permits.PermitCounter.Enter` | src/pool.rs:110-126 | taking a permit or falling asleep in place |
| `Permits.PermitCounter.TryEnter` | src/pool.rs:144-152 | taking a permit or nothing in place |
| `Permits.PermitCounter.Reenter` | src/pool.rs:116-124 | the second look of a woken thread in place |
| `Permits.PermitCounter.GiveBack` | src/pool.rs:578-581 | returning a permit and waking one sleeper in place |
| `StatementCache.CacheIsTransparent` | src/engine.rs:52-70 | over any sequence of calls the cache answers as the parser would, whatever it evicts, and never exceeds its capacity |
| `StatementCache.KeyOf` | src/sql/parser.rs:26-30 | the text parsed is the statement without the blanks around it, the semicolons at its end and the blanks before them, and nothing else is taken away |
| `StatementCache.LookupStores` | src/engine.rs:668-691 | a new statement is entered, and only when the cache is full does the entry with the least key go; a hit or an error leaves the cache alone |
| `StatementCache.LookupIsParse` | src/engine.rs:668-691 | one call does |
| `StatementCache.ParsedStatementCache.Parse` | src/engine.rs:52-70 | the cache in place is the specification and stays faithful |

## Left out

- Row ids are unbounded numbers here, 64-bit unsigned in the program; their overflow, when incremented or when read from text, is not modelled.
- Error messages and the texts of query results; errors are kept apart only as parse, execution and I/O errors.
- Tokenising, geographic and vector distance, integer to float conversion and float parsing are parameters, not definitions.
- The real steps of writing the file (directory creation, temporary file, chunks, sync, rename); a write is one atomic replacement or failure.
- Redo, undo, binary, slow-query and error logs, option validation, and the SQL text that `execute` starts from.
- The formatting of EXPLAIN; only that it reads and when it fails.
- The statement families that are parsed but never executed, and all of the parser but its splitter and literals.
- Mutex poisoning, thread panics, and fairness of the condition variable beyond lost wakeups.
- Serializability, isolation from autocommitted writes, and exclusion between definitions and transactions, none of which the program provides.
- Foreign-function bindings.
- Tables read from a file that was edited by hand and violates its own column types; the laws assume tables the engine itself could have produced.
- PoolHistories.HeldRowLaw: excludes autocommitted statements that overwrite the held row, since these never consult the lock table; HeldStepIff says exactly which they are.
- PoolObjects.Connection.ExecuteCatalogStatement: composes its mutex sections with no step of another connection between them; each section alone is the step of the pool machine, where all interleavings are covered.
- TableObjects.TableObject.RebuildIndexes: after a failed rebuild only the definitions and rows are specified, not how far the maps were filled.
- Engine.ExecTableAtomic: on a table that is not sound, the row and next row id a failing INSERT would leave behind are not modelled; from every sound table that rebuild cannot fail.
