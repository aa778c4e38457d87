# Prost, verified

Prost is a database workbench: a web client edits and queries target databases through an API server. This project models
the parts of it that carry state or recursion and proves what the code promises about them. Each model keeps the form of
the code: objects with mutable fields are classes, loops are loops, pure code is functions. A method is proved against a
specification function or predicate, and the lemmas are about that specification.

Check everything with `dafny verify dfyconfig.toml --resource-limit 2000000`.

## Parts

* **SQL scripts.** `StatementSplitter` is the index-jumping splitter. `StatementLexer` is the reference: a machine that reads
  one character at a time and cuts at top-level semicolons. The two agree on every script. `SqlTokens` says what that means:
  every script is a list of quoted texts, comments, dollar literals and other characters, and splitting cuts that list at its
  semicolons. `SplitterRoundTrip` proves that each statement splits to itself, that joining with line feed and semicolon
  loses nothing, and exactly when a bare semicolon will do as a joiner.
* **Schema comparison and migration.** `SchemaDiff` compares, `Migration` lists the operations, `LiveSchema` gives every
  operation a partial effect (creating needs the name free, dropping and altering need it taken). `MigrationConverges` and
  `MigrationTheorems` prove that the list always runs, that the target then has the source's shape, that a second migration
  only rebuilds indexes and foreign keys and changes nothing, and that it does not matter on which side the source was passed.
  `MigrationColumns` proves exactly when every index and foreign key is created on columns that are there by then, and
  `MigrationOrder` the order of the whole list.
* **Staged edits and the guarded write.** `EditBuffer` and `EditBufferState` are the client's buffer, `BulkUpdate` the
  transaction on the server, `GuardedUpdates` its statements on the table, `NoLostUpdate` what the guards make of a batch.
  `GridSaves` goes from the cells typed into the
  grid to the table: each edit is written to the row it was typed into, and a save goes through exactly when every edited
  cell still holds the value the user loaded. A column named like a property that every JavaScript object inherits
  (`valueOf`) escapes the guard. As long as a row key stands for one row, `NoLostUpdateExactly` shows that this is the only
  way to lose an update, and `LostUpdate` that it always is one. The grid joins key values with `::`, so rows with a compound
  key can share a row key: `LostEdits` says when, and shows an edit that then lands in the other row. `KeyEdits` lets key
  columns be edited: then a save can also write to a row that took the key of a deleted one, and it says exactly when.
* **Streaming cursors over pooled connections.** `CursorStream`, `CursorSessions` serve a result in blocks under a row budget.
  `PoolManager` counts cursors and closes idle pools, `PoolEviction` says which. `CursorAccounting` and `CursorRuns` interleave
  all of it: an event runs from one `await` to the next, in any order. Caps that the code can miss come with their exact
  condition and a run that misses them.
* **Running a script.** `QueryStatements`, `QueryExecution`, `QueryAudit`, `QueryTheorems`: the read-only gate, autocommit and
  transactional execution on an abstract engine, the audit trail, and when the trail tells the truth.
* **Export.** `Csv` writes records and reads them by section 2 of RFC 4180, `Export` and `ExportInserts` stream a result as CSV,
  JSON or INSERT statements, redacted and within the row budget.
* **Event stream of the assistant.** `SseReader` reads frames from chunks cut anywhere, `SseFrames` says what any frame does,
  `SseRoundTrip` writes the server's frames and proves that the reader inverts the writer.
* **Filters and plans.** `RowFilter`, `LikePattern`, `FilterTheorems`: from a filter to a WHERE clause and back to its meaning in
  three-valued logic. `PlanPruning`: the bounded prefix of a query plan.

## What is assumed

* A statement that fails changes nothing, and a transaction that is rolled back, or whose commit fails, changes nothing.
* A driver's cursor returns the next rows in order; a short block is the last one, and completion is only reported at the end.
* Every transaction that writes a row gives it a version that nobody has read before (for `TokenLosesNothing`).
* A guarded update touches the row with the given key when the guard holds, and no row otherwise.
* The JSON encodings fill one line and parse back to what was written. Byte chunks are already decoded to text.
* The parser of SQL and the lexical checks for `EXPLAIN` and for what looks like a SELECT are parameters, as are the rendering of
  a row as JSON or as an INSERT tuple, the redaction of plan details, the clock, and whether a library call fails.
* A pattern's backslash takes the next character literally, as in PostgreSQL and MySQL.

## Where the code and its documentation differ

* The splitter's comment says that segments made of comments only are dropped. The code keeps them; so does the model.
* Candidates for an index or a foreign key on both sides are emitted even when nothing differs. The model does the same, which is
  why the fixpoint is stated as drop-and-create pairs with no net effect.
* The comment on redaction says that columns a row does not carry are left alone. A masked column with an inherited name is
  added to such a row, since the test for it looks at inherited properties too; the model adds it.
* The first block of a stream is one page whatever the budget. `BudgetKeptExactly` gives the exact condition.

## Model

| member | source | states |
|---|---|---|
| `StatementSplitter.SplitStatements` | apps/api/src/query/statement-splitter.ts:10-89 | The jumping scanner returns exactly the trimmed, non-blank pieces that the character-by-character machine cuts at top-level semicolons, and ends on every input; what the machine cuts is stated by the members of `SqlTokens` below |
| `StatementSplitter.SkipBlock` | apps/api/src/query/statement-splitter.ts:25-41 | Stops after the mark that closes the nested comment, or at the end, where the machine is back outside with the same rest to cut |
| `StatementSplitter.SkipQuote` | apps/api/src/query/statement-splitter.ts:45-59 | Stops after the closing mark, past doubled ones, with the same rest to cut |
| `StatementLexer.PiecesRejoin` | apps/api/src/query/statement-splitter.ts:75-88 | The raw pieces put back together with semicolons are the script |
| `SqlTokens.SplitOfTokens` | apps/api/src/query/statement-splitter.ts:10-89 | For any list of quoted texts, line comments, nested block comments, dollar literals, semicolons and characters that begin nothing: splitting its text gives the texts between its semicolon tokens, trimmed, blank ones dropped |
| `SqlTokens.TokensOf` | apps/api/src/query/statement-splitter.ts:10-89 | Every script is the text of such a list, and splitting it cuts that list |
| `SqlTokens.DollarLiteralAlone` | apps/api/src/query/statement-splitter.ts:61-72 | For every tag (none, or a letter or underscore with letters, digits and underscores) and every body that does not close it early, the literal is one statement whatever semicolons it has |
| `SqlTokens.FencesExactly` | apps/api/src/query/statement-splitter.ts:1 | Two fences with a semicolon between them are one statement if and only if what they enclose is a tag; otherwise they are two |
| `SplitterRoundTrip.EachAlone` | apps/api/src/query/statement-splitter.ts:10-89 | Every statement returned for a script splits to itself alone |
| `SplitterRoundTrip.SplitOfJoin` | apps/api/src/query/statement-splitter.ts:19-23 | The returned list joined by line feed and semicolon splits to the same list |
| `SplitterRoundTrip.BareJoiner` | apps/api/src/query/statement-splitter.ts:19-23 | A bare semicolon as joiner gives the list back if and only if no statement but the last ends in a line comment |
| `SplitterRoundTrip.BareJoinerFails` | apps/api/src/query/statement-splitter.ts:19-23 | A script for which the bare joiner fails |
| `SchemaDiff.DiffMirror` | apps/api/src/schema-diff/diff.util.ts:81-112 | Swapping the sides gives the same tables and members in the same order with sides swapped and added and removed exchanged |
| `SchemaDiff.NoChangeMeansAgreement` | apps/api/src/schema-diff/diff.util.ts:63-73 | All entries are unchanged if and only if both sides have the same names with equal members |
| `SchemaDiff.EntriesMeaning` | apps/api/src/schema-diff/diff.util.ts:63-73 | One entry per name of either side, in ascending order, with what each side has under it; added, removed and unchanged mean only right, only left, and equal on both |
| `SchemaDiff.LastCounts` | apps/api/src/schema-diff/diff.util.ts:64-65 | Of several items with one name, the last is the one compared |
| `Names.PrecedesExactly` | apps/api/src/schema-diff/diff.util.ts:66 | A name comes first if and only if, after what both begin with, it ends or goes on with a smaller character |
| `SchemaDiff.TableStatusMeaning` | apps/api/src/schema-diff/diff.util.ts:81-112 | Every table of either side is listed; it is added, removed, changed or unchanged if and only if it is only on the right, only on the left, on both with members that differ, or on both with members that agree |
| `MigrationTheorems.AgreeExactly` | apps/api/src/schema-diff/diff.util.ts:26-53 | The members of two tables compare as equal if and only if the engine would hold the same table, and a missing referential action is spelt alike on both sides |
| `MigrationTheorems.UnchangedExactly` | apps/api/src/schema-diff/diff.util.ts:103-106 | A table is unchanged if and only if both sides have it and that holds |
| `Migration.BuildMigrationCandidates` | apps/api/src/schema-diff/diff.util.ts:145-262 | The nested loops push exactly the operations that the table-by-table, entry-by-entry specification lists, in order; the next two members state that order without it |
| `MigrationColumns.ColumnsAtHandExactly` | apps/api/src/schema-diff/diff.util.ts:145-262 | After any number of the operations, the next one creates an index or a foreign key only on columns its table then has, if and only if no index or foreign key of the source names a column its own table lacks (primary indexes aside) |
| `MigrationOrder.CandidatesInOrder` | apps/api/src/schema-diff/diff.util.ts:149-260 | The list goes by table name, within a table by creation, columns, indexes, foreign keys, within those by member name, drop before create, nullability before default before type; a new table has its columns by name |
| `Migration.ReconcileTable` | apps/api/src/schema-diff/diff.util.ts:149-260 | One turn of the outer loop: create with all members, drop, or reconcile members |
| `Migration.CreateIndexes` | apps/api/src/schema-diff/diff.util.ts:160-168 | A new table gets the source's non-primary indexes |
| `Migration.CreateForeignKeys` | apps/api/src/schema-diff/diff.util.ts:169-174 | A new table gets the source's foreign keys |
| `Migration.ReconcileColumns` | apps/api/src/schema-diff/diff.util.ts:185-218 | Column operations for a table on both sides |
| `Migration.ReconcileColumn` | apps/api/src/schema-diff/diff.util.ts:186-217 | One column: add, drop, or alter nullability, default and type |
| `Migration.ReconcileIndexes` | apps/api/src/schema-diff/diff.util.ts:220-239 | Index operations, skipping names that are primary on either side |
| `Migration.ReconcileForeignKeys` | apps/api/src/schema-diff/diff.util.ts:241-258 | Foreign-key operations |
| `LiveSchema.RunAppend` | apps/api/src/schema-diff/diff.util.ts:138-145 | Running a list is running its parts one after the other, failing when either part fails |
| `LiveSchema.RunOnOneTable` | apps/api/src/schema-diff/diff.util.ts:149-260 | Operations on one table leave all other tables alone |
| `MigrationConverges.TableRuns` | apps/api/src/schema-diff/diff.util.ts:149-260 | One table's operations meet all their preconditions in order and reconcile that table |
| `MigrationTheorems.MigrationRuns` | apps/api/src/schema-diff/diff.util.ts:145-262 | For any two schemas the whole list runs on the target with every precondition met |
| `MigrationTheorems.MigrationReachesSource` | apps/api/src/schema-diff/diff.util.ts:145-262 | Afterwards the target has the source's tables, columns (type, nullability, default), foreign keys, and every index whose name is primary on neither side; only flags of shared columns and primary indexes may differ |
| `MigrationTheorems.ConvergedStays` | apps/api/src/schema-diff/diff.util.ts:138-145 | Converging twice is converging once: a converged target that converges again is the same |
| `MigrationTheorems.AtRestOnlyRebuilds` | apps/api/src/schema-diff/diff.util.ts:185-258 | Comparing with a converged target asks only for drop-then-create pairs of indexes and foreign keys |
| `MigrationTheorems.MigrationFixpoint` | apps/api/src/schema-diff/diff.util.ts:185-258 | Diffing and migrating again after a converged run proposes only such pairs, and running them leaves the target unchanged |
| `MigrationTheorems.CandidatesMirror` | apps/api/src/schema-diff/diff.util.ts:145-262 | The same source gives the same list of operations whichever side it is on |
| `MigrationTheorems.DestructiveMeansRemoval` | apps/api/src/schema-diff/diff.util.ts:265-271 | An operation is flagged destructive if and only if running it removes something that was there |
| `MigrationTheorems.HarmlessRun` | apps/api/src/schema-diff/diff.util.ts:264-271 | A run without flagged operations never loses a table, column, index or foreign key |
| `EditBufferState.EditBufferHook.Stage` | apps/web/src/grid/useEditBuffer.ts:45-68 | The buffer after one staged edit |
| `EditBufferState.EditBufferHook.Clear` | apps/web/src/grid/useEditBuffer.ts:70 | The buffer is empty |
| `EditBufferState.EditBufferHook.DirtyCells` | apps/web/src/grid/useEditBuffer.ts:72-75 | Counts the edited cells over all rows |
| `EditBufferState.EditBufferHook.BuildBody` | apps/web/src/grid/useEditBuffer.ts:84-89 | One row edit per buffered row, each with its guard |
| `EditBufferState.BuildRowEdit` | apps/web/src/grid/useEditBuffer.ts:24-35 | Lists the row's edits once each, with the version or with exactly the captured values of the edited columns |
| `EditBufferState.DirtyAreDiffering` | apps/web/src/grid/useEditBuffer.ts:72-75 | The dirty cells are exactly the loaded cells that show something else |
| `EditBuffer.BufferIsDifference` | apps/web/src/grid/useEditBuffer.ts:45-68 | After any calls on ordinary column names that pass the displayed value, the buffer holds exactly the cells whose displayed value differs from the loaded one, with both values, and no row is empty |
| `EditBuffer.DifferenceExactly` | apps/web/src/grid/useEditBuffer.ts:45-68 | After any calls from the grid the buffer is that difference if and only if no staged column carries a name that objects inherit |
| `EditBuffer.CapturedExactly` | apps/web/src/grid/useEditBuffer.ts:50-57 | Every edit has its loaded value captured if and only if no staged column carries a name that objects inherit |
| `EditBuffer.InheritedStays` | apps/web/src/grid/useEditBuffer.ts:50-57 | An edit under an inherited name is never withdrawn, even back to the loaded value |
| `BulkUpdate.TableStore.Query` | apps/api/src/database/db-driver.interface.ts:161-172 | A guarded update changes the one row whose key and guard match, or nothing |
| `BulkUpdate.TableStore.ReselectRow` | apps/api/src/grid/grid.service.ts:338-360 | Re-reads a row by the key it has after its edits, which `GuardedUpdates.UpdateMovesRow` shows to be the key its own columns then hold |
| `BulkUpdate.RunInTransaction` | apps/api/src/grid/grid.service.ts:312-327 | Runs the updates in order up to the first conflict; a conflict restores the table |
| `BulkUpdate.Prepare` | apps/api/src/grid/grid.service.ts:306-310 | Either every row is validated and guarded, in order, or the error is that of the first row that is refused |
| `BulkUpdate.BulkUpdateRows` | apps/api/src/grid/grid.service.ts:285-331 | All or nothing: the table is unchanged on every error; on success the request was acceptable, each update is addressed by its own key values, no row is added, lost or overwritten, rows stay filed under their own key columns, rows not named are untouched, and every refreshed row carries its edits |
| `BulkUpdate.AcceptedExactly` | apps/api/src/grid/grid.service.ts:296-310 | The request reaches the table if and only if the connection is writable, table and key exist, no masked column is edited, and every row has the key columns and no others, edits of known columns only, and a version or values of known columns as its guard |
| `BulkUpdate.PrecheckInOrder` | apps/api/src/grid/grid.service.ts:296-304 | Which error the checks of the whole request give, in their order |
| `BulkUpdate.RefusedInOrder` | apps/api/src/grid/grid.service.ts:362-407 | Which error a refused row gives: for its key, then its edits, then an unknown column, then its guard |
| `BulkUpdate.UnknownNamed` | apps/api/src/grid/grid.service.ts:371-377 | The first edited column that the table lacks is the one the error names |
| `GuardedUpdates.UpdateMovesRow` | apps/api/src/grid/grid.service.ts:346-347 | An update, key columns edited or not, moves exactly its row to a key no other row had, with its edits and nothing else changed, and keeps every row filed under its own key columns |
| `GuardedUpdates.RefusedExactly` | apps/api/src/grid/grid.service.ts:312-327 | A row that matches is refused if and only if it would get a NULL in its key or the key columns of another row |
| `GuardedUpdates.BatchKeepsKeys` | apps/api/src/grid/grid.service.ts:312-327 | The same for a whole batch: as many rows as before, each filed under its own key columns, unnamed rows untouched, every refreshed row with its edits |
| `NoLostUpdate.UpdateInPlace` | apps/api/src/database/db-driver.interface.ts:161-172 | Without key edits a row keeps its key, and an update misses or replaces that row's cells only |
| `NoLostUpdate.BatchExactly` | apps/api/src/grid/grid.service.ts:312-327 | A batch of distinct rows succeeds if and only if every guard held before it began, and then the table is the old one overlaid with exactly the edits |
| `NoLostUpdate.GuardComparesEdits` | apps/api/src/grid/grid.service.ts:383-407 | The guard of a row built from the buffer compares exactly the edited cells with their loaded values |
| `NoLostUpdate.SaveExactly` | apps/api/src/grid/grid.service.ts:285-331 | For a buffer that is a difference: a save succeeds if and only if every edited cell held its loaded value just before, then the table shows exactly the edits and nothing else changed |
| `NoLostUpdate.TokenSaveExactly` | apps/api/src/database/types.ts:108-115 | With row versions a save succeeds if and only if every row still carries the version its buffer entry has kept |
| `GridSaves.EntryIdentity` | apps/web/src/grid/useEditBuffer.ts:63-66 | When a row key stands for one row, every buffer entry has kept the key values and the version that row was read with |
| `GridSaves.SaveKeys` | apps/web/src/grid/useEditBuffer.ts:24-35 | Every update is addressed to the key values of the row its edits were typed into, and no row is updated twice |
| `GridSaves.GridSaveKeys` | apps/web/src/grid/useEditBuffer.ts:24-35 | Without edits of key columns no key is changed either |
| `GridSaves.SaveOfGrid` | apps/web/src/grid/useEditBuffer.ts:24-68 | For any edits typed on ordinary column names: the save goes through if and only if every edited row, found by its own key, still shows its loaded values in the edited cells; then each edit is in the row it was typed into and nothing else changed |
| `GridSaves.Save` | apps/api/src/grid/grid.service.ts:285-331 | From the hook's buffer through the request to the table: on an error nothing changes; on success every edited cell of the row typed into held its loaded value before, and that row has exactly the edits |
| `GridSaves.TokenSaveOfGrid` | apps/api/src/database/types.ts:108-115 | With row versions the save goes through if and only if every row typed into still carries the version it was read with |
| `GridSaves.OtherStamp` | apps/api/src/database/db-driver.interface.ts:161-172 | A row that does not carry a transaction's stamp was not touched by it |
| `GridSaves.VersionMeansUnchanged` | apps/api/src/database/types.ts:35-40 | After any transactions with stamps of their own, a row that still carries the version it was read with is the row that was read, cell for cell |
| `GridSaves.TokenLosesNothing` | apps/api/src/database/types.ts:108-115 | After any such transactions, a save with row versions goes through if and only if every row typed into is, in every cell, still the row that was read |
| `GridSaves.NoLostUpdateExactly` | apps/web/src/grid/useEditBuffer.ts:45-68 | An accepted save of edits from the grid loses no update on any table if and only if no staged column carries an inherited name (or a key is NULL, and no such save ever succeeds) |
| `GridSaves.NoInheritedEdits` | apps/web/src/grid/useEditBuffer.ts:50-57 | No inherited name was staged if and only if none is among the buffer's edits |
| `GridSaves.LostUpdate` | apps/web/src/grid/useEditBuffer.ts:50-57 | Whenever an inherited name was staged, a table on which the save succeeds and overwrites, in the row it was typed into, a value that was never loaded |
| `LostEdits.LostUpdateUnderInheritedName` | apps/web/src/grid/useEditBuffer.ts:50-57 | Two typed edits whose own save runs and overwrites a 99 that somebody else wrote over the loaded 5 with 6 |
| `LostEdits.RowKeysDistinctExactly` | apps/web/src/workspace/TableView.tsx:211-214 | Different key values always have different row keys if and only if the key has at most one column |
| `LostEdits.RowKeysDistinct` | apps/web/src/workspace/TableView.tsx:211-214 | Key values without colons have row keys of their own, however many columns |
| `LostEdits.EditLandsInOtherRow` | apps/web/src/workspace/TableView.tsx:211-227 | Two rows that share a row key: the save succeeds and writes what was typed into the first row to the second |
| `KeyEdits.MovesExactly` | apps/api/src/grid/grid.service.ts:312-327 | A batch that goes through found every row it names in the table if and only if no row was moved to the key of a row updated after it; then each row has exactly its own edits, at its new key |
| `KeyEdits.KeySaveExactly` | apps/web/src/grid/useEditBuffer.ts:24-68 | For a save of any ordinary columns, key columns included, that goes through: every edited cell still held its loaded value if and only if no row was overtaken so; then every edit is in the row it was typed into, and in any case no row is lost |
| `KeyEdits.KeyEditsExactly` | apps/web/src/grid/useEditBuffer.ts:24-68 | On every table such a save finds all as it was loaded if and only if no row is overtaken, or it goes through on no table |
| `KeyEdits.OvertakenRow` | apps/api/src/grid/grid.service.ts:312-327 | Row 1 takes the key of the deleted row 2, and the edit typed into row 2 is written to it |
| `KeyEdits.TokensFind` | apps/api/src/database/types.ts:108-115 | A batch guarded by versions it does not give out itself found every row with its version |
| `KeyEdits.TokensNeverOvertaken` | apps/api/src/database/types.ts:108-115 | With row versions no row is ever overtaken, key columns edited or not |
| `Driver.DriverCursor.Fetch` | apps/api/src/database/types.ts:52-59 | The cursor contract every consumer below relies on |
| `CursorStream.StreamIsBoundedPrefix` | apps/api/src/query/cursor-session.service.ts:72-172 | The blocks of an open and any fetches make a prefix of the result within the budget, the first block of at most 100 rows and each other of at most its limit, full unless it is the last; complete and not truncated means all of it; truncated means the budget is spent |
| `CursorStream.BudgetKeptExactly` | apps/api/src/query/cursor-session.service.ts:96-111 | No stream ever serves more than the budget if and only if the budget is at least one page |
| `CursorSessions.CursorSessionService.AssertCapacity` | apps/api/src/query/cursor-session.service.ts:193-204 | Refuses exactly when the total or the connection's number of sessions has reached its cap |
| `CursorSessions.CursorSessionService.Open` | apps/api/src/query/cursor-session.service.ts:93-124 | Answers the first block and registers a session exactly when the stream can go on |
| `CursorSessions.CursorSessionService.Fetch` | apps/api/src/query/cursor-session.service.ts:141-172 | Answers the next block; the session is gone once complete is reported; foreign and unknown sessions read as not found |
| `CursorSessions.CursorSessionService.Advance` | apps/api/src/query/cursor-session.service.ts:149-161 | Moves the session's position by the rows served and keeps it equal to the cursor's |
| `CursorSessions.CursorSessionService.Drive` | apps/api/src/query/cursor-session.service.ts:72-172 | An open and its fetches make a stream in the sense below; while it goes on the session's position is the number of rows served, and once it is complete the session map is as before |
| `CursorSessions.CursorSessionService.ReadBlock` | apps/api/src/query/cursor-session.service.ts:151-163 | Reads within the row budget, and nothing once it is spent |
| `CursorSessions.CursorSessionService.CloseSession` | apps/api/src/query/cursor-session.service.ts:206-213 | Removes one session; closing an unknown one does nothing |
| `CursorSessions.CursorSessionService.Reap` | apps/api/src/query/cursor-session.service.ts:215-223 | Removes exactly the sessions idle for longer than the limit |
| `PoolManager.PoolManager.EvictPool` | apps/api/src/database/pool-manager.service.ts:190-205 | Forgets the pool, its engine and its last use; a name without a pool keeps its last use |
| `PoolManager.PoolManager.Resolve` | apps/api/src/database/pool-manager.service.ts:214-230 | Reuses or creates the pool and marks it used; a failed creation leaves no entry, not even an older last use |
| `PoolManager.PoolManager.OpenCursor` | apps/api/src/database/pool-manager.service.ts:75-89 | The new handle is counted, whether or not the pool is still there, and counts equal unreleased handles on every connection |
| `PoolManager.PoolManager.Release` | apps/api/src/database/pool-manager.service.ts:82-89 | Uncounts a handle the first time only; counts stay true |
| `PoolManager.PoolManager.Touch` | apps/api/src/database/pool-manager.service.ts:92-95 | A fetch marks its connection as used even when the pool is gone |
| `PoolManager.PoolManager.Sweep` | apps/api/src/database/pool-manager.service.ts:314-333 | The two passes over sorted entries leave a state the eviction rule allows |
| `PoolManager.PoolManager.EvictIdle` | apps/api/src/database/pool-manager.service.ts:315-321 | Evicts exactly the idle names without cursors |
| `PoolManager.PoolManager.EvictOverCap` | apps/api/src/database/pool-manager.service.ts:322-332 | Evicts the least recently used cursor-free names, as many as are over the cap |
| `PoolManager.ByLastUsed` | apps/api/src/database/pool-manager.service.ts:316 | The names once each, least recently used first |
| `PoolManager.FirstAreLeastRecent` | apps/api/src/database/pool-manager.service.ts:324-327 | The first of the sorted names are ones that no other free name is older than |
| `PoolEviction.SweepExact` | apps/api/src/database/pool-manager.service.ts:314-333 | When exactly the open pools have a last use: cursor-holding pools stay, no cursor-free pool over the idle limit stays, and of the rest exactly as many as the cap allows, the most recently used |
| `PoolEviction.SweepBounds` | apps/api/src/database/pool-manager.service.ts:314-333 | When every open pool has a last use, whatever other names have one: pools with cursors stay, no cursor-free pool over the idle limit stays, none evicted for the cap was used after a cursor-free one that stays, and under the cap all stay |
| `PoolEviction.SweepSparesHeld` | apps/api/src/database/pool-manager.service.ts:309-333 | No sweep closes the pool of a connection with a counted cursor, whatever the last uses |
| `PoolEviction.PickMeetsCap` | apps/api/src/database/pool-manager.service.ts:322-332 | One choice of names meets the cap if and only if every chosen name still has a pool |
| `PoolEviction.PickAvoids` | apps/api/src/database/pool-manager.service.ts:324-327 | Every choice of the n least recently used names avoids some names if and only if each of those has at least n names used strictly before it |
| `PoolEviction.CapKeptExactly` | apps/api/src/database/pool-manager.service.ts:314-333 | However ties are broken, a sweep meets the pool cap if and only if, before it, each cursor-free name without a pool was used after at least as many others as there are pools to evict |
| `PoolEviction.OrphanDefeatsCap` | apps/api/src/database/pool-manager.service.ts:322-332 | A name used after its pool was closed is picked in place of a pool, and the cap is missed |
| `CursorAccounting.CountsAlwaysTrue` | apps/api/src/database/pool-manager.service.ts:75-105 | In every state of every interleaved run, each connection's count is its number of opened and not yet released cursors, absent if and only if zero, and no cursor is held twice, however often a close is repeated |
| `CursorAccounting.PoolsAlwaysTracked` | apps/api/src/database/pool-manager.service.ts:190-230 | In every state of every interleaved run, every open pool has a last use, which is what the results on a sweep ask for |
| `CursorAccounting.SessionsWithinCount` | apps/api/src/query/cursor-session.service.ts:116-123 | A connection's count is at least its number of registered sessions |
| `CursorAccounting.SessionKeepsPool` | apps/api/src/database/pool-manager.service.ts:309-333 | While a session lives, no event of any run closes the pool under it |
| `CursorRuns.CapsUnderConcurrency` | apps/api/src/query/cursor-session.service.ts:85-124 | With at most K opens in flight, registered and pending sessions never exceed cap - 1 + K, in total and per connection |
| `CursorRuns.CapKeptExactly` | apps/api/src/query/cursor-session.service.ts:193-196 | The configured cap on all sessions holds over all runs if and only if opens are serial |
| `CursorRuns.ConnectionCapKeptExactly` | apps/api/src/query/cursor-session.service.ts:197-203 | The configured cap on one connection's sessions holds over all runs if and only if opens are serial |
| `CursorRuns.SweepMissesCap` | apps/api/src/database/pool-manager.service.ts:75-78 | A run in which a sweep closes a pool while its request waits, the request marks the connection as used, and the next sweep leaves two pools under a cap of one |
| `CursorRuns.Overshoot` | apps/api/src/query/cursor-session.service.ts:85-124 | A run of two overlapping opens that ends with two sessions, on one connection, under caps of one |
| `CursorRuns.LostStep` | apps/api/src/query/cursor-session.service.ts:93-124 | A cursor is left without an owner only by a metadata lookup that fails after it was opened, and then for good |
| `CursorRuns.LostCount` | apps/api/src/query/cursor-session.service.ts:102-107 | As many cursors are lost in a run as lookups failed |
| `CursorRuns.QuietExactly` | apps/api/src/query/cursor-session.service.ts:93-124 | Once nothing is open or pending, no pool is pinned if and only if no lookup failed on the way |
| `QueryStatements.ContainsWriteExactly` | apps/api/src/query/query.service.ts:52-58 | The scan answers true if and only if some node at any depth is a writing statement |
| `QueryStatements.ReadExactly` | apps/api/src/query/query.service.ts:427-446 | A statement is classified as a read if and only if the executor runs it as a plain plan or as a SELECT without a write in it, so nothing run as a command is a read |
| `QueryExecution.Client.ExecuteOneStatement` | apps/api/src/query/query.service.ts:407-425 | Chooses plan, page or command, with the answer that the engine's outcome makes of it and the resulting state |
| `QueryTheorems.ScriptAnswers` | apps/api/src/query/query.service.ts:369-425 | Each result of a script, in a transaction or not, is what the engine's outcome for its statement makes of it on the database the statements before it left |
| `QueryExecution.Client.ExecutePlan` | apps/api/src/query/query.service.ts:544-560 | The statement as written, reported as a plan with its ANALYZE flag, or the engine's error |
| `QueryExecution.Client.ExecuteRows` | apps/api/src/query/query.service.ts:459-504 | A SELECT whose paged form returns n rows that can be described answers the first 100 of them at most, truncated if and only if n is more than 100; an unparsed SELECT whose paged form fails is run as written |
| `QueryExecution.Client.ExecuteCommand` | apps/api/src/query/query.service.ts:506-541 | All rows, untruncated, when columns come back, otherwise a summary; a failing column lookup is an error after the fact |
| `QueryExecution.Client.ExecuteAutocommit` | apps/api/src/query/query.service.ts:369-384 | Results and database of running each statement on its own |
| `QueryExecution.Client.ExecuteTransactional` | apps/api/src/query/query.service.ts:387-405 | Results and database of running all statements in one transaction, up to the first failure |
| `QueryExecution.StaysStopped` | apps/api/src/query/query.service.ts:395-399 | Nothing runs after the first failure in a transaction |
| `QueryAudit.QueryService.AuditMutations` | apps/api/src/query/query.service.ts:146-177 | Appends one entry per write in order: of the attempted statements, or of all when the transaction was rolled back |
| `QueryAudit.QueryService.AuditBlocked` | apps/api/src/query/query.service.ts:125-130 | Appends one refusal per write and says whether there was one |
| `QueryAudit.QueryService.Execute` | apps/api/src/query/query.service.ts:107-143 | For every script, mode and fault: the exact answer, database and audit trail; a read-only refusal leaves the database as it was |
| `QueryTheorems.TryEffect` | apps/api/src/query/query.service.ts:407-541 | A statement counts as executed if and only if the engine executed one of the requests it sent, which is the last one, and then the database is what that request left; otherwise it is unchanged |
| `QueryTheorems.AutocommitEffects` | apps/api/src/query/query.service.ts:369-384 | The database holds the effects of exactly the executed statements, each once, in order |
| `QueryTheorems.TransactionIsAtomic` | apps/api/src/query/query.service.ts:387-405 | The database ends with all statements' effects or unchanged, and an error is the last result and the only one |
| `QueryTheorems.TransactionTrailIsTrue` | apps/api/src/query/query.service.ts:146-177 | In a transaction every write is audited exactly once, with success if and only if its effect persists |
| `QueryTheorems.AutocommitTrailIsTrueExactly` | apps/api/src/query/query.service.ts:146-177 | Without one, every write is audited exactly once, and the trail is true if and only if no executed write's result could not be described |
| `QueryTheorems.RanTruthfully` | apps/api/src/query/query.service.ts:107-177 | A script that reports its results leaves exactly the effective statements' effects, and its trail is true of them always in a transaction, otherwise if and only if no executed write's result could not be described |
| `QueryTheorems.ExecuteTruthfully` | apps/api/src/query/query.service.ts:107-143 | What a run of the service appends to the trail is true of the database it leaves, under exactly that condition, and each result is what the engine's outcomes make of its statement; on a read-only connection the script is refused if and only if some statement is no such read, and then the database is as it was and every write is recorded as refused; a failed transaction changes and records nothing, a failed history records nothing |
| `QueryTheorems.FalseEntry` | apps/api/src/query/query.service.ts:518-541 | A write that took effect and is recorded as a failure |
| `QueryTheorems.ClassifiedExactly` | apps/api/src/query/query.service.ts:435-446 | A statement is a read if and only if it is a plan without ANALYZE, unparsed text that looks like a SELECT, or a parsed SELECT with no insert, update, delete or replace at any depth, in any case |
| `QueryTheorems.GateExactly` | apps/api/src/query/query.service.ts:124-133 | The gate lets a script through if and only if every statement is such a read |
| `Csv.FieldBack` | packages/utils/src/csv.ts:29-50 | A written field is read back with its text, and NULL apart from the empty string |
| `Csv.VerbatimExactly` | packages/utils/src/csv.ts:29-50 | Text is written as it is if and only if it is not empty and has no delimiter, quote, CR or LF in it; otherwise in quotes, with quotes doubled |
| `Csv.NullAsToken` | packages/utils/src/csv.ts:32-35 | A visible token for NULL is written as text is, and without one NULL is nothing at all |
| `Csv.RecordBack` | packages/utils/src/csv.ts:56-59 | A written record is read back cell by cell |
| `Csv.RowsBack` | packages/utils/src/csv.ts:56-59 | Every sequence of records is read back by RFC 4180, section 2 |
| `Csv.DelimiterExactly` | packages/utils/src/csv.ts:29-50 | For a one-character delimiter, reading back works on all records if and only if it is neither a quote nor a CR |
| `Csv.NullTokenExactly` | packages/utils/src/csv.ts:10-16 | Cells are told apart in the output if and only if no visible token stands for NULL |
| `Export.WriteRows` | apps/api/src/export/export.service.ts:255-264 | One block of redacted rows after those before it; what a row shows is stated by `Export.ExportCsv` |
| `Export.StreamRows` | apps/api/src/export/export.service.ts:226-282 | The whole file and the row count for every result, budget and format: the first rows the budget allows, redacted, with header and truncation note; truncated only when the budget is spent; `Export.ExportCsv` and `Export.ExportJson` say what the file shows |
| `Export.ExportReadsBack` | apps/api/src/export/export.service.ts:226-282 | A CSV file without a truncation note reads back as the header and the cells of the redacted rows in order |
| `Export.RecordsShow` | apps/api/src/export/export.service.ts:258 | In those records the first holds the column names, and cell i of the record of row r is the value of row r under column i, NULL when the row lacks it, the mask token when the column is masked and the value is not NULL |
| `Export.ExportCsv` | apps/api/src/export/export.service.ts:226-282 | Streaming a result to an empty writer, whatever the budget: apart from a truncation note the file reads back as the column names and, under each column, exactly the values of the rows the budget allows, masked ones as the mask token |
| `Export.ExportJson` | apps/api/src/export/export.service.ts:226-282 | The JSON file is the array of those redacted rows in order |
| `Export.RedactionHidesExactly` | apps/api/src/grid/masking.ts:42-60 | A redacted row tells the unmasked values, which masked values are NULL, and which masked columns with ordinary names it carries, and nothing else |
| `ExportInserts.ChunksExact` | apps/api/src/export/export.service.ts:346-350 | Every tuple is in exactly one statement, in order, and every statement but the last is full |
| `ExportInserts.InsertsAre` | apps/api/src/export/export.service.ts:346-350 | The dump is one statement for each group: header, tuples one a line with commas between them, semicolon |
| `ExportInserts.ChunksAfterFull` | apps/api/src/export/export.service.ts:346-350 | A batch after full ones is a statement of its own |
| `ExportInserts.Batcher.Flush` | apps/api/src/export/export.service.ts:346-350 | Writes what is batched |
| `ExportInserts.Batcher.Push` | apps/api/src/export/export.service.ts:362-365 | Full batches are written, the rest is kept |
| `ExportInserts.StreamTableInserts` | apps/api/src/export/export.service.ts:321-382 | The whole dump of a table and the row count, for every result and budget: the tuples of the redacted rows that the budget allows, in order, in full statements; truncated only when the budget is spent |
| `SseReader.ParseSseFrame` | apps/web/src/api/ai.ts:267-275 | The last event line names the event and the data lines are joined |
| `SseFrames.FrameReads` | apps/web/src/api/ai.ts:267-275 | From any list of lines the reader takes the event named last, `message` when none is, and the trimmed data lines in order, one per line |
| `SseFrames.FrameActs` | apps/web/src/api/ai.ts:240-258 | `done` and `error` end the reading, with the given or the standard message; `usage` reports its counts, 0 for a missing one; any other event is its delta unless that is empty |
| `SseReader.HandleFrame` | apps/web/src/api/ai.ts:240-258 | What one frame dispatches or how it ends the reading |
| `SseReader.BoundaryStays` | apps/web/src/api/ai.ts:237-239 | A boundary found in what has arrived is the first boundary of all that will arrive |
| `SseReader.Drain` | apps/web/src/api/ai.ts:237-259 | Handles all complete frames in the buffer, whatever is still to come |
| `SseReader.StreamAiChat` | apps/web/src/api/ai.ts:231-261 | For every way of cutting the text into chunks the same events are dispatched, up to the first done or error |
| `SseRoundTrip.ChatStream` | apps/api/src/ai/ai.controller.ts:182-198 | The frames written for a stream of deltas that ends or fails |
| `SseRoundTrip.DeltasRead` | apps/api/src/ai/ai.controller.ts:183-185 | Delta frames deliver the non-empty deltas in order and then what follows |
| `SseRoundTrip.ReaderInvertsWriter` | apps/web/src/api/ai.ts:231-275 | The reader of the server's frames, however cut, sees exactly the non-empty deltas, the usage and completion, or the deltas and the error |
| `RowFilter.CompileWhere` | apps/api/src/grid/filter.ts:115-153 | Compiles if and only if every condition names a known column whose type takes the operator; otherwise the first misfit's error, by its column and operator; the fragments and parameters are the specified ones |
| `RowFilter.OperatorsExactly` | apps/api/src/grid/filter.ts:42-48 | Which operators each family of types takes |
| `RowFilter.DatetimeExactly` | apps/api/src/grid/filter.ts:34-40 | A type is a date or time if and only if its name begins with `time`, in any case, or is one of four others |
| `Text.LowerExactly` | apps/api/src/grid/filter.ts:35 | Lower case has no capital letter left, and differs from the text only where it had one |
| `FilterTheorems.PlaceholdersConsecutive` | apps/api/src/grid/filter.ts:143-146 | In both list dialects the placeholders, in the order written, count up by one from the offset, one per parameter |
| `FilterTheorems.SingleMeaning` | apps/api/src/grid/filter.ts:62-105 | Each operator's fragment with its parameters means what the operator asks |
| `FilterTheorems.FoldCombines` | apps/api/src/grid/filter.ts:149-150 | The folded clause holds, fails or is unknown as AND or OR over the conditions demands |
| `FilterTheorems.ClauseMeaning` | apps/api/src/grid/filter.ts:130-152 | The clause, evaluated in three-valued logic among other bound parameters, combines the conditions' meanings, in both dialects |
| `FilterTheorems.PlainMeaning` | apps/api/src/grid/filter.ts:84-95 | For values without pattern characters contains, startsWith and endsWith mean substring, prefix and suffix |
| `LikePattern.PatternsExactly` | apps/api/src/grid/filter.ts:84-95 | Each of the three patterns means that for all texts if and only if the value has no pattern character, for exact matching and when case is ignored alike |
| `PlanPruning.Sanitizer.Walk` | apps/api/src/ai/ai.service.ts:589-605 | The loop over the shared budget keeps what the threaded walk keeps and leaves the same budget |
| `PlanPruning.SanitizePlanForPrompt` | apps/api/src/ai/ai.service.ts:582-612 | The walk from the root with the full budget, which keeps in preorder, with depths, exactly the first 60 nodes no deeper than 12 |
| `PlanPruning.WalkPrefix` | apps/api/src/ai/ai.service.ts:589-605 | For any subtree and budget: the first nodes of the cut subtree, and the budget less their number |
| `PlanPruning.CutKeeps` | apps/api/src/ai/ai.service.ts:598-603 | Cutting a plan at the depth limit drops exactly the nodes below it |
| `PlanPruning.PlanIsPreorderPrefix` | apps/api/src/ai/ai.service.ts:582-612 | The sanitised plan lists in preorder, with depths, exactly the first 60 of the plan's nodes that are no deeper than 12 |
| `PlanPruning.PreorderFixesTree` | apps/api/src/ai/ai.service.ts:598-603 | Preorder with depths determines the tree, so every parent edge is kept |

## Left out

- React components, stores, NestJS wiring, Prisma, HTTP, SSH and encryption: libraries and I/O; the database drivers appear only by their contracts.
- SQL text: rendering of statements, quoting, and the regular expressions that recognise `EXPLAIN`, a SELECT, a word to audit or a literal to redact are not modelled.
- Names are compared by Dafny characters, not UTF-16 code units, so the sort order of names outside the basic multilingual plane is not captured.
- Engine effects beyond the operation itself: indexes that vanish with a column, foreign-key order across new tables, column order, and index names shared across tables of a schema.
- The preview filter that checks migration candidates one by one against the live target: convergence is a property of the full list.
- Values in the edit buffer are compared by equality; NaN, object identity, the name `__proto__` and the order of integer-like keys are not modelled.
- GridSaves.NoLostUpdateExactly: that a row key stands for one row is a hypothesis, as are proper key columns and no edits to them; `LostEdits` shows what can happen without the first, and `KeyEdits` states what holds when key columns are edited.
- KeyEdits.KeyEditsExactly: key edits together with inherited column names are not covered.
- MigrationColumns.ColumnsAtHandExactly: the columns that a foreign key references in another table are not checked, since new tables may reference each other in any order.
- GridSaves.TokenLosesNothing: the transactions since the rows were read are updates; inserts and deletes are not modelled.
- LostEdits.RowKeysDistinctExactly: key values are taken as the texts that `String` gives; different values with one text are not modelled.
- The checks of `bulkUpdate` that do not touch rows (connection writable, table exists, masked columns): they only refuse before anything happens.
- CursorSessions.CursorSessionService.Fetch: overlapping fetches on one session and a driver that throws are not modelled; the session map is updated as one step although the code awaits in between. Interleaving is modelled in `CursorAccounting`.
- PoolManager.PoolManager.EvictPool: the wait for a pool or tunnel to close is not modelled, nor is an explicit eviction while a cursor is live; a pool that fails after being replaced is not either.
- PoolManager.PoolManager.Sweep: the pool cap is a natural number, and among equal last uses the order is left open.
- CursorAccounting: sessions are addressed by values, not shared objects; ids are fresh.
- QueryExecution: scripts with their own transaction control, and statements that commit implicitly, are outside the engine contract.
- The audit entry's action, target, duration and correlation id, and the rows and columns of a result beyond their number.
- Csv.RowsBack: delimiters longer than one character are written as the code writes them but not read back, since the RFC has none.
- Export.StreamRows: JSON text is a parameter; duplicate column names share one value, as in the code.
- SseReader.StreamAiChat: the HTTP request and its error answers, and the decoding of bytes to text.
- RowFilter.CompileWhere: the clause is a list of fragments, not text; values compare as the engine does, through two parameters.
- PlanPruning.Sanitizer.Walk: what is kept of a single node is a parameter.
- Snippets, conversations, suggestions, history, profiling and preferences: thin or easy.
