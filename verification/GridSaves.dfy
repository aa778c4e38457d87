/** From the cells typed into the grid to the rows of the table: whose row is written, and when nobody's change is
    lost. */
module GridSaves {
  import opened Common
  import opened EditBuffer
  import opened EditBufferState
  import opened BulkUpdate
  import opened GuardedUpdates
  import opened NoLostUpdate

  // ---- the row that is written is the row that was edited -------------------------------------------------------

  /** The key values and the version that each row of the grid was read with. */
  type Identities = map<string, RowIdentity>

  /** A row key stands for one row: every call under it passes that row's identity. */
  predicate Identified(calls: seq<StageCall>, ids: Identities) {
    forall i :: 0 <= i < |calls| ==> calls[i].rowKey in ids && calls[i].identity == ids[calls[i].rowKey]
  }

  /** The rows of the grid have their key columns, and no two the same key. */
  predicate ProperKeys(ids: Identities, primaryKey: seq<string>) {
    && (forall row :: row in ids ==> KeyMatches(ids[row].primaryKey, primaryKey))
    && (forall a, b :: a in ids && b in ids && a != b ==>
          KeyValues(ids[a].primaryKey, primaryKey) != KeyValues(ids[b].primaryKey, primaryKey))
  }

  function KeyOf(ids: Identities, primaryKey: seq<string>, row: string): Key
    requires row in ids && ProperKeys(ids, primaryKey)
  {
    KeyValues(ids[row].primaryKey, primaryKey)
  }

  /** An entry of the buffer has kept the identity of its row. */
  lemma {:induction false} EntryIdentity(calls: seq<StageCall>, ids: Identities)
    requires Identified(calls, ids)
    ensures forall row :: row in StagedAll(calls) ==>
              && row in ids
              && StagedAll(calls)[row].primaryKey == ids[row].primaryKey
              && StagedAll(calls)[row].version == ids[row].version
    decreases calls
  {
    hide INHERITED;
    if calls != [] {
      var before, call := calls[..|calls| - 1], calls[|calls| - 1];
      assert Identified(before, ids);
      EntryIdentity(before, ids);
      StagedIdentity(Lookup(StagedAll(before), call.rowKey), call);
      hide StagedEntry;
    }
  }

  lemma StagedIdentity(entry: Option<RowEditEntry>, call: StageCall)
    ensures var after := StagedEntry(entry, call);
            after.Some? ==>
              after.value.primaryKey == call.identity.primaryKey && after.value.version == call.identity.version
  {
    hide INHERITED;
  }

  predicate NoKeyColumn(calls: seq<StageCall>, primaryKey: seq<string>) {
    forall i :: 0 <= i < |calls| ==> calls[i].column !in primaryKey
  }

  /** Each update has a value for every key column, as its validation found. */
  predicate Keyed(us: seq<Update>, primaryKey: seq<string>) {
    forall i :: 0 <= i < |us| ==> |us[i].key| == |primaryKey|
  }

  lemma PreparedKeyed(body: seq<BulkRowEdit>, ctx: Context, us: seq<Update>)
    requires PreparedFrom(body, ctx, us)
    ensures Keyed(us, ctx.primaryKey)
  {
    hide ValidateBulkRow, GuardFrom;
    forall i | 0 <= i < |us| ensures |us[i].key| == |ctx.primaryKey| {
      ValidatedKey(body[i], ctx, us[i].key);
    }
  }

  /** The updates of an accepted save of what was typed into rows of the grid. */
  ghost predicate AcceptedSave(
    calls: seq<StageCall>, ids: Identities, concurrency: RowConcurrency, rowKeys: seq<string>, body: seq<BulkRowEdit>,
    ctx: Context, us: seq<Update>)
  {
    && Keyed(us, ctx.primaryKey) && Identified(calls, ids) && ProperKeys(ids, ctx.primaryKey)
    && IsBody(StagedAll(calls), concurrency, rowKeys, body) && PreparedFrom(body, ctx, us)
  }

  /** Such a save without edits of key columns. */
  ghost predicate GridSave(
    calls: seq<StageCall>, ids: Identities, concurrency: RowConcurrency, rowKeys: seq<string>, body: seq<BulkRowEdit>,
    ctx: Context, us: seq<Update>)
  {
    AcceptedSave(calls, ids, concurrency, rowKeys, body, ctx, us) && NoKeyColumn(calls, ctx.primaryKey)
  }

  /** Every update is addressed to the row its edits were typed into; so no row is updated twice. */
  lemma SaveKeys(
    calls: seq<StageCall>, ids: Identities, concurrency: RowConcurrency, rowKeys: seq<string>, body: seq<BulkRowEdit>,
    ctx: Context, us: seq<Update>)
    requires AcceptedSave(calls, ids, concurrency, rowKeys, body, ctx, us)
    ensures |us| == |rowKeys| == |body|
    ensures forall i :: 0 <= i < |us| ==>
              && rowKeys[i] in StagedAll(calls) && rowKeys[i] in ids && us[i].edits == body[i].edits
              && us[i].key == KeyOf(ids, ctx.primaryKey, rowKeys[i])
              && KeyedBy(us[i].key, ids[rowKeys[i]].primaryKey, ctx.primaryKey)
    ensures forall row :: row in StagedAll(calls) ==> row in ids && row in rowKeys
    ensures DistinctRows(us)
  {
    hide StagedAll, GuardFrom, KeyMatches, ValidateBulkRow, Lists, KeyValues, KeyedBy;
    EntryIdentity(calls, ids);
    forall i | 0 <= i < |us|
      ensures us[i].key == KeyOf(ids, ctx.primaryKey, rowKeys[i])
      ensures KeyedBy(us[i].key, ids[rowKeys[i]].primaryKey, ctx.primaryKey)
    {
      ValidatedKey(body[i], ctx, us[i].key);
    }
  }

  /** Without edits of key columns, no key is changed either. */
  lemma GridSaveKeys(
    calls: seq<StageCall>, ids: Identities, concurrency: RowConcurrency, rowKeys: seq<string>, body: seq<BulkRowEdit>,
    ctx: Context, us: seq<Update>)
    requires GridSave(calls, ids, concurrency, rowKeys, body, ctx, us)
    ensures |us| == |rowKeys|
    ensures forall i :: 0 <= i < |us| ==>
              && rowKeys[i] in StagedAll(calls) && rowKeys[i] in ids
              && us[i].key == KeyOf(ids, ctx.primaryKey, rowKeys[i])
    ensures forall row :: row in StagedAll(calls) ==> row in ids && row in rowKeys
    ensures DistinctRows(us)
    ensures forall i :: 0 <= i < |us| ==> |us[i].key| == |ctx.primaryKey| && KeepsKey(us[i], ctx.primaryKey)
  {
    hide StagedAll, OwnEntry, GuardFrom, KeepsKey, ValidateBulkRow, Lists, KeyOf, NoKeyColumn, KeyedBy, ProperKeys,
      Identified;
    SaveKeys(calls, ids, concurrency, rowKeys, body, ctx, us);
    OwnColumns(calls);
    forall i | 0 <= i < |us| ensures |us[i].key| == |ctx.primaryKey| && KeepsKey(us[i], ctx.primaryKey) {
      StagedColumns(StagedAll(calls)[rowKeys[i]], calls, body[i].edits, us[i], ctx.primaryKey);
    }
  }

  lemma RowsNamed(calls: seq<StageCall>, ids: Identities, rowKeys: seq<string>, ctx: Context, us: seq<Update>)
    requires |us| == |rowKeys| && ProperKeys(ids, ctx.primaryKey)
    requires forall i :: 0 <= i < |us| ==> rowKeys[i] in ids && us[i].key == KeyOf(ids, ctx.primaryKey, rowKeys[i])
    requires forall row :: row in StagedAll(calls) ==> row in ids && row in rowKeys
    ensures forall row :: row in StagedAll(calls) && row in ids ==>
              exists i :: 0 <= i < |us| && rowKeys[i] == row && us[i].key == KeyOf(ids, ctx.primaryKey, row)
  {
    hide StagedAll, KeyOf, ProperKeys;
    forall row | row in StagedAll(calls) && row in ids
      ensures exists i :: 0 <= i < |us| && rowKeys[i] == row && us[i].key == KeyOf(ids, ctx.primaryKey, row)
    {
      var i :| 0 <= i < |rowKeys| && rowKeys[i] == row;
      assert us[i].key == KeyOf(ids, ctx.primaryKey, row);
    }
  }

  lemma ValidatedKey(row: BulkRowEdit, ctx: Context, key: Key)
    requires ValidateBulkRow(row, ctx) == Ok(key)
    ensures KeyMatches(row.primaryKey, ctx.primaryKey) && key == KeyValues(row.primaryKey, ctx.primaryKey)
    ensures KeyedBy(key, row.primaryKey, ctx.primaryKey)
    ensures |key| == |ctx.primaryKey|
  {
  }

  lemma StagedColumns(
      entry: RowEditEntry, calls: seq<StageCall>, edits: seq<CellEdit>, u: Update, primaryKey: seq<string>)
    requires OwnEntry(entry, calls) && Lists(edits, entry.edits) && NoKeyColumn(calls, primaryKey)
    requires u.edits == edits && |u.key| == |primaryKey|
    ensures KeepsKey(u, primaryKey)
  {
    hide INHERITED;
    forall j | 0 <= j < |u.edits| ensures u.edits[j].column !in primaryKey {
      assert u.edits[j].column in entry.edits;
      var i :| 0 <= i < |calls| && calls[i].column == u.edits[j].column;
    }
  }

  // ---- when the save goes through -------------------------------------------------------------------------------

  /** Every edited row is there and still shows what was loaded in its edited cells. */
  ghost predicate StillLoaded(rows: Rows, buffer: Buffer, ids: Identities, primaryKey: seq<string>, loaded: Cells)
    requires ProperKeys(ids, primaryKey)
  {
    forall row :: row in buffer && row in ids ==>
      var key := KeyOf(ids, primaryKey, row);
      key in rows && Unchanged(rows[key].cells, buffer, row, loaded)
  }

  /** An edited row has NULL in its key, so that no statement finds it. */
  ghost predicate NullKey(buffer: Buffer, ids: Identities, primaryKey: seq<string>)
    requires ProperKeys(ids, primaryKey)
  {
    exists row :: row in buffer && row in ids && Null in KeyOf(ids, primaryKey, row)
  }

  /** The table has exactly the typed edits, each in the row it was typed into, and every other row as it was. */
  ghost predicate SavedInPlace(
      before: Rows, after: Rows, buffer: Buffer, ids: Identities, primaryKey: seq<string>, shown: Cells)
    requires ProperKeys(ids, primaryKey)
  {
    && after.Keys == before.Keys
    && (forall row :: row in buffer && row in ids ==>
          var key := KeyOf(ids, primaryKey, row);
          key in before && SavedRow(before[key].cells, after[key].cells, buffer, row, shown))
    && (forall k :: k in before && (forall row :: row in buffer && row in ids ==> KeyOf(ids, primaryKey, row) != k) ==>
          after[k] == before[k])
  }

  predicate NoInherited(calls: seq<StageCall>) {
    forall i :: 0 <= i < |calls| ==> calls[i].column !in INHERITED
  }

  /** The save of ordinary columns from the grid: it goes through exactly when nobody changed the edited cells. */
  lemma SaveOfGrid(
    loaded: Cells, calls: seq<StageCall>, ids: Identities, rowKeys: seq<string>, body: seq<BulkRowEdit>, ctx: Context,
    us: seq<Update>, rows: Rows, stamp: string)
    requires FromGrid(loaded, calls) && NoInherited(calls) && GridSave(calls, ids, Preimage, rowKeys, body, ctx, us)
    ensures var buffer, r := StagedAll(calls), RunUpdates(rows, ctx.primaryKey, us, stamp);
            && (r.Ok? <==>
                !NullKey(buffer, ids, ctx.primaryKey) && StillLoaded(rows, buffer, ids, ctx.primaryKey, loaded))
            && (r.Err? ==> r.error == Conflict)
            && (r.Ok? ==> SavedInPlace(rows, r.value.0, buffer, ids, ctx.primaryKey, Shown(loaded, calls)))
  {
    hide RunUpdates, Unchanged, SavedRow, StagedAll, Shown, INHERITED, Difference, KeyOf, ProperKeys, KeepsKey;
    hide GuardFrom, ValidateBulkRow, IsRowEdit, Identified, NoKeyColumn, FromGrid;
    BufferIsDifference(loaded, calls);
    ShownKeys(loaded, calls);
    GridSaveKeys(calls, ids, Preimage, rowKeys, body, ctx, us);
    SaveExactly(loaded, Shown(loaded, calls), StagedAll(calls), rowKeys, body, ctx, us, rows, stamp);
    RowsNamed(calls, ids, rowKeys, ctx, us);
  }

  /** With version tokens, the save goes through exactly when every row still carries the version it was read with. */
  lemma TokenSaveOfGrid(
    calls: seq<StageCall>, ids: Identities, rowKeys: seq<string>, body: seq<BulkRowEdit>, ctx: Context, us: seq<Update>,
    rows: Rows, stamp: string)
    requires GridSave(calls, ids, Token, rowKeys, body, ctx, us)
    ensures var buffer := StagedAll(calls);
            RunUpdates(rows, ctx.primaryKey, us, stamp).Ok? <==>
              && !NullKey(buffer, ids, ctx.primaryKey)
              && forall row :: row in buffer && row in ids ==>
                   var key := KeyOf(ids, ctx.primaryKey, row);
                   key in rows && ids[row].version == Some(rows[key].version)
  {
    hide RunUpdates, StagedAll, KeyOf, ProperKeys, KeepsKey, GuardFrom, ValidateBulkRow, IsRowEdit, Identified,
      NoKeyColumn;
    EntryIdentity(calls, ids);
    GridSaveKeys(calls, ids, Token, rowKeys, body, ctx, us);
    TokenSaveExactly(StagedAll(calls), rowKeys, body, ctx, us, rows, stamp);
    RowsNamed(calls, ids, rowKeys, ctx, us);
  }

  /** A batch of updates in one transaction, which stamps the rows it writes. */
  datatype Transaction = Transaction(us: seq<Update>, stamp: string)

  /** The table after some transactions, each of which is rolled back when it fails. */
  function Committed(rows: Rows, primaryKey: seq<string>, ts: seq<Transaction>): Rows
    requires forall i :: 0 <= i < |ts| ==> Keyed(ts[i].us, primaryKey)
  {
    if ts == [] then rows
    else
      var before, t := Committed(rows, primaryKey, ts[..|ts| - 1]), ts[|ts| - 1];
      assert Keyed(t.us, primaryKey);
      var r := RunUpdates(before, primaryKey, t.us, t.stamp);
      if r.Ok? then r.value.0 else before
  }

  /** A row without the stamp of a transaction was not written by it. */
  lemma {:induction false} OtherStamp(rows: Rows, primaryKey: seq<string>, us: seq<Update>, stamp: string, key: Key)
    requires Keyed(us, primaryKey) && RunUpdates(rows, primaryKey, us, stamp).Ok?
    requires var after := RunUpdates(rows, primaryKey, us, stamp).value.0; key in after && after[key].version != stamp
    ensures key in rows && RunUpdates(rows, primaryKey, us, stamp).value.0[key] == rows[key]
    decreases us
  {
    hide EditedKey, GuardHolds, Overlay;
    if us != [] {
      var next := GuardedUpdate(rows, primaryKey, us[0], stamp).rows;
      OtherStamp(next, primaryKey, us[1..], stamp, key);
    }
  }

  /** A row that still carries the version it was read with is, cell for cell, the row that was read. */
  lemma {:induction false} VersionMeansUnchanged(
      rows: Rows, primaryKey: seq<string>, ts: seq<Transaction>, key: Key, version: string)
    requires forall i :: 0 <= i < |ts| ==> Keyed(ts[i].us, primaryKey) && ts[i].stamp != version
    requires var after := Committed(rows, primaryKey, ts); key in after && after[key].version == version
    ensures key in rows && Committed(rows, primaryKey, ts)[key] == rows[key]
    decreases ts
  {
    hide RunUpdates;
    if ts != [] {
      var last := |ts| - 1;
      assert Keyed(ts[last].us, primaryKey);
      var before := Committed(rows, primaryKey, ts[..last]);
      if RunUpdates(before, primaryKey, ts[last].us, ts[last].stamp).Ok? {
        OtherStamp(before, primaryKey, ts[last].us, ts[last].stamp, key);
      }
      VersionMeansUnchanged(rows, primaryKey, ts[..last], key, version);
    }
  }

  /** The rows of the grid as they were read, and transactions with stamps of their own since. */
  ghost predicate ReadBefore(read: Rows, ids: Identities, primaryKey: seq<string>, ts: seq<Transaction>)
    requires ProperKeys(ids, primaryKey)
  {
    && (forall row :: row in ids ==>
          var key := KeyOf(ids, primaryKey, row);
          key in read && ids[row].version == Some(read[key].version))
    && (forall i :: 0 <= i < |ts| ==>
          Keyed(ts[i].us, primaryKey) && forall row :: row in ids ==> ids[row].version != Some(ts[i].stamp))
  }

  /** With version tokens, the save goes through exactly when every edited row is, in every cell, still the row that was
      read. */
  lemma TokenLosesNothing(
    read: Rows, ts: seq<Transaction>, calls: seq<StageCall>, ids: Identities, rowKeys: seq<string>,
    body: seq<BulkRowEdit>, ctx: Context, us: seq<Update>, stamp: string)
    requires GridSave(calls, ids, Token, rowKeys, body, ctx, us) && ReadBefore(read, ids, ctx.primaryKey, ts)
    ensures var buffer, rows := StagedAll(calls), Committed(read, ctx.primaryKey, ts);
            RunUpdates(rows, ctx.primaryKey, us, stamp).Ok? <==>
              && !NullKey(buffer, ids, ctx.primaryKey)
              && forall row :: row in buffer && row in ids ==>
                   var key := KeyOf(ids, ctx.primaryKey, row);
                   key in rows && rows[key] == read[key]
  {
    hide RunUpdates, StagedAll, KeyOf, ProperKeys, NullKey, Committed, IsBody, PreparedFrom, Identified, NoKeyColumn;
    var rows := Committed(read, ctx.primaryKey, ts);
    TokenSaveOfGrid(calls, ids, rowKeys, body, ctx, us, rows, stamp);
    forall row | row in ids && KeyOf(ids, ctx.primaryKey, row) in rows
      ensures var key := KeyOf(ids, ctx.primaryKey, row);
              ids[row].version == Some(rows[key].version) <==> rows[key] == read[key]
    {
      var key := KeyOf(ids, ctx.primaryKey, row);
      if ids[row].version == Some(rows[key].version) {
        VersionMeansUnchanged(read, ctx.primaryKey, ts, key, rows[key].version);
      }
    }
  }

  /** Saving the buffer through the server: on an error nothing happens, otherwise nothing is lost. */
  method Save(
    hook: EditBufferHook, store: TableStore, ctx: Context, stamp: string,
    ghost loaded: Cells, ghost calls: seq<StageCall>, ghost ids: Identities)
    returns (r: Result<seq<Row>, GridError>)
    requires ctx.primaryKey == store.primaryKey
    requires hook.buffer == StagedAll(calls) && FromGrid(loaded, calls)
    requires Identified(calls, ids) && ProperKeys(ids, ctx.primaryKey) && NoKeyColumn(calls, ctx.primaryKey)
    modifies store
    ensures r.Err? ==> store.rows == old(store.rows)
    ensures r.Ok? && NoInherited(calls) ==>
              && StillLoaded(old(store.rows), hook.buffer, ids, ctx.primaryKey, loaded)
              && SavedInPlace(old(store.rows), store.rows, hook.buffer, ids, ctx.primaryKey, Shown(loaded, calls))
  {
    hide StagedAll, FromGrid, NoInherited, RunUpdates, StillLoaded, SavedInPlace, NullKey, Shown, Precheck;
    hide IsBody, PreparedFrom, Identified, ProperKeys, NoKeyColumn;
    var body := hook.BuildBody(Preimage);
    ghost var rowKeys :| IsBody(hook.buffer, Preimage, rowKeys, body);
    ghost var us;
    r, us := BulkUpdateRows(store, body, ctx, stamp);
    if r.Ok? && NoInherited(calls) {
      PreparedKeyed(body, ctx, us);
      SaveOfGrid(loaded, calls, ids, rowKeys, body, ctx, us, old(store.rows), stamp);
    }
  }

  // ---- when no update is lost -----------------------------------------------------------------------------------

  /** That is visible in the buffer: an inherited name that was staged stays edited. */
  lemma NoInheritedEdits(calls: seq<StageCall>)
    ensures NoInherited(calls) <==> forall row, c :: Edited(Lookup(StagedAll(calls), row), c) ==> c !in INHERITED
  {
    hide INHERITED, StagedAll;
    OwnColumns(calls);
    if NoInherited(calls) {
      forall row, c | Edited(Lookup(StagedAll(calls), row), c) ensures c !in INHERITED {
        assert OwnEntry(StagedAll(calls)[row], calls);
      }
    } else {
      var k :| 0 <= k < |calls| && calls[k].column in INHERITED;
      InheritedStays(calls, k);
    }
  }

  /**
   * For edits typed into rows of the grid and a save that is accepted: whatever the table holds, the save goes through
   * only when every edited cell still holds its loaded value, exactly when no staged column carries an inherited name,
   * or an edited row has NULL in its key and no such save ever goes through.
   */
  lemma NoLostUpdateExactly(
    loaded: Cells, calls: seq<StageCall>, ids: Identities, rowKeys: seq<string>, body: seq<BulkRowEdit>, ctx: Context,
    us: seq<Update>, stamp: string)
    requires FromGrid(loaded, calls) && GridSave(calls, ids, Preimage, rowKeys, body, ctx, us)
    ensures (forall rows: Rows | RunUpdates(rows, ctx.primaryKey, us, stamp).Ok? ::
               StillLoaded(rows, StagedAll(calls), ids, ctx.primaryKey, loaded))
            <==> NoInherited(calls) || NullKey(StagedAll(calls), ids, ctx.primaryKey)
  {
    hide RunUpdates, StillLoaded, NullKey, StagedAll, INHERITED, FromGrid, NoInherited, Saved, Edited;
    if NullKey(StagedAll(calls), ids, ctx.primaryKey) {
      forall rows: Rows ensures RunUpdates(rows, ctx.primaryKey, us, stamp).Err? {
        NullNeverRuns(calls, ids, rowKeys, body, ctx, us, rows, stamp);
      }
    } else if NoInherited(calls) {
      forall rows: Rows | RunUpdates(rows, ctx.primaryKey, us, stamp).Ok?
        ensures StillLoaded(rows, StagedAll(calls), ids, ctx.primaryKey, loaded)
      {
        SaveOfGrid(loaded, calls, ids, rowKeys, body, ctx, us, rows, stamp);
      }
    } else {
      var rows, row, c := LostUpdate(loaded, calls, ids, rowKeys, body, ctx, us, stamp);
    }
  }

  lemma NullNeverRuns(
    calls: seq<StageCall>, ids: Identities, rowKeys: seq<string>, body: seq<BulkRowEdit>, ctx: Context, us: seq<Update>,
    rows: Rows, stamp: string)
    requires GridSave(calls, ids, Preimage, rowKeys, body, ctx, us) && NullKey(StagedAll(calls), ids, ctx.primaryKey)
    ensures RunUpdates(rows, ctx.primaryKey, us, stamp).Err?
  {
    hide RunUpdates, KeepsKey, Overlaid, StagedAll, KeyOf, ProperKeys, GuardHolds, NoKeyColumn, Identified;
    GridSaveKeys(calls, ids, Preimage, rowKeys, body, ctx, us);
    BatchExactly(rows, ctx.primaryKey, us, stamp);
    var row :| row in StagedAll(calls) && row in ids && Null in KeyOf(ids, ctx.primaryKey, row);
    var i :| 0 <= i < |rowKeys| && rowKeys[i] == row;
    assert !Ready(rows, us[i]);
  }

  /** The captured values of each row, with `value` in one more cell: a table on which all guards hold. */
  function Staging(buffer: Buffer, rowKeys: seq<string>, us: seq<Update>, at: string, c: string, value: Value): Rows
    requires |rowKeys| == |us| && DistinctRows(us) && forall j :: 0 <= j < |us| ==> rowKeys[j] in buffer
  {
    map j | 0 <= j < |us| :: us[j].key := Row(StagingCells(buffer[rowKeys[j]].original, rowKeys[j] == at, c, value), "")
  }

  function StagingCells(original: Record, here: bool, c: string, value: Value): Record {
    if here then original[c := value] else original
  }

  /** A staged column with an inherited name: some save overwrites, in the row it was typed into, a value never
      loaded. */
  lemma LostUpdate(
    loaded: Cells, calls: seq<StageCall>, ids: Identities, rowKeys: seq<string>, body: seq<BulkRowEdit>, ctx: Context,
    us: seq<Update>, stamp: string) returns (rows: Rows, row: string, c: string)
    requires GridSave(calls, ids, Preimage, rowKeys, body, ctx, us) && !NoInherited(calls)
    requires !NullKey(StagedAll(calls), ids, ctx.primaryKey)
    ensures RunUpdates(rows, ctx.primaryKey, us, stamp).Ok?
    ensures row in StagedAll(calls) && row in ids && c in StagedAll(calls)[row].edits
    ensures var key := KeyOf(ids, ctx.primaryKey, row);
            && key in rows && c in rows[key].cells && Some(rows[key].cells[c]) != Lookup(loaded, (row, c))
            && var after := RunUpdates(rows, ctx.primaryKey, us, stamp).value.0;
               key in after && Lookup(after[key].cells, c) == Some(StagedAll(calls)[row].edits[c])
    ensures !StillLoaded(rows, StagedAll(calls), ids, ctx.primaryKey, loaded)
  {
    hide RunUpdates, StagedAll, INHERITED, NullKey, Staging, KeyOf, ProperKeys, Identified, NoKeyColumn;
    GridSaveKeys(calls, ids, Preimage, rowKeys, body, ctx, us);
    var k :| 0 <= k < |calls| && calls[k].column in INHERITED;
    row, c := calls[k].rowKey, calls[k].column;
    InheritedStays(calls, k);
    var value := if Lookup(loaded, (row, c)) == Some(Null) then Bool(true) else Null;
    rows := Staging(StagedAll(calls), rowKeys, us, row, c, value);
    StagingRuns(calls, ids, rowKeys, body, ctx, us, row, c, value, stamp);
    NotLoaded(rows, StagedAll(calls), ids, ctx.primaryKey, loaded, row, c);
  }

  lemma NotLoaded(
      rows: Rows, buffer: Buffer, ids: Identities, primaryKey: seq<string>, loaded: Cells, row: string, c: string)
    requires ProperKeys(ids, primaryKey) && row in buffer && row in ids && c in buffer[row].edits
    requires var key := KeyOf(ids, primaryKey, row);
             key in rows ==> Lookup(rows[key].cells, c) != Lookup(loaded, (row, c))
    ensures !StillLoaded(rows, buffer, ids, primaryKey, loaded)
  {
    hide KeyOf, ProperKeys;
    assert Edited(Lookup(buffer, row), c);
  }

  /** On that table the save runs, and the cell that nobody loaded is overwritten with the edit. */
  lemma StagingRuns(
    calls: seq<StageCall>, ids: Identities, rowKeys: seq<string>, body: seq<BulkRowEdit>, ctx: Context, us: seq<Update>,
    row: string, c: string, value: Value, stamp: string)
    requires GridSave(calls, ids, Preimage, rowKeys, body, ctx, us) && |rowKeys| == |us| && DistinctRows(us)
    requires forall j :: 0 <= j < |us| ==> rowKeys[j] in StagedAll(calls)
    requires !NullKey(StagedAll(calls), ids, ctx.primaryKey) && c in INHERITED
    requires row in StagedAll(calls) && row in ids && c in StagedAll(calls)[row].edits
    ensures var rows, key := Staging(StagedAll(calls), rowKeys, us, row, c, value), KeyOf(ids, ctx.primaryKey, row);
            && key in rows && Lookup(rows[key].cells, c) == Some(value)
            && var r := RunUpdates(rows, ctx.primaryKey, us, stamp);
               r.Ok? && key in r.value.0 && Lookup(r.value.0[key].cells, c) == Some(StagedAll(calls)[row].edits[c])
  {
    hide RunUpdates, StagedAll, INHERITED, KeepsKey, Ready, IsRowEdit, GuardFrom, ValidateBulkRow, Overlay, NullKey;
    hide KeyOf, ProperKeys, Identified, NoKeyColumn, Batch;
    var buffer := StagedAll(calls);
    var rows := Staging(buffer, rowKeys, us, row, c, value);
    GridSaveKeys(calls, ids, Preimage, rowKeys, body, ctx, us);
    var i :| 0 <= i < |rowKeys| && rowKeys[i] == row;
    StagingReady(calls, ids, rowKeys, body, ctx, us, row, c, value);
    BatchExactly(rows, ctx.primaryKey, us, stamp);
    BatchWrites(rows, us, stamp, RunUpdates(rows, ctx.primaryKey, us, stamp), i);
    assert rows[us[i].key] == Row(StagingCells(buffer[row].original, true, c, value), "");
    EditWritten(buffer[row], body[i], rows[us[i].key].cells, c);
  }

  lemma StagingReady(
    calls: seq<StageCall>, ids: Identities, rowKeys: seq<string>, body: seq<BulkRowEdit>, ctx: Context, us: seq<Update>,
    row: string, c: string, value: Value)
    requires GridSave(calls, ids, Preimage, rowKeys, body, ctx, us) && |rowKeys| == |us| && DistinctRows(us)
    requires forall j :: 0 <= j < |us| ==> rowKeys[j] in StagedAll(calls)
    requires !NullKey(StagedAll(calls), ids, ctx.primaryKey) && c in INHERITED
    ensures var rows := Staging(StagedAll(calls), rowKeys, us, row, c, value);
            forall j :: 0 <= j < |us| ==> Ready(rows, us[j])
  {
    hide StagedAll, INHERITED, KeepsKey, IsRowEdit, GuardFrom, OwnEntry, KeyOf, ProperKeys, GridSave, Ready, NullKey;
    GridSaveKeys(calls, ids, Preimage, rowKeys, body, ctx, us);
    OwnColumns(calls);
    forall j | 0 <= j < |us| ensures Ready(Staging(StagedAll(calls), rowKeys, us, row, c, value), us[j]) {
      GridSaveRow(calls, ids, rowKeys, body, ctx, us, j);
      OwnRow(StagedAll(calls)[rowKeys[j]], calls, c);
      StagedRowReady(StagedAll(calls), rowKeys, us, body[j], ctx, j, row, c, value);
    }
  }

  /** One row of the save: the edit built from its entry, and the guard resolved for it. */
  lemma GridSaveRow(
    calls: seq<StageCall>, ids: Identities, rowKeys: seq<string>, body: seq<BulkRowEdit>, ctx: Context, us: seq<Update>,
    j: nat)
    requires GridSave(calls, ids, Preimage, rowKeys, body, ctx, us) && j < |us|
    requires !NullKey(StagedAll(calls), ids, ctx.primaryKey)
    ensures |body| == |us| == |rowKeys| && rowKeys[j] in StagedAll(calls)
    ensures IsRowEdit(StagedAll(calls)[rowKeys[j]], Preimage, body[j]) && GuardFrom(body[j], ctx, us[j].guard)
    ensures Null !in us[j].key
  {
    hide StagedAll, IsRowEdit, GuardFrom, ValidateBulkRow, KeyOf, ProperKeys, Identified, NoKeyColumn, KeepsKey;
    GridSaveKeys(calls, ids, Preimage, rowKeys, body, ctx, us);
  }

  lemma StagedRowReady(
    buffer: Buffer, rowKeys: seq<string>, us: seq<Update>, edit: BulkRowEdit, ctx: Context, j: nat,
    row: string, c: string, value: Value)
    requires |rowKeys| == |us| && DistinctRows(us) && j < |us| && Null !in us[j].key
    requires forall k :: 0 <= k < |us| ==> rowKeys[k] in buffer
    requires var entry := buffer[rowKeys[j]];
             && IsRowEdit(entry, Preimage, edit) && GuardFrom(edit, ctx, us[j].guard)
             && ExpectedOf(entry) == entry.original && c !in entry.original
    ensures Ready(Staging(buffer, rowKeys, us, row, c, value), us[j])
  {
    hide IsRowEdit, GuardFrom, GuardHolds, ExpectedOf;
    var rows := Staging(buffer, rowKeys, us, row, c, value);
    StagingHolds(buffer[rowKeys[j]], edit, ctx, us[j].guard, rowKeys[j] == row, c, value);
    assert rows[us[j].key] == Row(StagingCells(buffer[rowKeys[j]].original, rowKeys[j] == row, c, value), "");
  }

  lemma OwnRow(entry: RowEditEntry, calls: seq<StageCall>, c: string)
    requires OwnEntry(entry, calls) && c in INHERITED
    ensures c !in entry.original && ExpectedOf(entry) == entry.original
  {
    hide INHERITED;
  }

  lemma StagingHolds(
      entry: RowEditEntry, edit: BulkRowEdit, ctx: Context, guard: Guard, here: bool, c: string, value: Value)
    requires IsRowEdit(entry, Preimage, edit) && GuardFrom(edit, ctx, guard) && ExpectedOf(entry) == entry.original
    requires c !in entry.original
    ensures GuardHolds(Row(StagingCells(entry.original, here, c, value), ""), guard)
  {
    hide IsRowEdit, GuardFrom, GuardHolds, Lists, ExpectedOf;
    var entries := PreimageEntries(entry, edit, ctx, guard);
    ListedGuard(entries, entry.original, guard, Row(StagingCells(entry.original, here, c, value), ""));
  }

  lemma EditWritten(entry: RowEditEntry, edit: BulkRowEdit, before: Record, c: string)
    requires IsRowEdit(entry, Preimage, edit) && c in entry.edits
    ensures Lookup(Overlay(before, edit.edits), c) == Some(entry.edits[c])
  {
    hide Overlay;
    var j :| 0 <= j < |edit.edits| && edit.edits[j].column == c;
    OverlayLists(before, edit.edits, j);
  }
}
