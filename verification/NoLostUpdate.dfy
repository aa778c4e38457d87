/** Optimistic concurrency end to end: a save goes through exactly when nobody changed the edited cells. */
module NoLostUpdate {
  import opened Common
  import opened EditBuffer
  import opened EditBufferState
  import opened BulkUpdate
  import opened GuardedUpdates

  ghost predicate DistinctRows(us: seq<Update>) {
    forall i, j :: 0 <= i < j < |us| ==> us[i].key != us[j].key
  }

  ghost predicate KeepsKey(u: Update, primaryKey: seq<string>) {
    |u.key| == |primaryKey| && forall j :: 0 <= j < |u.edits| ==> u.edits[j].column !in primaryKey
  }

  lemma {:induction false} OverlayColumns(cells: Record, edits: seq<CellEdit>)
    ensures forall c :: c in Overlay(cells, edits) <==>
              c in cells || exists j :: 0 <= j < |edits| && edits[j].column == c
    ensures forall c :: (forall j :: 0 <= j < |edits| ==> edits[j].column != c) ==>
            Lookup(Overlay(cells, edits), c) == Lookup(cells, c)
    decreases edits
  {
    if edits != [] {
      var front, last := edits[..|edits| - 1], edits[|edits| - 1];
      OverlayColumns(cells, front);
      assert edits == front + [last];
      forall c
        ensures c in Overlay(cells, edits) <==> c in cells || exists j :: 0 <= j < |edits| && edits[j].column == c {
        if exists j :: 0 <= j < |front| && front[j].column == c {
          var j :| 0 <= j < |front| && front[j].column == c;
          assert edits[j].column == c;
        }
      }
    }
  }

  /** Listing a record and laying it over the cells writes the record. */
  lemma {:induction false} OverlayLists(cells: Record, edits: seq<CellEdit>, j: nat)
    requires j < |edits| && forall a, b :: 0 <= a < b < |edits| ==> edits[a].column != edits[b].column
    ensures Lookup(Overlay(cells, edits), edits[j].column) == Some(edits[j].value)
    decreases edits
  {
    var front := edits[..|edits| - 1];
    if j < |front| {
      OverlayLists(cells, front, j);
    }
  }

  /** Without key edits a row keeps its key, and the update can only miss or replace the row's cells. */
  lemma UpdateInPlace(rows: Rows, primaryKey: seq<string>, u: Update, stamp: string)
    requires KeepsKey(u, primaryKey)
    ensures EditedKey(u.key, primaryKey, u.edits) == u.key
    ensures GuardedUpdate(rows, primaryKey, u, stamp) ==
            if Ready(rows, u) then Updated(rows[u.key := Row(Overlay(rows[u.key].cells, u.edits), stamp)], u.key)
              else Unmatched
  {
    OverlayColumns(map[], u.edits);
    hide Overlay, GuardHolds;
    assert forall i :: 0 <= i < |primaryKey| ==>
           primaryKey[i] in primaryKey && primaryKey[i] !in Overlay(map[], u.edits);
    assert EditedKey(u.key, primaryKey, u.edits) == u.key;
    if u.key in rows {
      var row := Row(Overlay(rows[u.key].cells, u.edits), stamp);
      assert (rows - {u.key})[u.key := row] == rows[u.key := row];
    }
  }

  /** The row is there and its guard holds. */
  predicate Ready(rows: Rows, u: Update) {
    Null !in u.key && u.key in rows && GuardHolds(rows[u.key], u.guard)
  }

  /** The table with each update's edits laid over its row, and nothing else changed. */
  ghost predicate Overlaid(before: Rows, us: seq<Update>, stamp: string, after: Rows) {
    && after.Keys == before.Keys
    && (forall i :: 0 <= i < |us| ==>
        us[i].key in before && after[us[i].key] == Row(Overlay(before[us[i].key].cells, us[i].edits), stamp))
    && (forall k :: k in before && (forall i :: 0 <= i < |us| ==> us[i].key != k) ==> after[k] == before[k])
  }

  /** The result of a batch: it succeeds exactly when every guard holds beforehand, and then overlays exactly the
      edits. */
  ghost predicate Batch(rows: Rows, us: seq<Update>, stamp: string, r: Result<(Rows, seq<Row>), GridError>) {
    && (r.Ok? <==> forall i :: 0 <= i < |us| ==> Ready(rows, us[i]))
    && (r.Err? ==> r.error == Conflict)
    && (r.Ok? ==> Overlaid(rows, us, stamp, r.value.0))
    && (r.Ok? ==> |r.value.1| == |us| && forall i :: 0 <= i < |us| ==>
        us[i].key in r.value.0 && r.value.1[i] == r.value.0[us[i].key])
  }

  lemma {:induction false} BatchExactly(rows: Rows, primaryKey: seq<string>, us: seq<Update>, stamp: string)
    requires DistinctRows(us) && forall i :: 0 <= i < |us| ==>
             |us[i].key| == |primaryKey| && KeepsKey(us[i], primaryKey)
    ensures Batch(rows, us, stamp, RunUpdates(rows, primaryKey, us, stamp))
    decreases us
  {
    hide GuardedUpdate, Overlay, KeepsKey, GuardHolds, Batch;
    if us == [] {
      NoUpdates(rows, us, stamp);
    } else {
      var first := us[0];
      UpdateInPlace(rows, primaryKey, first, stamp);
      if Ready(rows, first) {
        var next := rows[first.key := Row(Overlay(rows[first.key].cells, first.edits), stamp)];
        BatchExactly(next, primaryKey, us[1..], stamp);
        BatchStep(rows, next, us, stamp, RunUpdates(next, primaryKey, us[1..], stamp));
      } else {
        NotReady(rows, us, stamp);
      }
    }
  }

  /** When every row is ready, each is written. */
  lemma BatchWrites(rows: Rows, us: seq<Update>, stamp: string, r: Result<(Rows, seq<Row>), GridError>, i: nat)
    requires Batch(rows, us, stamp, r) && (forall j :: 0 <= j < |us| ==> Ready(rows, us[j])) && i < |us|
    ensures us[i].key in rows && r.Ok? && us[i].key in r.value.0
    ensures r.value.0[us[i].key].cells == Overlay(rows[us[i].key].cells, us[i].edits)
  {
    hide Overlay, Ready;
  }

  lemma NoUpdates(rows: Rows, us: seq<Update>, stamp: string)
    requires us == []
    ensures Batch(rows, us, stamp, Ok((rows, [])))
  {
  }

  lemma NotReady(rows: Rows, us: seq<Update>, stamp: string)
    requires us != [] && !Ready(rows, us[0])
    ensures Batch(rows, us, stamp, Err(Conflict))
  {
  }

  lemma BatchStep(rows: Rows, next: Rows, us: seq<Update>, stamp: string, r: Result<(Rows, seq<Row>), GridError>)
    requires us != [] && DistinctRows(us) && Ready(rows, us[0]) && us[0].key in rows
    requires next == rows[us[0].key := Row(Overlay(rows[us[0].key].cells, us[0].edits), stamp)]
    requires Batch(next, us[1..], stamp, r)
    ensures Batch(rows, us, stamp, Prepend([next[us[0].key]], r))
  {
    hide Overlay, Ready, Overlaid;
    assert forall i :: 0 <= i < |us[1..]| ==> us[1..][i] == us[i + 1];
    assert forall i :: 1 <= i < |us| ==> us[i] == us[1..][i - 1];
    ReadyAfter(rows, next, us, stamp);
    if r.Ok? {
      OverlaidAfter(rows, next, us, stamp, r.value.0);
    }
  }

  lemma ReadyAfter(rows: Rows, next: Rows, us: seq<Update>, stamp: string)
    requires us != [] && DistinctRows(us) && us[0].key in rows
    requires next == rows[us[0].key := Row(Overlay(rows[us[0].key].cells, us[0].edits), stamp)]
    ensures forall i :: 1 <= i < |us| ==> Ready(next, us[i]) == Ready(rows, us[i])
  {
    hide GuardHolds, Overlay;
  }

  lemma OverlaidAfter(rows: Rows, next: Rows, us: seq<Update>, stamp: string, after: Rows)
    requires us != [] && DistinctRows(us) && us[0].key in rows
    requires next == rows[us[0].key := Row(Overlay(rows[us[0].key].cells, us[0].edits), stamp)]
    requires Overlaid(next, us[1..], stamp, after)
    ensures Overlaid(rows, us, stamp, after) && us[0].key in after && after[us[0].key] == next[us[0].key]
  {
    hide Overlay;
    assert forall i :: 0 <= i < |us[1..]| ==> us[1..][i] == us[i + 1];
    assert forall i :: 1 <= i < |us| ==> us[i] == us[1..][i - 1];
    assert forall i :: 0 <= i < |us[1..]| ==> us[1..][i].key != us[0].key;
    assert us[0].key in next && after[us[0].key] == next[us[0].key];
  }

  // ---- from the buffer to the table ----------------------------------------------------------------------------

  /** The row still shows what was loaded in every cell that was edited. */
  ghost predicate Unchanged(cells: Record, buffer: Buffer, rowKey: string, loaded: Cells) {
    forall c :: Edited(Lookup(buffer, rowKey), c) ==>
      (rowKey, c) in loaded && Lookup(cells, c) == Some(loaded[(rowKey, c)])
  }

  /** The guard of a row built from the buffer compares exactly the edited cells with their loaded values. */
  lemma GuardComparesEdits(
      buffer: Buffer, loaded: Cells, shown: Cells, rowKey: string, edit: BulkRowEdit, ctx: Context, guard: Guard,
      row: Row)
    requires Difference(buffer, loaded, shown) && shown.Keys == loaded.Keys && rowKey in buffer
    requires IsRowEdit(buffer[rowKey], Preimage, edit) && GuardFrom(edit, ctx, guard)
    ensures GuardHolds(row, guard) <==> Unchanged(row.cells, buffer, rowKey, loaded)
  {
    hide RowDifference, IsRowEdit, Difference, GuardFrom, Edited, GuardHolds, Lists, ExpectedOf;
    var entry := buffer[rowKey];
    EntryDiffers(buffer, loaded, shown, rowKey);
    var entries := PreimageEntries(entry, edit, ctx, guard);
    ListedGuard(entries, entry.original, guard, row);
    forall c
      ensures Edited(Some(entry), c) <==> c in entry.original
      ensures c in entry.original ==> (rowKey, c) in loaded && entry.original[c] == loaded[(rowKey, c)]
    {
      CapturedIsLoaded(entry, rowKey, loaded, shown, c);
    }
  }

  lemma EntryDiffers(buffer: Buffer, loaded: Cells, shown: Cells, rowKey: string)
    requires Difference(buffer, loaded, shown) && rowKey in buffer
    ensures RowDifference(Some(buffer[rowKey]), rowKey, loaded, shown)
    ensures ExpectedOf(buffer[rowKey]) == buffer[rowKey].original
  {
    assert RowDifference(Lookup(buffer, rowKey), rowKey, loaded, shown);
  }

  /** A pre-image guard built from a listing compares every listed column. */
  lemma ListedGuard(entries: seq<CellEdit>, m: Record, guard: Guard, row: Row)
    requires Lists(entries, m)
    requires guard.PreimageGuard? && guard.columns == ColumnsOfEdits(entries) && |guard.values| == |entries|
    requires forall i :: 0 <= i < |entries| ==> guard.values[i] == entries[i].value
    ensures GuardHolds(row, guard) <==> forall c :: c in m ==> Lookup(row.cells, c) == Some(m[c])
  {
    if GuardHolds(row, guard) {
      forall c | c in m ensures Lookup(row.cells, c) == Some(m[c]) {
        var i :| 0 <= i < |entries| && entries[i].column == c;
        assert Lookup(row.cells, guard.columns[i]) == Some(guard.values[i]);
      }
    }
  }

  /** The guard is a listing of the captured values. */
  lemma PreimageEntries(entry: RowEditEntry, edit: BulkRowEdit, ctx: Context, guard: Guard)
    returns (entries: seq<CellEdit>)
    requires ExpectedOf(entry) == entry.original
    requires IsRowEdit(entry, Preimage, edit) && GuardFrom(edit, ctx, guard)
    ensures Lists(entries, entry.original)
    ensures guard.PreimageGuard? && guard.columns == ColumnsOfEdits(entries) && |guard.values| == |entries|
    ensures forall i :: 0 <= i < |entries| ==> guard.values[i] == entries[i].value
  {
    hide ExpectedOf;
    entries :| Lists(entries, entry.original) && ResolveGuard(edit, entries, ctx) == Ok(guard);
  }

  lemma TokenGuard(entry: RowEditEntry, edit: BulkRowEdit, ctx: Context, guard: Guard)
    requires IsRowEdit(entry, Token, edit) && GuardFrom(edit, ctx, guard)
    ensures guard.VersionGuard? && entry.version == Some(guard.version)
  {
  }

  lemma CapturedIsLoaded(entry: RowEditEntry, rowKey: string, loaded: Cells, shown: Cells, c: string)
    requires RowDifference(Some(entry), rowKey, loaded, shown)
    ensures Edited(Some(entry), c) <==> c in entry.original
    ensures Edited(Some(entry), c) ==> (rowKey, c) in loaded && entry.original[c] == loaded[(rowKey, c)]
    ensures Edited(Some(entry), c) ==> (rowKey, c) in shown && entry.edits[c] == shown[(rowKey, c)]
  {
  }

  /** Each row of the table after the save: the edited cells show what the user saw, the others are untouched. */
  ghost predicate SavedRow(before: Record, after: Record, buffer: Buffer, rowKey: string, shown: Cells) {
    forall c :: Lookup(after, c) ==
      if Edited(Lookup(buffer, rowKey), c) && (rowKey, c) in shown then Some(shown[(rowKey, c)]) else Lookup(before, c)
  }

  lemma OverlaySaves(buffer: Buffer, loaded: Cells, shown: Cells, rowKey: string, edit: BulkRowEdit, before: Record)
    requires Difference(buffer, loaded, shown) && shown.Keys == loaded.Keys && rowKey in buffer
    requires IsRowEdit(buffer[rowKey], Preimage, edit)
    ensures SavedRow(before, Overlay(before, edit.edits), buffer, rowKey, shown)
  {
    hide RowDifference, Overlay, Difference;
    var entry := buffer[rowKey];
    EntryDiffers(buffer, loaded, shown, rowKey);
    forall c
      ensures Lookup(Overlay(before, edit.edits), c) ==
              if Edited(Lookup(buffer, rowKey), c) && (rowKey, c) in shown then Some(shown[(rowKey, c)])
                else Lookup(before, c)
    {
      CapturedIsLoaded(entry, rowKey, loaded, shown, c);
      if c in entry.edits {
        var j :| 0 <= j < |edit.edits| && edit.edits[j].column == c;
        OverlayLists(before, edit.edits, j);
      } else {
        OverlayColumns(before, edit.edits);
      }
    }
  }

  /** A save is one update for each row of the buffer, at distinct keys and without key columns. */
  ghost predicate IsSave(buffer: Buffer, rowKeys: seq<string>, body: seq<BulkRowEdit>, ctx: Context, us: seq<Update>) {
    && IsBody(buffer, Preimage, rowKeys, body)
    && PreparedFrom(body, ctx, us)
    && DistinctRows(us)
    && forall i :: 0 <= i < |us| ==> |us[i].key| == |ctx.primaryKey| && KeepsKey(us[i], ctx.primaryKey)
  }

  /** The table after the save: the rows of the buffer with exactly their edits, and every other row as it was. */
  ghost predicate Saved(before: Rows, after: Rows, buffer: Buffer, rowKeys: seq<string>, us: seq<Update>, shown: Cells)
    requires |rowKeys| == |us|
  {
    && after.Keys == before.Keys
    && (forall i :: 0 <= i < |us| ==>
          us[i].key in before && SavedRow(before[us[i].key].cells, after[us[i].key].cells, buffer, rowKeys[i], shown))
    && (forall k :: k in before && (forall i :: 0 <= i < |us| ==> us[i].key != k) ==> after[k] == before[k])
  }

  /** No lost update: the save goes through exactly when every edited cell still holds its loaded value, and then the
      table is the old table with exactly the edits; otherwise it is a conflict. */
  lemma SaveExactly(
      loaded: Cells, shown: Cells, buffer: Buffer, rowKeys: seq<string>, body: seq<BulkRowEdit>, ctx: Context,
      us: seq<Update>, rows: Rows, stamp: string)
    requires Difference(buffer, loaded, shown) && shown.Keys == loaded.Keys && IsSave(buffer, rowKeys, body, ctx, us)
    ensures var r := RunUpdates(rows, ctx.primaryKey, us, stamp);
            && (r.Ok? <==> forall i :: 0 <= i < |us| ==>
                  Null !in us[i].key && us[i].key in rows
                    && Unchanged(rows[us[i].key].cells, buffer, rowKeys[i], loaded))
            && (r.Err? ==> r.error == Conflict)
            && (r.Ok? ==> Saved(rows, r.value.0, buffer, rowKeys, us, shown))
  {
    hide RunUpdates, SavedRow, Unchanged, GuardHolds, KeepsKey, Difference, GuardFrom, ValidateBulkRow, IsRowEdit,
      Overlay;
    BatchExactly(rows, ctx.primaryKey, us, stamp);
    forall i | 0 <= i < |us|
      ensures us[i].key in rows ==>
              (GuardHolds(rows[us[i].key], us[i].guard)
               <==> Unchanged(rows[us[i].key].cells, buffer, rowKeys[i], loaded))
      ensures us[i].key in rows ==>
                SavedRow(rows[us[i].key].cells, Overlay(rows[us[i].key].cells, us[i].edits), buffer, rowKeys[i], shown)
    {
      assert rowKeys[i] in buffer && IsRowEdit(buffer[rowKeys[i]], Preimage, body[i]);
      if us[i].key in rows {
        GuardComparesEdits(buffer, loaded, shown, rowKeys[i], body[i], ctx, us[i].guard, rows[us[i].key]);
        OverlaySaves(buffer, loaded, shown, rowKeys[i], body[i], rows[us[i].key].cells);
      }
    }
  }

  /** With version tokens, the save goes through exactly when every row still carries the version it was read with. */
  lemma TokenSaveExactly(
      buffer: Buffer, rowKeys: seq<string>, body: seq<BulkRowEdit>, ctx: Context, us: seq<Update>, rows: Rows,
      stamp: string)
    requires IsBody(buffer, Token, rowKeys, body) && PreparedFrom(body, ctx, us) && DistinctRows(us)
    requires forall i :: 0 <= i < |us| ==> |us[i].key| == |ctx.primaryKey| && KeepsKey(us[i], ctx.primaryKey)
    ensures RunUpdates(rows, ctx.primaryKey, us, stamp).Ok? <==>
            forall i :: 0 <= i < |us| ==>
              && Null !in us[i].key && us[i].key in rows
              && buffer[rowKeys[i]].version == Some(rows[us[i].key].version)
  {
    hide RunUpdates, KeepsKey, ValidateBulkRow, Overlay, Overlaid, IsRowEdit, GuardFrom;
    BatchExactly(rows, ctx.primaryKey, us, stamp);
    forall i | 0 <= i < |us|
      ensures us[i].guard.VersionGuard? && buffer[rowKeys[i]].version == Some(us[i].guard.version) {
      TokenGuard(buffer[rowKeys[i]], body[i], ctx, us[i].guard);
    }
  }
}
