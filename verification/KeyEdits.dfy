/** Saves that edit key columns: when each edit still goes to the row it was typed into. */
module KeyEdits {
  import opened Common
  import opened EditBuffer
  import opened EditBufferState
  import opened GuardedUpdates
  import opened BulkUpdate
  import opened NoLostUpdate
  import opened GridSaves
  import opened LostEdits

  // ---- a batch that moves rows -----------------------------------------------------------------------------------

  ghost predicate KeyLengths(us: seq<Update>, primaryKey: seq<string>) {
    forall i :: 0 <= i < |us| ==> |us[i].key| == |primaryKey|
  }

  /** No row is moved to the key of a row that is updated after it. */
  ghost predicate NoneOvertaken(us: seq<Update>, primaryKey: seq<string>)
    requires KeyLengths(us, primaryKey)
  {
    forall i, j :: 0 <= i < j < |us| ==> EditedKey(us[i].key, primaryKey, us[i].edits) != us[j].key
  }

  /** Each row was there with its guard holding, and is now at its new key with its edits. */
  ghost predicate EachMoved(rows: Rows, after: Rows, primaryKey: seq<string>, us: seq<Update>, stamp: string)
    requires KeyLengths(us, primaryKey)
  {
    forall i :: 0 <= i < |us| ==>
      var key := EditedKey(us[i].key, primaryKey, us[i].edits);
      && Ready(rows, us[i])
      && key in after && after[key] == Row(Overlay(rows[us[i].key].cells, us[i].edits), stamp)
  }

  /** A batch that goes through found all its rows exactly when none was overtaken; then each got its own edits. */
  lemma {:induction false} MovesExactly(rows: Rows, primaryKey: seq<string>, us: seq<Update>, stamp: string)
    requires DistinctRows(us) && KeyLengths(us, primaryKey) && RunUpdates(rows, primaryKey, us, stamp).Ok?
    ensures NoneOvertaken(us, primaryKey) <==> forall i :: 0 <= i < |us| ==> us[i].key in rows
    ensures NoneOvertaken(us, primaryKey) ==>
              EachMoved(rows, RunUpdates(rows, primaryKey, us, stamp).value.0, primaryKey, us, stamp)
    decreases us
  {
    hide GuardedUpdate, EditedKey, EachMoved, Overlay, NoneOvertaken;
    if us == [] {
      NoneMoved(rows, primaryKey, stamp);
    } else {
      var next, key := GuardedUpdate(rows, primaryKey, us[0], stamp).rows,
                       GuardedUpdate(rows, primaryKey, us[0], stamp).key;
      var after := RunUpdates(next, primaryKey, us[1..], stamp).value.0;
      FirstMove(rows, primaryKey, us[0], stamp);
      MovesExactly(next, primaryKey, us[1..], stamp);
      BatchKeepsKeys(next, primaryKey, us[1..], stamp);
      FirstOvertakes(rows, next, primaryKey, us);
      if NoneOvertaken(us, primaryKey) {
        FirstStays(next, after, us, key);
        MovedMore(rows, next, after, primaryKey, us, stamp);
      }
    }
  }

  lemma NoneMoved(rows: Rows, primaryKey: seq<string>, stamp: string)
    ensures NoneOvertaken([], primaryKey) && EachMoved(rows, rows, primaryKey, [], stamp)
  {
  }

  lemma FirstMove(rows: Rows, primaryKey: seq<string>, u: Update, stamp: string)
    requires |u.key| == |primaryKey| && GuardedUpdate(rows, primaryKey, u, stamp).Updated?
    ensures var key := EditedKey(u.key, primaryKey, u.edits);
            && Ready(rows, u) && GuardedUpdate(rows, primaryKey, u, stamp).key == key
            && (key in rows ==> key == u.key)
            && GuardedUpdate(rows, primaryKey, u, stamp).rows
               == (rows - {u.key})[key := Row(Overlay(rows[u.key].cells, u.edits), stamp)]
  {
  }

  ghost predicate AllThere(rows: Rows, us: seq<Update>) {
    forall i :: 0 <= i < |us| ==> us[i].key in rows
  }

  lemma FirstOvertakes(rows: Rows, next: Rows, primaryKey: seq<string>, us: seq<Update>)
    requires us != [] && DistinctRows(us) && KeyLengths(us, primaryKey) && us[0].key in rows
    requires var key := EditedKey(us[0].key, primaryKey, us[0].edits);
             (key in rows ==> key == us[0].key) && next.Keys == rows.Keys - {us[0].key} + {key}
    requires NoneOvertaken(us[1..], primaryKey) <==> AllThere(next, us[1..])
    ensures NoneOvertaken(us, primaryKey) <==> AllThere(rows, us)
    ensures NoneOvertaken(us, primaryKey) ==> NoneOvertaken(us[1..], primaryKey)
    ensures NoneOvertaken(us, primaryKey) ==>
              forall j :: 0 < j < |us| ==> EditedKey(us[0].key, primaryKey, us[0].edits) != us[j].key
  {
    hide EditedKey;
    assert forall i :: 0 <= i < |us[1..]| ==> us[1..][i] == us[i + 1];
    assert forall i :: 1 <= i < |us| ==> us[i] == us[1..][i - 1];
  }

  lemma FirstStays(next: Rows, after: Rows, us: seq<Update>, key: Key)
    requires us != [] && key in next && OthersKept(next, after, us[1..])
    requires forall j :: 0 < j < |us| ==> key != us[j].key
    ensures key in after && after[key] == next[key]
  {
    assert forall i :: 0 <= i < |us[1..]| ==> us[1..][i] == us[i + 1];
  }

  lemma MovedMore(rows: Rows, next: Rows, after: Rows, primaryKey: seq<string>, us: seq<Update>, stamp: string)
    requires us != [] && DistinctRows(us) && KeyLengths(us, primaryKey) && Ready(rows, us[0])
    requires EachMoved(next, after, primaryKey, us[1..], stamp)
    requires var key := EditedKey(us[0].key, primaryKey, us[0].edits);
             && next == (rows - {us[0].key})[key := Row(Overlay(rows[us[0].key].cells, us[0].edits), stamp)]
             && key in after && after[key] == next[key]
             && forall j :: 0 < j < |us| ==> key != us[j].key
    ensures EachMoved(rows, after, primaryKey, us, stamp)
  {
    hide EditedKey, Overlay, GuardHolds;
    forall i | 0 < i < |us|
      ensures var key := EditedKey(us[i].key, primaryKey, us[i].edits);
              && Ready(rows, us[i])
              && key in after && after[key] == Row(Overlay(rows[us[i].key].cells, us[i].edits), stamp)
    {
      assert us[i] == us[1..][i - 1];
      assert next[us[i].key] == rows[us[i].key];
    }
  }

  // ---- saves from the grid ---------------------------------------------------------------------------------------

  /** The key with the edited values of its columns in it. */
  ghost predicate NewKey(now: Key, key: Key, primaryKey: seq<string>, edits: Record)
    requires |key| == |primaryKey|
  {
    && |now| == |primaryKey|
    && forall j :: 0 <= j < |primaryKey| ==>
         now[j] == if primaryKey[j] in edits then edits[primaryKey[j]] else key[j]
  }

  lemma ListedNewKey(key: Key, primaryKey: seq<string>, edits: seq<CellEdit>, m: Record)
    requires |key| == |primaryKey| && Lists(edits, m)
    ensures NewKey(EditedKey(key, primaryKey, edits), key, primaryKey, m)
  {
    hide Overlay;
    forall j | 0 <= j < |primaryKey|
      ensures Lookup(Overlay(map[], edits), primaryKey[j]) == Lookup(m, primaryKey[j])
    {
      if primaryKey[j] in m {
        var k :| 0 <= k < |edits| && edits[k].column == primaryKey[j];
        OverlayLists(map[], edits, k);
      } else {
        OverlayColumns(map[], edits);
      }
    }
  }

  lemma KeyLength(ids: Identities, primaryKey: seq<string>, row: string)
    requires row in ids && ProperKeys(ids, primaryKey)
    ensures |KeyOf(ids, primaryKey, row)| == |primaryKey|
  {
  }

  /** Row `row` was there, and is now at its new key with exactly the edits typed into it. */
  ghost predicate RowMoved(before: Rows, after: Rows, buffer: Buffer, row: string, key: Key, primaryKey: seq<string>,
                           shown: Cells)
    requires |key| == |primaryKey| && row in buffer
  {
    && key in before
    && exists now ::
         && NewKey(now, key, primaryKey, buffer[row].edits)
         && now in after && SavedRow(before[key].cells, after[now].cells, buffer, row, shown)
  }

  lemma SavedMove(
    loaded: Cells, shown: Cells, buffer: Buffer, row: string, edit: BulkRowEdit, ctx: Context, us: seq<Update>, i: nat,
    rows: Rows, after: Rows, stamp: string)
    requires Difference(buffer, loaded, shown) && shown.Keys == loaded.Keys && row in buffer && i < |us|
    requires IsRowEdit(buffer[row], Preimage, edit) && GuardFrom(edit, ctx, us[i].guard) && us[i].edits == edit.edits
    requires KeyLengths(us, ctx.primaryKey) && EachMoved(rows, after, ctx.primaryKey, us, stamp)
    ensures |us[i].key| == |ctx.primaryKey| && RowMoved(rows, after, buffer, row, us[i].key, ctx.primaryKey, shown)
    ensures us[i].key in rows && Unchanged(rows[us[i].key].cells, buffer, row, loaded)
  {
    hide Difference, GuardFrom, EditedKey, Overlay, GuardHolds, Unchanged, SavedRow, NewKey;
    var before := rows[us[i].key];
    GuardComparesEdits(buffer, loaded, shown, row, edit, ctx, us[i].guard, before);
    OverlaySaves(buffer, loaded, shown, row, edit, before.cells);
    ListedNewKey(us[i].key, ctx.primaryKey, us[i].edits, buffer[row].edits);
  }

  /** Every row of the buffer is at its new key, with its edits. */
  ghost predicate AllMoved(
    before: Rows, after: Rows, buffer: Buffer, ids: Identities, primaryKey: seq<string>, shown: Cells)
    requires ProperKeys(ids, primaryKey)
  {
    forall row :: row in buffer && row in ids ==>
      var key := KeyOf(ids, primaryKey, row);
      |key| == |primaryKey| && RowMoved(before, after, buffer, row, key, primaryKey, shown)
  }

  /** No row is lost, and one that was not edited is as it was. */
  ghost predicate NoneLost(before: Rows, after: Rows, buffer: Buffer, ids: Identities, primaryKey: seq<string>)
    requires ProperKeys(ids, primaryKey)
  {
    && |after| == |before|
    && forall key :: key in before ==>
         || (key in after && after[key] == before[key])
         || exists row :: row in buffer && row in ids && KeyOf(ids, primaryKey, row) == key
  }

  /**
   * A save of ordinary columns, key columns among them, that goes through: every edited cell still held its loaded
   * value exactly when no row was moved to the key of a row updated after it, and then each edit is in the row it was
   * typed into, at its new key. No row is lost or overwritten either way.
   */
  lemma KeySaveExactly(
    loaded: Cells, calls: seq<StageCall>, ids: Identities, rowKeys: seq<string>, body: seq<BulkRowEdit>, ctx: Context,
    us: seq<Update>, rows: Rows, stamp: string)
    requires FromGrid(loaded, calls) && NoInherited(calls)
    requires AcceptedSave(calls, ids, Preimage, rowKeys, body, ctx, us)
    requires RunUpdates(rows, ctx.primaryKey, us, stamp).Ok?
    ensures var buffer, after := StagedAll(calls), RunUpdates(rows, ctx.primaryKey, us, stamp).value.0;
            && (StillLoaded(rows, buffer, ids, ctx.primaryKey, loaded) <==> NoneOvertaken(us, ctx.primaryKey))
            && (NoneOvertaken(us, ctx.primaryKey) ==>
                  AllMoved(rows, after, buffer, ids, ctx.primaryKey, Shown(loaded, calls)))
            && NoneLost(rows, after, buffer, ids, ctx.primaryKey)
  {
    hide RunUpdates, StagedAll, Shown, FromGrid, Difference, Identified, EditedKey, INHERITED, IsBody, PreparedFrom,
      KeyedBy, EachMoved, NoneOvertaken, Filed, AllCarry, NoneLost, AllMoved, StillLoaded, OthersKept, KeyOf,
        ProperKeys;
    var buffer, after := StagedAll(calls), RunUpdates(rows, ctx.primaryKey, us, stamp).value.0;
    SaveKeys(calls, ids, Preimage, rowKeys, body, ctx, us);
    MovesExactly(rows, ctx.primaryKey, us, stamp);
    BatchKeepsKeys(rows, ctx.primaryKey, us, stamp);
    OthersNotLost(rows, after, buffer, ids, rowKeys, ctx.primaryKey, us);
    LoadedAreThere(rows, buffer, ids, rowKeys, ctx.primaryKey, us, loaded);
    if NoneOvertaken(us, ctx.primaryKey) {
      BufferIsDifference(loaded, calls);
      ShownKeys(loaded, calls);
      RowsNamed(calls, ids, rowKeys, ctx, us);
      RowsMoved(loaded, calls, ids, rowKeys, body, ctx, us, rows, after, stamp);
    }
  }

  lemma OthersNotLost(rows: Rows, after: Rows, buffer: Buffer, ids: Identities, rowKeys: seq<string>,
                      primaryKey: seq<string>, us: seq<Update>)
    requires ProperKeys(ids, primaryKey) && |us| == |rowKeys| && OthersKept(rows, after, us) && |after| == |rows|
    requires forall i :: 0 <= i < |us| ==>
               rowKeys[i] in buffer && rowKeys[i] in ids && us[i].key == KeyOf(ids, primaryKey, rowKeys[i])
    ensures NoneLost(rows, after, buffer, ids, primaryKey)
  {
    hide KeyOf, ProperKeys;
    forall key | key in rows && !(key in after && after[key] == rows[key])
      ensures exists row :: row in buffer && row in ids && KeyOf(ids, primaryKey, row) == key
    {
      var i :| 0 <= i < |us| && us[i].key == key;
      assert KeyOf(ids, primaryKey, rowKeys[i]) == key;
    }
  }

  lemma LoadedAreThere(rows: Rows, buffer: Buffer, ids: Identities, rowKeys: seq<string>, primaryKey: seq<string>,
                       us: seq<Update>, loaded: Cells)
    requires ProperKeys(ids, primaryKey) && |us| == |rowKeys|
    requires forall i :: 0 <= i < |us| ==>
               rowKeys[i] in buffer && rowKeys[i] in ids && us[i].key == KeyOf(ids, primaryKey, rowKeys[i])
    ensures StillLoaded(rows, buffer, ids, primaryKey, loaded) ==> forall i :: 0 <= i < |us| ==> us[i].key in rows
  {
    hide KeyOf, ProperKeys, Unchanged;
  }

  lemma RowsMoved(
    loaded: Cells, calls: seq<StageCall>, ids: Identities, rowKeys: seq<string>, body: seq<BulkRowEdit>, ctx: Context,
    us: seq<Update>, rows: Rows, after: Rows, stamp: string)
    requires var buffer, shown := StagedAll(calls), Shown(loaded, calls);
             && Difference(buffer, loaded, shown) && shown.Keys == loaded.Keys
             && IsBody(buffer, Preimage, rowKeys, body)
    requires PreparedFrom(body, ctx, us) && ProperKeys(ids, ctx.primaryKey)
    requires KeyLengths(us, ctx.primaryKey) && EachMoved(rows, after, ctx.primaryKey, us, stamp)
    requires forall row :: row in StagedAll(calls) && row in ids ==>
               exists i :: 0 <= i < |us| && rowKeys[i] == row && us[i].key == KeyOf(ids, ctx.primaryKey, row)
    ensures AllMoved(rows, after, StagedAll(calls), ids, ctx.primaryKey, Shown(loaded, calls))
    ensures StillLoaded(rows, StagedAll(calls), ids, ctx.primaryKey, loaded)
  {
    hide StagedAll, Shown, Difference, KeyOf, ProperKeys, EditedKey, IsRowEdit, GuardFrom, ValidateBulkRow, EachMoved,
      RowMoved, Unchanged;
    var buffer, shown := StagedAll(calls), Shown(loaded, calls);
    forall row | row in buffer && row in ids
      ensures var key := KeyOf(ids, ctx.primaryKey, row);
              && |key| == |ctx.primaryKey| && RowMoved(rows, after, buffer, row, key, ctx.primaryKey, shown)
              && key in rows && Unchanged(rows[key].cells, buffer, row, loaded)
    {
      var i :| 0 <= i < |us| && rowKeys[i] == row && us[i].key == KeyOf(ids, ctx.primaryKey, row);
      SavedMove(loaded, shown, buffer, row, body[i], ctx, us, i, rows, after, stamp);
    }
  }

  /** On every table such a save finds all as it was loaded, exactly when no row is overtaken or it goes through on
      none. */
  lemma KeyEditsExactly(
    loaded: Cells, calls: seq<StageCall>, ids: Identities, rowKeys: seq<string>, body: seq<BulkRowEdit>, ctx: Context,
    us: seq<Update>, stamp: string)
    requires FromGrid(loaded, calls) && NoInherited(calls)
    requires AcceptedSave(calls, ids, Preimage, rowKeys, body, ctx, us)
    ensures (forall rows: Rows | RunUpdates(rows, ctx.primaryKey, us, stamp).Ok? ::
               StillLoaded(rows, StagedAll(calls), ids, ctx.primaryKey, loaded))
            <==> NoneOvertaken(us, ctx.primaryKey) || forall rows: Rows ::
              RunUpdates(rows, ctx.primaryKey, us, stamp).Err?
  {
    hide RunUpdates, StillLoaded, StagedAll, FromGrid, NoInherited, NoneOvertaken, IsBody, PreparedFrom, Identified,
      ProperKeys;
    forall rows: Rows | RunUpdates(rows, ctx.primaryKey, us, stamp).Ok?
      ensures StillLoaded(rows, StagedAll(calls), ids, ctx.primaryKey, loaded) <==> NoneOvertaken(us, ctx.primaryKey)
    {
      KeySaveExactly(loaded, calls, ids, rowKeys, body, ctx, us, rows, stamp);
    }
  }

  // ---- version tokens --------------------------------------------------------------------------------------------

  /** With versions that the batch does not give out itself, each row was there with the version asked for. */
  lemma {:induction false} TokensFind(rows: Rows, primaryKey: seq<string>, us: seq<Update>, stamp: string)
    requires DistinctRows(us) && KeyLengths(us, primaryKey) && RunUpdates(rows, primaryKey, us, stamp).Ok?
    requires forall i :: 0 <= i < |us| ==> us[i].guard.VersionGuard? && us[i].guard.version != stamp
    ensures forall i :: 0 <= i < |us| ==> us[i].key in rows && rows[us[i].key].version == us[i].guard.version
    decreases us
  {
    hide EditedKey, Overlay;
    if us != [] {
      var next := GuardedUpdate(rows, primaryKey, us[0], stamp).rows;
      FirstMove(rows, primaryKey, us[0], stamp);
      TokensFind(next, primaryKey, us[1..], stamp);
      assert forall i :: 1 <= i < |us| ==> us[i] == us[1..][i - 1];
    }
  }

  /** With version tokens no row is ever overtaken: a save that goes through, key columns or not, found every row typed
      into with the version it was read with. */
  lemma TokensNeverOvertaken(
    calls: seq<StageCall>, ids: Identities, rowKeys: seq<string>, body: seq<BulkRowEdit>, ctx: Context,
    us: seq<Update>, rows: Rows, stamp: string)
    requires AcceptedSave(calls, ids, Token, rowKeys, body, ctx, us)
    requires RunUpdates(rows, ctx.primaryKey, us, stamp).Ok?
    requires forall row :: row in ids ==> ids[row].version != Some(stamp)
    ensures NoneOvertaken(us, ctx.primaryKey)
    ensures forall row :: row in StagedAll(calls) && row in ids ==>
              var key := KeyOf(ids, ctx.primaryKey, row); key in rows && ids[row].version == Some(rows[key].version)
  {
    hide RunUpdates, StagedAll, KeyOf, ProperKeys, Identified, EditedKey, IsRowEdit, GuardFrom, ValidateBulkRow,
      KeyedBy,
      EachMoved;
    EntryIdentity(calls, ids);
    SaveKeys(calls, ids, Token, rowKeys, body, ctx, us);
    forall i | 0 <= i < |us|
      ensures us[i].guard.VersionGuard? && ids[rowKeys[i]].version == Some(us[i].guard.version)
    {
      TokenGuard(StagedAll(calls)[rowKeys[i]], body[i], ctx, us[i].guard);
    }
    TokensFind(rows, ctx.primaryKey, us, stamp);
    MovesExactly(rows, ctx.primaryKey, us, stamp);
    RowsNamed(calls, ids, rowKeys, ctx, us);
  }

  // ---- a row that is overtaken -----------------------------------------------------------------------------------

  const NUMBERED := Context(false, ["id", "n"], ["id"], {})
  const FIRST := RowIdentity(map["id" := Number(1)], None)
  const SECOND := RowIdentity(map["id" := Number(2)], None)
  const ID_TYPED := Typed("id", Number(1), Number(2))
  const N_TYPED := Typed("n", Number(5), Number(6))

  function NumberedRow(id: int, n: int): Record {
    map["id" := Number(id), "n" := Number(n)]
  }

  function OneEdit(identity: RowIdentity, typed: Typed): BulkRowEdit {
    BulkRowEdit(identity.primaryKey, [CellEdit(typed.column, typed.after)], None,
                Some(map[typed.column := typed.before]))
  }

  function OneUpdateOf(id: int, typed: Typed): Update {
    Update([Number(id)], [CellEdit(typed.column, typed.after)], PreimageGuard([typed.column], [typed.before]))
  }

  /**
   * Row 1 gets the key 2, and 6 is typed over the 5 in row 2, which somebody else has deleted meanwhile. The save goes
   * through: row 1 takes the key 2, and the 6 is written to it.
   */
  lemma OvertakenRow(stamp: string) returns (body: seq<BulkRowEdit>, us: seq<Update>)
    ensures var calls := [StageCall("1", FIRST, "id", Number(1), Number(2)),
                          StageCall("2", SECOND, "n", Number(5), Number(6))];
            AcceptedSave(calls, map["1" := FIRST, "2" := SECOND], Preimage, ["1", "2"], body, NUMBERED, us)
    ensures var r := RunUpdates(map[[Number(1)] := Row(NumberedRow(1, 5), "")], ["id"], us, stamp);
            r.Ok? && r.value.0 == map[[Number(2)] := Row(NumberedRow(2, 6), stamp)]
  {
    hide StagedAll, RunUpdates, IsBody, PreparedFrom, Identified, ProperKeys;
    body := [OneEdit(FIRST, ID_TYPED), OneEdit(SECOND, N_TYPED)];
    us := [OneUpdateOf(1, ID_TYPED), OneUpdateOf(2, N_TYPED)];
    NumberedStaged();
    NumberedIdentities();
    NumberedAccepted(body, us);
    NumberedRun(us, stamp);
  }

  lemma NumberedNames()
    ensures "1" != "2" && "id" != "n" && "id" !in INHERITED && "n" !in INHERITED
  {
    assert "1"[0] != "2"[0] && |"id"| != |"n"|;
    ShortNames();
  }

  lemma NumberedStaged()
    ensures StagedAll([StageCall("1", FIRST, "id", Number(1), Number(2)),
                       StageCall("2", SECOND, "n", Number(5), Number(6))])
         == map["1" := OneEntry(FIRST, ID_TYPED), "2" := OneEntry(SECOND, N_TYPED)]
  {
    hide INHERITED, StagedAll;
    NumberedNames();
    var a, b := StageCall("1", FIRST, "id", Number(1), Number(2)), StageCall("2", SECOND, "n", Number(5), Number(6));
    StagedTwice(a, b);
    StagedOne("1", FIRST, ID_TYPED);
    assert "n" in map["n" := Number(6)];
  }

  lemma NumberedIdentities()
    ensures var calls := [StageCall("1", FIRST, "id", Number(1), Number(2)),
                          StageCall("2", SECOND, "n", Number(5), Number(6))];
            Identified(calls, map["1" := FIRST, "2" := SECOND])
    ensures ProperKeys(map["1" := FIRST, "2" := SECOND], ["id"])
  {
    NumberedNames();
    assert KeyValues(FIRST.primaryKey, ["id"])[0] == Number(1) && KeyValues(SECOND.primaryKey, ["id"])[0] == Number(2);
  }

  lemma OneAccepted(identity: RowIdentity, typed: Typed, id: int)
    requires identity.primaryKey == map["id" := Number(id)] && typed.column in NUMBERED.columns
    ensures IsRowEdit(OneEntry(identity, typed), Preimage, OneEdit(identity, typed))
    ensures ValidateBulkRow(OneEdit(identity, typed), NUMBERED) == Ok([Number(id)])
    ensures GuardFrom(OneEdit(identity, typed), NUMBERED, OneUpdateOf(id, typed).guard)
  {
    var entry, edit := OneEntry(identity, typed), OneEdit(identity, typed);
    var entries := [CellEdit(typed.column, typed.before)];
    assert ExpectedOf(entry) == entry.original;
    assert edit.edits[0].column == typed.column && entries[0].column == typed.column;
    assert Lists(edit.edits, entry.edits) && Lists(entries, entry.original);
    assert ColumnsOfEdits(edit.edits) == [typed.column] && ColumnsOfEdits(entries) == [typed.column];
    assert KeyValues(edit.primaryKey, ["id"]) == [Number(id)];
    assert seq(|entries|, i requires 0 <= i < |entries| => entries[i].value) == [typed.before];
    assert ResolveGuard(edit, entries, NUMBERED) == Ok(OneUpdateOf(id, typed).guard);
  }

  lemma NumberedAccepted(body: seq<BulkRowEdit>, us: seq<Update>)
    requires body == [OneEdit(FIRST, ID_TYPED), OneEdit(SECOND, N_TYPED)]
    requires us == [OneUpdateOf(1, ID_TYPED), OneUpdateOf(2, N_TYPED)]
    ensures IsBody(map["1" := OneEntry(FIRST, ID_TYPED), "2" := OneEntry(SECOND, N_TYPED)], Preimage, ["1", "2"], body)
    ensures PreparedFrom(body, NUMBERED, us) && Keyed(us, ["id"])
  {
    hide IsRowEdit, ValidateBulkRow, GuardFrom, INHERITED;
    NumberedNames();
    assert NUMBERED.columns[0] == "id" && NUMBERED.columns[1] == "n";
    OneAccepted(FIRST, ID_TYPED, 1);
    OneAccepted(SECOND, N_TYPED, 2);
    assert ["1", "2"][0] == "1" && ["1", "2"][1] == "2";
  }

  lemma NumberedRun(us: seq<Update>, stamp: string)
    requires us == [OneUpdateOf(1, ID_TYPED), OneUpdateOf(2, N_TYPED)]
    ensures var r := RunUpdates(map[[Number(1)] := Row(NumberedRow(1, 5), "")], ["id"], us, stamp);
            r.Ok? && r.value.0 == map[[Number(2)] := Row(NumberedRow(2, 6), stamp)]
  {
    hide GuardedUpdate, INHERITED;
    var rows, mid, after: Rows := map[[Number(1)] := Row(NumberedRow(1, 5), "")],
      map[[Number(2)] := Row(NumberedRow(2, 5), stamp)], map[[Number(2)] := Row(NumberedRow(2, 6), stamp)];
    NumberedMove(rows, mid, us[0], stamp);
    NumberedWrite(mid, after, us[1], stamp);
    assert us[1..] == [us[1]] && us[1..][1..] == [];
    assert RunUpdates(after, ["id"], [], stamp) == Ok((after, []));
    assert RunUpdates(mid, ["id"], us[1..], stamp) == Prepend([after[[Number(2)]]], Ok((after, [])));
  }

  lemma NumberedMove(rows: Rows, mid: Rows, u: Update, stamp: string)
    requires rows == map[[Number(1)] := Row(NumberedRow(1, 5), "")] && u == OneUpdateOf(1, ID_TYPED)
    requires mid == map[[Number(2)] := Row(NumberedRow(2, 5), stamp)]
    ensures GuardedUpdate(rows, ["id"], u, stamp) == Updated(mid, [Number(2)])
  {
    NumberedNames();
    OneOverlaid(map[], u.edits[0]);
    OneOverlaid(NumberedRow(1, 5), u.edits[0]);
    assert [Number(1)][0] != [Number(2)][0];
    assert EditedKey([Number(1)], ["id"], u.edits) == [Number(2)];
    assert NumberedRow(1, 5)["id" := Number(2)] == NumberedRow(2, 5);
    hide Overlay, EditedKey;
    assert (rows - {[Number(1)]})[[Number(2)] := Row(NumberedRow(2, 5), stamp)] == mid;
  }

  lemma NumberedWrite(mid: Rows, after: Rows, u: Update, stamp: string)
    requires mid == map[[Number(2)] := Row(NumberedRow(2, 5), stamp)] && u == OneUpdateOf(2, N_TYPED)
    requires after == map[[Number(2)] := Row(NumberedRow(2, 6), stamp)]
    ensures GuardedUpdate(mid, ["id"], u, stamp) == Updated(after, [Number(2)])
  {
    NumberedNames();
    OneOverlaid(map[], u.edits[0]);
    OneOverlaid(NumberedRow(2, 5), u.edits[0]);
    assert EditedKey([Number(2)], ["id"], u.edits) == [Number(2)];
    assert NumberedRow(2, 5)["n" := Number(6)] == NumberedRow(2, 6);
    hide Overlay, EditedKey;
    assert (mid - {[Number(2)]})[[Number(2)] := Row(NumberedRow(2, 6), stamp)] == after;
  }

  lemma OneOverlaid(cells: Record, edit: CellEdit)
    ensures Overlay(cells, [edit]) == cells[edit.column := edit.value]
  {
    assert [edit][..0] == [];
  }
}
