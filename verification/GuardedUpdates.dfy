/** Guarded updates of a table: one, and a batch in order, with edits of key columns. */
module GuardedUpdates {
  import opened Common
  import opened EditBuffer
  import opened EditBufferState

  datatype Row = Row(cells: Record, version: string)

  type Key = seq<Value>

  /** A table by primary-key value, in primary-key column order. */
  type Rows = map<Key, Row>

  datatype Guard = VersionGuard(version: string) | PreimageGuard(columns: seq<string>, values: seq<Value>)

  datatype Update = Update(key: Key, edits: seq<CellEdit>, guard: Guard)

  datatype GridError =
    | ReadOnly | TableNotFound | NotEditable | NoRowEdits | MaskedColumn | KeyMismatch | NoColumnEdits
    | UnknownColumn(column: string) | EmptyGuard | MissingGuard | Conflict | EngineError

  function ColumnsOfEdits(edits: seq<CellEdit>): seq<string> {
    seq(|edits|, i requires 0 <= i < |edits| => edits[i].column)
  }

  // ---- one guarded update --------------------------------------------------------------------------------------

  function Overlay(cells: Record, edits: seq<CellEdit>): Record {
    if edits == [] then cells
    else Overlay(cells, edits[..|edits| - 1])[edits[|edits| - 1].column := edits[|edits| - 1].value]
  }

  predicate GuardHolds(row: Row, guard: Guard) {
    match guard
    case VersionGuard(version) => row.version == version
    case PreimageGuard(columns, values) =>
      |columns| == |values| && forall i :: 0 <= i < |columns| ==> Lookup(row.cells, columns[i]) == Some(values[i])
  }

  /** The key a row has once `edits` are in: an edited key column gives its new value. */
  function EditedKey(key: Key, primaryKey: seq<string>, edits: seq<CellEdit>): Key
    requires |key| == |primaryKey|
  {
    var byColumn := Overlay(map[], edits);
    seq(|key|, i requires 0 <= i < |key| => if primaryKey[i] in byColumn then byColumn[primaryKey[i]] else key[i])
  }

  datatype UpdateOutcome = Unmatched | Refused | Updated(rows: Rows, key: Key)

  /** `UPDATE ... WHERE key AND guard`: a NULL key value matches nothing, and the new key must be free and not NULL. */
  function GuardedUpdate(rows: Rows, primaryKey: seq<string>, u: Update, stamp: string): UpdateOutcome
    requires |u.key| == |primaryKey|
  {
    if Null in u.key || u.key !in rows || !GuardHolds(rows[u.key], u.guard) then Unmatched
    else
      var key := EditedKey(u.key, primaryKey, u.edits);
      if Null in key || (key != u.key && key in rows) then Refused
      else Updated((rows - {u.key})[key := Row(Overlay(rows[u.key].cells, u.edits), stamp)], key)
  }

  /** All updates in order, with the refreshed row of each. */
  function RunUpdates(
      rows: Rows, primaryKey: seq<string>, us: seq<Update>, stamp: string): Result<(Rows, seq<Row>), GridError>
    requires forall i :: 0 <= i < |us| ==> |us[i].key| == |primaryKey|
    decreases us
  {
    if us == [] then Ok((rows, []))
    else
      match GuardedUpdate(rows, primaryKey, us[0], stamp)
      case Unmatched => Err(Conflict)
      case Refused => Err(EngineError)
      case Updated(next, key) =>
        Prepend([next[key]], RunUpdates(next, primaryKey, us[1..], stamp))
  }

  function Prepend(updated: seq<Row>, r: Result<(Rows, seq<Row>), GridError>): Result<(Rows, seq<Row>), GridError> {
    match r
    case Err(e) => Err(e)
    case Ok(done) => Ok((done.0, updated + done.1))
  }

  lemma PrependTwice(a: seq<Row>, b: seq<Row>, r: Result<(Rows, seq<Row>), GridError>)
    ensures Prepend(a, Prepend(b, r)) == Prepend(a + b, r) && Prepend([], r) == r
  {
    if r.Ok? {
      assert a + (b + r.value.1) == (a + b) + r.value.1;
      assert [] + r.value.1 == r.value.1;
    }
  }

  // ---- edits of key columns ------------------------------------------------------------------------------------

  /** Every row is filed under the values of its own key columns. */
  ghost predicate Filed(rows: Rows, primaryKey: seq<string>) {
    forall key :: key in rows ==>
      |key| == |primaryKey| && forall i :: 0 <= i < |primaryKey| ==>
        Lookup(rows[key].cells, primaryKey[i]) == Some(key[i])
  }

  /** Each edit that no later one of the same column overrides is in the cells. */
  ghost predicate Carries(cells: Record, edits: seq<CellEdit>) {
    forall j :: 0 <= j < |edits| && (forall k :: j < k < |edits| ==> edits[k].column != edits[j].column) ==>
      Lookup(cells, edits[j].column) == Some(edits[j].value)
  }

  lemma {:induction false} OverlayIs(cells: Record, edits: seq<CellEdit>, c: string)
    ensures Lookup(Overlay(cells, edits), c) ==
            if c in Overlay(map[], edits) then Some(Overlay(map[], edits)[c]) else Lookup(cells, c)
    decreases edits
  {
    if edits != [] {
      OverlayIs(cells, edits[..|edits| - 1], c);
    }
  }

  lemma {:induction false} OverlayCarries(cells: Record, edits: seq<CellEdit>)
    ensures Carries(Overlay(cells, edits), edits)
    decreases edits
  {
    hide Carries;
    if edits == [] {
      CarriesNothing(cells);
    } else {
      var front, last := edits[..|edits| - 1], edits[|edits| - 1];
      OverlayCarries(cells, front);
      CarriesSnoc(Overlay(cells, front), front, last);
      assert front + [last] == edits;
    }
  }

  lemma CarriesNothing(cells: Record)
    ensures Carries(cells, [])
  {
  }

  lemma CarriesSnoc(cells: Record, edits: seq<CellEdit>, last: CellEdit)
    requires Carries(cells, edits)
    ensures Carries(cells[last.column := last.value], edits + [last])
  {
    var all := edits + [last];
    assert all[|edits|] == last;
    forall j | 0 <= j < |all| && (forall k :: j < k < |all| ==> all[k].column != all[j].column)
      ensures Lookup(cells[last.column := last.value], all[j].column) == Some(all[j].value)
    {
      if j < |edits| {
        assert all[|edits|].column != all[j].column;
        assert forall k :: j < k < |edits| ==> all[k] == edits[k];
      }
    }
  }

  lemma {:induction false} OverlayOthers(cells: Record, edits: seq<CellEdit>, c: string)
    requires c !in ColumnsOfEdits(edits)
    ensures Lookup(Overlay(cells, edits), c) == Lookup(cells, c)
    decreases edits
  {
    if edits != [] {
      var front := edits[..|edits| - 1];
      assert ColumnsOfEdits(edits)[|front|] == edits[|front|].column;
      assert forall j :: 0 <= j < |front| ==> ColumnsOfEdits(front)[j] == ColumnsOfEdits(edits)[j];
      OverlayOthers(cells, front, c);
    }
  }

  /** The row has its new key in its own key columns. */
  lemma EditedKeyInRow(cells: Record, key: Key, primaryKey: seq<string>, edits: seq<CellEdit>)
    requires |key| == |primaryKey|
    requires forall i :: 0 <= i < |primaryKey| ==> Lookup(cells, primaryKey[i]) == Some(key[i])
    ensures forall i :: 0 <= i < |primaryKey| ==>
              Lookup(Overlay(cells, edits), primaryKey[i]) == Some(EditedKey(key, primaryKey, edits)[i])
  {
    hide Overlay;
    forall i | 0 <= i < |primaryKey|
      ensures Lookup(Overlay(cells, edits), primaryKey[i]) == Some(EditedKey(key, primaryKey, edits)[i])
    {
      OverlayIs(cells, edits, primaryKey[i]);
    }
  }

  /** The one row moves to its new key, which no other row had, with its edits; every other row is as it was. */
  lemma UpdateMovesRow(rows: Rows, primaryKey: seq<string>, u: Update, stamp: string)
    requires |u.key| == |primaryKey| && GuardedUpdate(rows, primaryKey, u, stamp).Updated?
    ensures var after, key := GuardedUpdate(rows, primaryKey, u, stamp).rows,
                              GuardedUpdate(rows, primaryKey, u, stamp).key;
            && u.key in rows && (key in rows ==> key == u.key) && Null !in key
            && after.Keys == rows.Keys - {u.key} + {key} && |after| == |rows|
            && (forall other :: other in rows && other != u.key ==> other in after && after[other] == rows[other])
            && after[key].version == stamp && Carries(after[key].cells, u.edits)
            && (forall c :: c !in ColumnsOfEdits(u.edits) ==>
                  Lookup(after[key].cells, c) == Lookup(rows[u.key].cells, c))
            && (Filed(rows, primaryKey) ==> Filed(after, primaryKey))
  {
    hide Overlay, GuardHolds, EditedKey, Carries, ColumnsOfEdits, Filed;
    var key := GuardedUpdate(rows, primaryKey, u, stamp).key;
    var row := Row(Overlay(rows[u.key].cells, u.edits), stamp);
    OverlayCarries(rows[u.key].cells, u.edits);
    forall c | c !in ColumnsOfEdits(u.edits) ensures Lookup(row.cells, c) == Lookup(rows[u.key].cells, c) {
      OverlayOthers(rows[u.key].cells, u.edits, c);
    }
    SameSize(rows, u.key, key, row);
    if Filed(rows, primaryKey) {
      FiledAfter(rows, primaryKey, u, row);
    }
  }

  lemma FiledAfter(rows: Rows, primaryKey: seq<string>, u: Update, row: Row)
    requires |u.key| == |primaryKey| && u.key in rows && Filed(rows, primaryKey)
    requires row.cells == Overlay(rows[u.key].cells, u.edits)
    ensures Filed((rows - {u.key})[EditedKey(u.key, primaryKey, u.edits) := row], primaryKey)
  {
    hide Overlay, EditedKey;
    EditedKeyInRow(rows[u.key].cells, u.key, primaryKey, u.edits);
    EditedKeyLength(u.key, primaryKey, u.edits);
  }

  lemma EditedKeyLength(key: Key, primaryKey: seq<string>, edits: seq<CellEdit>)
    requires |key| == |primaryKey|
    ensures |EditedKey(key, primaryKey, edits)| == |primaryKey|
  {
  }

  lemma SameSize(rows: Rows, from: Key, to: Key, row: Row)
    requires from in rows && (to in rows ==> to == from)
    ensures |(rows - {from})[to := row]| == |rows|
  {
    var rest := rows - {from};
    assert rest.Keys == rows.Keys - {from} && rest[to := row].Keys == rest.Keys + {to};
    assert |rest.Keys| == |rest| && |rest[to := row].Keys| == |rest[to := row]| && |rows.Keys| == |rows|;
  }

  /** An update is refused exactly when the row would have a NULL in its key, or the key columns of another row. */
  lemma RefusedExactly(rows: Rows, primaryKey: seq<string>, u: Update, stamp: string)
    requires |u.key| == |primaryKey| && Filed(rows, primaryKey)
    requires Null !in u.key && u.key in rows && GuardHolds(rows[u.key], u.guard)
    ensures var cells := Overlay(rows[u.key].cells, u.edits);
            GuardedUpdate(rows, primaryKey, u, stamp).Refused? <==>
              || (exists i :: 0 <= i < |primaryKey| && Lookup(cells, primaryKey[i]) == Some(Null))
              || (exists other ::
                  other in rows && other != u.key && SameKeyColumns(rows[other].cells, cells, primaryKey))
  {
    hide Overlay, GuardHolds, EditedKey;
    var cells, key := Overlay(rows[u.key].cells, u.edits), EditedKey(u.key, primaryKey, u.edits);
    EditedKeyInRow(rows[u.key].cells, u.key, primaryKey, u.edits);
    EditedKeyLength(u.key, primaryKey, u.edits);
    forall other | other in rows
      ensures SameKeyColumns(rows[other].cells, cells, primaryKey) <==> other == key
    {
      assert forall i :: 0 <= i < |primaryKey| ==> Lookup(rows[other].cells, primaryKey[i]) == Some(other[i]);
      if SameKeyColumns(rows[other].cells, cells, primaryKey) {
        assert forall i :: 0 <= i < |primaryKey| ==> other[i] == key[i];
      }
    }
    if Null in key {
      var i :| 0 <= i < |key| && key[i] == Null;
      assert Lookup(cells, primaryKey[i]) == Some(Null);
    }
  }

  ghost predicate SameKeyColumns(a: Record, b: Record, primaryKey: seq<string>) {
    forall i :: 0 <= i < |primaryKey| ==> Lookup(a, primaryKey[i]) == Lookup(b, primaryKey[i])
  }

  ghost predicate OthersKept(before: Rows, after: Rows, us: seq<Update>) {
    forall key :: key in before && (forall i :: 0 <= i < |us| ==> us[i].key != key) ==>
      key in after && after[key] == before[key]
  }

  ghost predicate AllCarry(refreshed: seq<Row>, us: seq<Update>) {
    |refreshed| == |us| && forall i :: 0 <= i < |us| ==> Carries(refreshed[i].cells, us[i].edits)
  }

  /** What a batch that goes through keeps, whatever keys it edits. */
  ghost predicate KeysKept(before: Rows, after: Rows, primaryKey: seq<string>, us: seq<Update>, refreshed: seq<Row>) {
    && |after| == |before| && (Filed(before, primaryKey) ==> Filed(after, primaryKey))
    && OthersKept(before, after, us) && AllCarry(refreshed, us)
  }

  /** A batch adds, drops and merges no row, leaves the rows it does not name alone, and returns each row with its
      edits. */
  lemma {:induction false} BatchKeepsKeys(rows: Rows, primaryKey: seq<string>, us: seq<Update>, stamp: string)
    requires forall i :: 0 <= i < |us| ==> |us[i].key| == |primaryKey|
    ensures var r := RunUpdates(rows, primaryKey, us, stamp);
            r.Ok? ==> KeysKept(rows, r.value.0, primaryKey, us, r.value.1)
    decreases us
  {
    hide GuardedUpdate, Filed, Carries, KeysKept;
    if us == [] {
      NoKeysEdited(rows, primaryKey);
    } else if GuardedUpdate(rows, primaryKey, us[0], stamp).Updated? {
      var next, key := GuardedUpdate(rows, primaryKey, us[0], stamp).rows,
                       GuardedUpdate(rows, primaryKey, us[0], stamp).key;
      UpdateMovesRow(rows, primaryKey, us[0], stamp);
      BatchKeepsKeys(next, primaryKey, us[1..], stamp);
      var r := RunUpdates(next, primaryKey, us[1..], stamp);
      if r.Ok? {
        KeysKeptMore(rows, next, key, r.value.0, primaryKey, us, r.value.1);
      }
    }
  }

  lemma NoKeysEdited(rows: Rows, primaryKey: seq<string>)
    ensures KeysKept(rows, rows, primaryKey, [], [])
  {
  }

  lemma KeysKeptMore(rows: Rows, next: Rows, key: Key, after: Rows, primaryKey: seq<string>, us: seq<Update>,
                     refreshed: seq<Row>)
    requires us != [] && key in next && KeysKept(next, after, primaryKey, us[1..], refreshed)
    requires |next| == |rows| && (Filed(rows, primaryKey) ==> Filed(next, primaryKey))
    requires forall other :: other in rows && other != us[0].key ==> other in next && next[other] == rows[other]
    requires Carries(next[key].cells, us[0].edits)
    ensures KeysKept(rows, after, primaryKey, us, [next[key]] + refreshed)
  {
    hide Filed, Carries, OthersKept, AllCarry;
    OthersKeptMore(rows, next, after, us);
    AllCarryMore(next[key], refreshed, us);
  }

  lemma OthersKeptMore(rows: Rows, next: Rows, after: Rows, us: seq<Update>)
    requires us != [] && OthersKept(next, after, us[1..])
    requires forall other :: other in rows && other != us[0].key ==> other in next && next[other] == rows[other]
    ensures OthersKept(rows, after, us)
  {
    forall key | key in rows && (forall i :: 0 <= i < |us| ==> us[i].key != key)
      ensures key in after && after[key] == rows[key]
    {
      assert forall i :: 0 <= i < |us[1..]| ==> us[1..][i] == us[i + 1];
    }
  }

  lemma AllCarryMore(row: Row, refreshed: seq<Row>, us: seq<Update>)
    requires us != [] && AllCarry(refreshed, us[1..]) && Carries(row.cells, us[0].edits)
    ensures AllCarry([row] + refreshed, us)
  {
    hide Carries;
    assert forall i :: 1 <= i < |us| ==> us[i] == us[1..][i - 1];
  }
}
