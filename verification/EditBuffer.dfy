/** Staged cell edits, kept as the difference between what was loaded and what is shown. */
module EditBuffer {
  import opened Common

  datatype Value = Null | Bool(b: bool) | Number(n: int) | Text(s: string)

  type Record = map<string, Value>

  datatype RowEditEntry = RowEditEntry(primaryKey: Record, version: Option<string>, original: Record, edits: Record)

  datatype RowIdentity = RowIdentity(primaryKey: Record, version: Option<string>)

  datatype StageCall = StageCall(rowKey: string, identity: RowIdentity, column: string, oldValue: Value,
                                 newValue: Value)

  type Buffer = map<string, RowEditEntry>

  /** A row's entry after one call of `stage`; `None` when no edit is left. */
  function StagedEntry(entry: Option<RowEditEntry>, call: StageCall): Option<RowEditEntry> {
    var captured := if entry.Some? then entry.value.original else map[];
    var pending := if entry.Some? then entry.value.edits else map[];
    var original :=
      if call.column in captured || call.column in INHERITED then captured else captured[call.column := call.oldValue];
    var back := call.column in original && call.newValue == original[call.column];
    var edits := if back then pending - {call.column} else pending[call.column := call.newValue];
    if edits == map[] then None
    else Some(RowEditEntry(call.identity.primaryKey, call.identity.version,
                           if back then original - {call.column} else original, edits))
  }

  function Staged(buffer: Buffer, call: StageCall): Buffer {
    var entry := StagedEntry(Lookup(buffer, call.rowKey), call);
    if entry.None? then buffer - {call.rowKey} else buffer[call.rowKey := entry.value]
  }

  // ---- the buffer is the difference ----------------------------------------------------------------------------

  /** A cell is addressed by row key and column. */
  type Cells = map<(string, string), Value>

  function CellOf(call: StageCall): (string, string) {
    (call.rowKey, call.column)
  }

  /** The user's view after the calls: the last value typed into each cell. */
  function Shown(loaded: Cells, calls: seq<StageCall>): Cells {
    if calls == [] then loaded
    else Shown(loaded, calls[..|calls| - 1])[CellOf(calls[|calls| - 1]) := calls[|calls| - 1].newValue]
  }

  function StagedAll(calls: seq<StageCall>): Buffer {
    if calls == [] then map[] else Staged(StagedAll(calls[..|calls| - 1]), calls[|calls| - 1])
  }

  /** Every call edits a loaded cell and passes the value that the cell shows. */
  ghost predicate FromGrid(loaded: Cells, calls: seq<StageCall>) {
    forall i :: 0 <= i < |calls| ==>
      var shown := Shown(loaded, calls[..i]);
      CellOf(calls[i]) in shown && calls[i].oldValue == shown[CellOf(calls[i])]
  }

  predicate Edited(entry: Option<RowEditEntry>, column: string) {
    entry.Some? && column in entry.value.edits
  }

  /** The row's entry holds exactly the cells of the row that differ, with both of their values. */
  ghost predicate RowDifference(entry: Option<RowEditEntry>, row: string, loaded: Cells, shown: Cells) {
    && (entry.Some? ==> entry.value.edits != map[] && entry.value.original.Keys == entry.value.edits.Keys)
    && (forall column :: Edited(entry, column) <==>
                         (row, column) in loaded && (row, column) in shown
                           && shown[(row, column)] != loaded[(row, column)])
    && (forall column :: Edited(entry, column) ==>
          entry.value.edits[column] == shown[(row, column)] && entry.value.original[column] == loaded[(row, column)])
  }

  ghost predicate Difference(buffer: Buffer, loaded: Cells, shown: Cells) {
    forall row :: RowDifference(Lookup(buffer, row), row, loaded, shown)
  }

  lemma {:induction false} ShownKeys(loaded: Cells, calls: seq<StageCall>)
    requires FromGrid(loaded, calls)
    ensures Shown(loaded, calls).Keys == loaded.Keys
    decreases calls
  {
    if calls != [] {
      GridPrefix(loaded, calls);
      ShownKeys(loaded, calls[..|calls| - 1]);
    }
  }

  lemma GridPrefix(loaded: Cells, calls: seq<StageCall>)
    requires calls != [] && FromGrid(loaded, calls)
    ensures FromGrid(loaded, calls[..|calls| - 1])
    ensures var before, call := calls[..|calls| - 1], calls[|calls| - 1];
            CellOf(call) in Shown(loaded, before) && call.oldValue == Shown(loaded, before)[CellOf(call)]
  {
    hide Shown;
    var before := calls[..|calls| - 1];
    forall i | 0 <= i < |before|
      ensures CellOf(before[i]) in Shown(loaded, before[..i])
              && before[i].oldValue == Shown(loaded, before[..i])[CellOf(before[i])]
    {
      assert before[..i] == calls[..i];
    }
  }

  /** One call keeps the difference. */
  lemma StagedDifference(buffer: Buffer, loaded: Cells, shown: Cells, call: StageCall)
    requires Difference(buffer, loaded, shown) && shown.Keys == loaded.Keys
    requires CellOf(call) in shown && call.oldValue == shown[CellOf(call)] && call.column !in INHERITED
    ensures Difference(Staged(buffer, call), loaded, shown[CellOf(call) := call.newValue])
  {
    hide RowDifference, StagedEntry, INHERITED;
    var after, shown' := Staged(buffer, call), shown[CellOf(call) := call.newValue];
    forall row ensures RowDifference(Lookup(after, row), row, loaded, shown') {
      if row == call.rowKey {
        StagedRow(Lookup(buffer, row), loaded, shown, call);
      } else {
        OtherRow(Lookup(buffer, row), row, loaded, shown, call);
      }
    }
  }

  lemma OtherRow(entry: Option<RowEditEntry>, row: string, loaded: Cells, shown: Cells, call: StageCall)
    requires RowDifference(entry, row, loaded, shown) && row != call.rowKey
    ensures RowDifference(entry, row, loaded, shown[CellOf(call) := call.newValue])
  {
  }

  lemma StagedRow(entry: Option<RowEditEntry>, loaded: Cells, shown: Cells, call: StageCall)
    requires RowDifference(entry, call.rowKey, loaded, shown) && shown.Keys == loaded.Keys
    requires CellOf(call) in shown && call.oldValue == shown[CellOf(call)] && call.column !in INHERITED
    ensures RowDifference(StagedEntry(entry, call), call.rowKey, loaded, shown[CellOf(call) := call.newValue])
  {
    hide INHERITED, StagedEntry;
    StagedAs(entry, loaded, shown, call);
    var after := StagedEntry(entry, call);
    var r, shown' := call.rowKey, shown[CellOf(call) := call.newValue];
    forall c
      ensures Edited(after, c) <==> (r, c) in loaded && (r, c) in shown' && shown'[(r, c)] != loaded[(r, c)]
      ensures Edited(after, c) ==> after.value.edits[c] == shown'[(r, c)] && after.value.original[c] == loaded[(r, c)]
    {
      assert c != call.column ==> (Edited(after, c) <==> Edited(entry, c));
    }
  }

  /** The entry after a call on an ordinary column, said column by column. */
  lemma StagedAs(entry: Option<RowEditEntry>, loaded: Cells, shown: Cells, call: StageCall)
    requires RowDifference(entry, call.rowKey, loaded, shown) && shown.Keys == loaded.Keys
    requires CellOf(call) in shown && call.oldValue == shown[CellOf(call)] && call.column !in INHERITED
    ensures var after, c0 := StagedEntry(entry, call), call.column;
            && (after.Some? ==> after.value.edits != map[] && after.value.original.Keys == after.value.edits.Keys)
            && (Edited(after, c0) <==> call.newValue != loaded[CellOf(call)])
            && (Edited(after, c0) ==>
                  after.value.edits[c0] == call.newValue && after.value.original[c0] == loaded[CellOf(call)])
            && forall c :: c != c0 ==>
                 && (Edited(after, c) <==> Edited(entry, c))
                 && (Edited(after, c) ==>
                       after.value.edits[c] == entry.value.edits[c]
                         && after.value.original[c] == entry.value.original[c])
  {
    hide INHERITED;
    var r, c0 := call.rowKey, call.column;
    assert Edited(entry, c0) <==> shown[(r, c0)] != loaded[(r, c0)];
    var pending: Record := if entry.Some? then entry.value.edits else map[];
    var captured: Record := if entry.Some? then entry.value.original else map[];
    assert captured.Keys == pending.Keys && forall c :: c in pending <==> Edited(entry, c);
    var original := if c0 in captured then captured else captured[c0 := call.oldValue];
    assert original[c0] == loaded[(r, c0)];
    hide RowDifference;
    assert forall c :: c in pending - {c0} <==> c != c0 && c in pending;
  }

  /** After any calls from the grid, the buffer is exactly the difference between the loaded and the shown cells. */
  lemma {:induction false} BufferIsDifference(loaded: Cells, calls: seq<StageCall>)
    requires FromGrid(loaded, calls) && forall i :: 0 <= i < |calls| ==> calls[i].column !in INHERITED
    ensures Difference(StagedAll(calls), loaded, Shown(loaded, calls))
    decreases calls
  {
    if calls != [] {
      var before, call := calls[..|calls| - 1], calls[|calls| - 1];
      GridPrefix(loaded, calls);
      BufferIsDifference(loaded, before);
      ShownKeys(loaded, before);
      hide Difference, Staged;
      StagedDifference(StagedAll(before), loaded, Shown(loaded, before), call);
    }
  }

  // ---- when the captured values are complete ---------------------------------------------------------------------

  /** Every edited column has its loaded value captured. */
  ghost predicate Captured(buffer: Buffer) {
    forall row :: row in buffer ==> buffer[row].original.Keys == buffer[row].edits.Keys
  }

  /** The captured values are complete exactly when no column that was ever staged carries an inherited name. */
  lemma {:induction false} CapturedExactly(calls: seq<StageCall>)
    ensures Captured(StagedAll(calls)) <==> forall i :: 0 <= i < |calls| ==> calls[i].column !in INHERITED
  {
    hide INHERITED, StagedAll;
    var buffer := StagedAll(calls);
    OwnColumns(calls);
    if i :| 0 <= i < |calls| && calls[i].column in INHERITED {
      var row, c := calls[i].rowKey, calls[i].column;
      InheritedStays(calls, i);
      assert row in buffer && c in buffer[row].edits && c !in buffer[row].original;
    }
  }

  /** Of the edited columns, the captured ones are those whose name is not inherited; every edit was staged. */
  ghost predicate OwnEntry(entry: RowEditEntry, calls: seq<StageCall>) {
    && entry.edits != map[]
    && entry.original.Keys == entry.edits.Keys - INHERITED
    && forall c :: c in entry.edits ==> exists i :: 0 <= i < |calls| && calls[i].column == c
  }

  lemma {:induction false} OwnColumns(calls: seq<StageCall>)
    ensures forall row :: row in StagedAll(calls) ==> OwnEntry(StagedAll(calls)[row], calls)
    decreases calls
  {
    if calls != [] {
      hide StagedEntry, OwnEntry;
      var before, call := calls[..|calls| - 1], calls[|calls| - 1];
      OwnColumns(before);
      assert calls == before + [call];
      forall row | row in StagedAll(calls) ensures OwnEntry(StagedAll(calls)[row], calls) {
        if row == call.rowKey {
          OwnStep(Lookup(StagedAll(before), row), before, call);
        } else {
          OwnMore(StagedAll(before)[row], before, call);
        }
      }
    }
  }

  lemma OwnMore(entry: RowEditEntry, before: seq<StageCall>, call: StageCall)
    requires OwnEntry(entry, before)
    ensures OwnEntry(entry, before + [call])
  {
    hide INHERITED;
    forall c | c in entry.edits ensures exists i :: 0 <= i < |before + [call]| && (before + [call])[i].column == c {
      var i :| 0 <= i < |before| && before[i].column == c;
      assert (before + [call])[i].column == c;
    }
  }

  lemma OwnStep(entry: Option<RowEditEntry>, before: seq<StageCall>, call: StageCall)
    requires entry.Some? ==> OwnEntry(entry.value, before)
    requires StagedEntry(entry, call).Some?
    ensures OwnEntry(StagedEntry(entry, call).value, before + [call])
  {
    hide INHERITED;
    var after := StagedEntry(entry, call).value;
    assert (before + [call])[|before|].column == call.column;
    if entry.Some? {
      OwnMore(entry.value, before, call);
    }
    assert after.original.Keys == after.edits.Keys - INHERITED;
  }

  /** An edit under an inherited name is never withdrawn. */
  lemma {:induction false} InheritedStays(calls: seq<StageCall>, i: nat)
    requires i < |calls| && calls[i].column in INHERITED
    ensures Edited(Lookup(StagedAll(calls), calls[i].rowKey), calls[i].column)
    decreases calls
  {
    var before, call := calls[..|calls| - 1], calls[|calls| - 1];
    OwnColumns(before);
    hide INHERITED, StagedEntry, OwnEntry, Edited;
    var row := calls[i].rowKey;
    var entry := Lookup(StagedAll(before), row);
    if i < |calls| - 1 {
      InheritedStays(before, i);
    }
    if row == call.rowKey {
      InheritedStep(entry, before, call, calls[i].column);
    }
  }

  lemma InheritedStep(entry: Option<RowEditEntry>, before: seq<StageCall>, call: StageCall, column: string)
    requires entry.Some? ==> OwnEntry(entry.value, before)
    requires column in INHERITED && (Edited(entry, column) || column == call.column)
    ensures Edited(StagedEntry(entry, call), column)
  {
    hide INHERITED;
    var captured: Record := if entry.Some? then entry.value.original else map[];
    var pending: Record := if entry.Some? then entry.value.edits else map[];
    assert column !in captured;
    var withdrawn, typed := pending - {call.column}, pending[call.column := call.newValue];
    assert column in typed && (column != call.column ==> column in withdrawn);
  }

  /** After any calls from the grid the buffer is the difference exactly when no staged column carries an inherited
      name. */
  lemma DifferenceExactly(loaded: Cells, calls: seq<StageCall>)
    requires FromGrid(loaded, calls)
    ensures Difference(StagedAll(calls), loaded, Shown(loaded, calls))
            <==> forall i :: 0 <= i < |calls| ==> calls[i].column !in INHERITED
  {
    hide INHERITED, StagedAll, Shown;
    if forall i :: 0 <= i < |calls| ==> calls[i].column !in INHERITED {
      BufferIsDifference(loaded, calls);
    }
    if Difference(StagedAll(calls), loaded, Shown(loaded, calls)) {
      CapturedExactly(calls);
      forall row | row in StagedAll(calls)
        ensures StagedAll(calls)[row].original.Keys == StagedAll(calls)[row].edits.Keys {
        assert RowDifference(Lookup(StagedAll(calls), row), row, loaded, Shown(loaded, calls));
      }
    }
  }
}
