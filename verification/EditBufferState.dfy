/** The hook that holds the buffer, and the request body built from it. */
module EditBufferState {
  import opened Common
  import opened EditBuffer

  datatype RowConcurrency = Token | Preimage

  datatype CellEdit = CellEdit(column: string, value: Value)

  datatype BulkRowEdit = BulkRowEdit(primaryKey: Record, edits: seq<CellEdit>, version: Option<string>,
                                     expected: Option<Record>)

  /** `es` lists the record, each column once, in some order. */
  ghost predicate Lists(es: seq<CellEdit>, m: Record) {
    && (forall i, j :: 0 <= i < j < |es| ==> es[i].column != es[j].column)
    && (forall i :: 0 <= i < |es| ==> es[i].column in m && m[es[i].column] == es[i].value)
    && (forall c :: c in m ==> exists i :: 0 <= i < |es| && es[i].column == c)
  }

  /** The captured values of the edited columns; a value that was never captured does not survive serialisation. */
  function ExpectedOf(entry: RowEditEntry): Record {
    map c | c in entry.edits && c in entry.original :: entry.original[c]
  }

  ghost predicate IsRowEdit(entry: RowEditEntry, concurrency: RowConcurrency, row: BulkRowEdit) {
    && row.primaryKey == entry.primaryKey
    && Lists(row.edits, entry.edits)
    && row.version == (if concurrency.Token? then entry.version else None)
    && row.expected == (if concurrency.Token? then None else Some(ExpectedOf(entry)))
  }

  /** `body` has one row edit for each row of the buffer; `rowKeys` says which. */
  ghost predicate IsBody(buffer: Buffer, concurrency: RowConcurrency, rowKeys: seq<string>, body: seq<BulkRowEdit>) {
    && |rowKeys| == |body|
    && (forall i, j :: 0 <= i < j < |rowKeys| ==> rowKeys[i] != rowKeys[j])
    && (forall row :: row in buffer <==> row in rowKeys)
    && (forall i :: 0 <= i < |body| ==> rowKeys[i] in buffer && IsRowEdit(buffer[rowKeys[i]], concurrency, body[i]))
  }

  /** Lists a record's entries, as `Object.entries` does. */
  method EntriesOf(m: Record) returns (es: seq<CellEdit>)
    ensures Lists(es, m)
  {
    hide Lists;
    es := [];
    NothingListed();
    var left := m.Keys;
    while left != {}
      invariant left <= m.Keys
      invariant Lists(es, map c | c in m && c !in left :: m[c])
      decreases left
    {
      var column :| column in left;
      ghost var done := map c | c in m && c !in left :: m[c];
      ListsMore(es, done, column, m[column]);
      es := es + [CellEdit(column, m[column])];
      left := left - {column};
      assert (map c | c in m && c !in left :: m[c]) == done[column := m[column]];
    }
    assert (map c | c in m && c !in left :: m[c]) == m;
  }

  lemma NothingListed()
    ensures Lists([], map[])
  {
  }

  method BuildRowEdit(entry: RowEditEntry, concurrency: RowConcurrency) returns (row: BulkRowEdit)
    ensures IsRowEdit(entry, concurrency, row)
  {
    hide Lists;
    var edits := EntriesOf(entry.edits);
    if concurrency.Token? {
      return BulkRowEdit(entry.primaryKey, edits, entry.version, None);
    }
    var expected: Record := map[];
    var left := entry.edits.Keys;
    while left != {}
      invariant left <= entry.edits.Keys
      invariant expected == map c | c in entry.edits && c !in left && c in entry.original :: entry.original[c]
      decreases left
    {
      var column :| column in left;
      if column in entry.original {
        expected := expected[column := entry.original[column]];
      }
      left := left - {column};
    }
    assert expected == ExpectedOf(entry);
    return BulkRowEdit(entry.primaryKey, edits, None, Some(expected));
  }

  lemma ListsMore(es: seq<CellEdit>, m: Record, column: string, value: Value)
    requires Lists(es, m) && column !in m
    ensures Lists(es + [CellEdit(column, value)], m[column := value])
  {
    var more := es + [CellEdit(column, value)];
    assert more[|es|].column == column;
    forall c | c in m ensures exists i :: 0 <= i < |more| && more[i].column == c {
      var i :| 0 <= i < |es| && es[i].column == c;
      assert more[i].column == c;
    }
  }

  function EditedCells(buffer: Buffer): set<(string, string)> {
    set row, column | row in buffer && column in buffer[row].edits :: (row, column)
  }

  /** The dirty cells of a difference are the loaded cells that show something else. */
  lemma DirtyAreDiffering(buffer: Buffer, loaded: Cells, shown: Cells)
    requires Difference(buffer, loaded, shown) && shown.Keys == loaded.Keys
    ensures EditedCells(buffer) == set cell | cell in loaded && shown[cell] != loaded[cell]
  {
    forall row, column
      ensures (row, column) in EditedCells(buffer)
              <==> (row, column) in loaded && shown[(row, column)] != loaded[(row, column)]
    {
      assert RowDifference(Lookup(buffer, row), row, loaded, shown);
      assert Edited(Lookup(buffer, row), column) <==> (row, column) in EditedCells(buffer);
    }
    forall cell ensures cell in EditedCells(buffer) <==> cell in loaded && shown[cell] != loaded[cell] {
      assert cell == (cell.0, cell.1);
    }
  }

  lemma {:induction false} RowCount(row: string, columns: set<string>)
    ensures |set column | column in columns :: (row, column)| == |columns|
    decreases columns
  {
    if columns != {} {
      var c :| c in columns;
      RowCount(row, columns - {c});
      assert (set column | column in columns :: (row, column))
             == (set column | column in columns - {c} :: (row, column)) + {(row, c)};
    }
  }

  class EditBufferHook {
    var buffer: Buffer

    constructor ()
      ensures buffer == map[]
    {
      buffer := map[];
    }

    method Stage(rowKey: string, identity: RowIdentity, column: string, oldValue: Value, newValue: Value)
      modifies this
      ensures buffer == Staged(old(buffer), StageCall(rowKey, identity, column, oldValue, newValue))
    {
      var original: Record, edits: Record := map[], map[];
      if rowKey in buffer {
        original, edits := buffer[rowKey].original, buffer[rowKey].edits;
      }
      if column !in original && column !in INHERITED {
        original := original[column := oldValue];
      }
      if column in original && newValue == original[column] {
        edits := edits - {column};
        original := original - {column};
      } else {
        edits := edits[column := newValue];
      }
      if edits == map[] {
        buffer := buffer - {rowKey};
        return;
      }
      buffer := buffer[rowKey := RowEditEntry(identity.primaryKey, identity.version, original, edits)];
    }

    method Clear()
      modifies this
      ensures buffer == map[]
    {
      buffer := map[];
    }

    method DirtyCells() returns (sum: nat)
      ensures sum == |EditedCells(buffer)|
    {
      sum := 0;
      var left := buffer.Keys;
      while left != {}
        invariant left <= buffer.Keys
        invariant sum == |EditedCells(map row | row in buffer && row !in left :: buffer[row])|
        decreases left
      {
        var rowKey :| rowKey in left;
        ghost var done := map row | row in buffer && row !in left :: buffer[row];
        ghost var here := set column | column in buffer[rowKey].edits :: (rowKey, column);
        RowCount(rowKey, buffer[rowKey].edits.Keys);
        assert here == set column | column in buffer[rowKey].edits.Keys :: (rowKey, column);
        sum := sum + |buffer[rowKey].edits|;
        left := left - {rowKey};
        assert (map row | row in buffer && row !in left :: buffer[row]) == done[rowKey := buffer[rowKey]];
        assert EditedCells(done[rowKey := buffer[rowKey]]) == EditedCells(done) + here;
        assert EditedCells(done) !! here;
      }
      assert (map row | row in buffer && row !in left :: buffer[row]) == buffer;
    }

    method BuildBody(concurrency: RowConcurrency) returns (body: seq<BulkRowEdit>)
      ensures |body| == |buffer| && exists rowKeys :: IsBody(buffer, concurrency, rowKeys, body)
    {
      ghost var rowKeys: seq<string> := [];
      body := [];
      var left := buffer.Keys;
      assert |left| == |buffer|;
      while left != {}
        invariant left <= buffer.Keys
        invariant |body| + |left| == |buffer|
        invariant IsBody(map row | row in buffer && row !in left :: buffer[row], concurrency, rowKeys, body)
        decreases left
      {
        var rowKey :| rowKey in left;
        ghost var done := map row | row in buffer && row !in left :: buffer[row];
        var rowEdit := BuildRowEdit(buffer[rowKey], concurrency);
        BodyMore(done, concurrency, rowKeys, body, rowKey, buffer[rowKey], rowEdit);
        body := body + [rowEdit];
        rowKeys := rowKeys + [rowKey];
        left := left - {rowKey};
        assert (map row | row in buffer && row !in left :: buffer[row]) == done[rowKey := buffer[rowKey]];
      }
      assert (map row | row in buffer && row !in left :: buffer[row]) == buffer;
    }
  }

  lemma BodyMore(buffer: Buffer, concurrency: RowConcurrency, rowKeys: seq<string>, body: seq<BulkRowEdit>,
                 rowKey: string, entry: RowEditEntry, row: BulkRowEdit)
    requires IsBody(buffer, concurrency, rowKeys, body) && rowKey !in buffer && IsRowEdit(entry, concurrency, row)
    ensures IsBody(buffer[rowKey := entry], concurrency, rowKeys + [rowKey], body + [row])
  {
    hide IsRowEdit;
  }
}
