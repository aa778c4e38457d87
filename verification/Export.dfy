/** Streaming a result to a file: blocks from a cursor, redacted, within the row budget. */
module Export {
  import opened Common
  import opened Csv
  import opened CursorStream
  import opened Driver
  import opened Text

  type Record = map<string, Cell>

  datatype Format = CsvFormat(delimiter: string, nullToken: Option<string>) | JsonFormat

  const MASK_TOKEN := "\U{2022}\U{2022}\U{2022}\U{2022}"

  const INSERT_BATCH_ROWS := 100

  /**
   * Every value of a masked column is replaced; a NULL stays a NULL. A masked column with an inherited name looks
   * present in every row, so it is added to rows that do not carry it.
   */
  function RedactRow(row: Record, masked: set<string>): Record {
    map column | column in row.Keys + masked * INHERITED ::
      if column in row && (column !in masked || row[column].Null?) then row[column] else Value(MASK_TOKEN)
  }

  function RedactRows(rows: seq<Record>, masked: set<string>): seq<Record> {
    seq(|rows|, i requires 0 <= i < |rows| => RedactRow(rows[i], masked))
  }

  function CellsFor(columns: seq<string>, row: Record): seq<Cell> {
    seq(|columns|, i requires 0 <= i < |columns| => if columns[i] in row then row[columns[i]] else Null)
  }

  function AllCells(columns: seq<string>, rows: seq<Record>): seq<seq<Cell>> {
    seq(|rows|, i requires 0 <= i < |rows| => CellsFor(columns, rows[i]))
  }

  function Header(columns: seq<string>): seq<Cell> {
    seq(|columns|, i requires 0 <= i < |columns| => Value(columns[i]))
  }

  function Decimal(n: nat): string {
    (if n < 10 then "" else Decimal(n / 10)) + [('0' as int + n % 10) as char]
  }

  /** What decimal digits stand for. */
  function Numeral(s: string): int {
    if s == "" then 0 else 10 * Numeral(s[..|s| - 1]) + (s[|s| - 1] as int - '0' as int)
  }

  lemma {:induction false} DecimalReads(n: nat)
    ensures Numeral(Decimal(n)) == n && Decimal(n) != ""
    ensures forall i :: 0 <= i < |Decimal(n)| ==> '0' <= Decimal(n)[i] <= '9'
    ensures n > 0 ==> Decimal(n)[0] != '0'
  {
    var s := Decimal(n);
    if n >= 10 {
      DecimalReads(n / 10);
      assert s[..|s| - 1] == Decimal(n / 10);
    } else {
      assert s[..|s| - 1] == "";
    }
  }

  function Rendered(rows: seq<Record>, json: Record -> string): seq<string> {
    seq(|rows|, i requires 0 <= i < |rows| => json(rows[i]))
  }

  /** The rows as they stand in the file, after everything written before them. */
  function Body(format: Format, columns: seq<string>, rows: seq<Record>, json: Record -> string): string {
    match format
    case CsvFormat(delimiter, nullToken) => FormatRows(AllCells(columns, rows), delimiter, nullToken)
    case JsonFormat => Join(Rendered(rows, json), ",")
  }

  function Opening(format: Format, columns: seq<string>, headed: bool): string {
    match format
    case CsvFormat(delimiter, nullToken) =>
      if headed then FormatCsvRow(Header(columns), delimiter, nullToken) + CSV_ROW_TERMINATOR else ""
    case JsonFormat => "["
  }

  function Closing(format: Format, rowCount: nat, truncated: bool): string {
    match format
    case CsvFormat(_, _) =>
      if truncated then "# truncated at " + Decimal(rowCount) + " rows" + CSV_ROW_TERMINATOR else ""
    case JsonFormat => "]"
  }

  class Writer {
    var text: string

    constructor ()
      ensures text == ""
    {
      text := "";
    }

    method Write(s: string)
      modifies this
      ensures text == old(text) + s
    {
      text := text + s;
    }
  }

  lemma {:induction false} FormatRowsSnoc(
      rows: seq<seq<Cell>>, row: seq<Cell>, delimiter: string, nullToken: Option<string>)
    ensures FormatRows(rows + [row], delimiter, nullToken)
         == FormatRows(rows, delimiter, nullToken) + (FormatCsvRow(row, delimiter, nullToken) + CSV_ROW_TERMINATOR)
  {
    hide FormatCsvRow;
    if rows == [] {
      assert (rows + [row])[1..] == [];
    } else {
      assert (rows + [row])[1..] == rows[1..] + [row];
      FormatRowsSnoc(rows[1..], row, delimiter, nullToken);
    }
  }

  lemma {:induction false} JoinSnoc(parts: seq<string>, part: string, sep: string)
    ensures Join(parts + [part], sep) == if parts == [] then part else Join(parts, sep) + sep + part
  {
    if parts != [] {
      assert (parts + [part])[1..] == parts[1..] + [part];
      JoinSnoc(parts[1..], part, sep);
    }
  }

  lemma BodySnoc(format: Format, columns: seq<string>, rows: seq<Record>, row: Record, json: Record -> string)
    ensures Body(format, columns, rows + [row], json)
         == Body(format, columns, rows, json)
            + match format
              case CsvFormat(delimiter, nullToken) =>
                FormatCsvRow(CellsFor(columns, row), delimiter, nullToken) + CSV_ROW_TERMINATOR
              case JsonFormat => (if rows == [] then "" else ",") + json(row)
  {
    hide FormatCsvRow, CellsFor, FormatRows, Join;
    match format
    case CsvFormat(delimiter, nullToken) =>
      assert AllCells(columns, rows + [row]) == AllCells(columns, rows) + [CellsFor(columns, row)];
      FormatRowsSnoc(AllCells(columns, rows), CellsFor(columns, row), delimiter, nullToken);
    case JsonFormat =>
      assert Rendered(rows + [row], json) == Rendered(rows, json) + [json(row)];
      JoinSnoc(Rendered(rows, json), json(row), ",");
      if rows == [] {
        assert Join(Rendered(rows, json), ",") == "" by { JoinNone(); }
      }
  }

  lemma JoinNone()
    ensures Join([], ",") == ""
  {
  }

  lemma AfterSnoc(
      start: string, format: Format, columns: seq<string>, rows: seq<Record>, row: Record, json: Record -> string)
    ensures start + Body(format, columns, rows + [row], json)
         == start + Body(format, columns, rows, json)
            + match format
              case CsvFormat(delimiter, nullToken) =>
                FormatCsvRow(CellsFor(columns, row), delimiter, nullToken) + CSV_ROW_TERMINATOR
              case JsonFormat => (if rows == [] then "" else ",") + json(row)
  {
    hide Body, FormatCsvRow, CellsFor;
    BodySnoc(format, columns, rows, row, json);
  }

  /** Writes one block of redacted rows after the `start` of the file and the rows `before` it. */
  method WriteRows(writer: Writer, format: Format, columns: seq<string>, json: Record -> string,
                   ghost start: string, ghost before: seq<Record>, safe: seq<Record>, rowCount: nat)
                     returns (count: nat)
    requires rowCount == |before| && writer.text == start + Body(format, columns, before, json)
    modifies writer
    ensures count == rowCount + |safe| && writer.text == start + Body(format, columns, before + safe, json)
  {
    hide Body, FormatCsvRow, CellsFor;
    count := rowCount;
    assert before + safe[..0] == before;
    for i := 0 to |safe|
      invariant count == rowCount + i && writer.text == start + Body(format, columns, before + safe[..i], json)
    {
      AfterSnoc(start, format, columns, before + safe[..i], safe[i], json);
      assert before + safe[..i + 1] == before + safe[..i] + [safe[i]];
      match format {
        case CsvFormat(delimiter, nullToken) =>
          writer.Write(FormatCsvRow(CellsFor(columns, safe[i]), delimiter, nullToken) + CSV_ROW_TERMINATOR);
        case JsonFormat =>
          writer.Write((if count > 0 then "," else "") + json(safe[i]));
      }
      count := count + 1;
    }
    assert safe[..|safe|] == safe;
  }

  lemma RedactMore(result: seq<Record>, masked: set<string>, i: nat, j: nat)
    requires i <= j <= |result|
    ensures RedactRows(result[..i], masked) + RedactRows(result[i..j], masked) == RedactRows(result[..j], masked)
  {
    hide RedactRow;
  }

  lemma RedactLength(rows: seq<Record>, masked: set<string>)
    ensures |RedactRows(rows, masked)| == |rows|
  {
  }

  lemma NoRows(format: Format, columns: seq<string>, json: Record -> string)
    ensures Body(format, columns, [], json) == ""
  {
  }

  /** The rows the budget allows, redacted, each block written before the next is fetched. */
  method StreamRows(
      writer: Writer, cursor: DriverCursor<Record>, columns: seq<string>, masked: set<string>, format: Format,
      maxRows: int, json: Record -> string)
    returns (rowCount: nat, truncated: bool)
    requires cursor.Valid() && cursor.position == 0
    modifies writer, cursor
    ensures rowCount == Min(|cursor.result|, Max(0, maxRows))
    ensures !truncated ==> rowCount == |cursor.result|
    ensures (truncated ==> rowCount >= maxRows) && (maxRows <= 0 ==> truncated)
    ensures writer.text == old(writer.text) + Opening(format, columns, maxRows > 0)
                         + Body(format, columns, RedactRows(cursor.result[..rowCount], masked), json)
                         + Closing(format, rowCount, truncated)
  {
    hide Body, FormatCsvRow, RedactRow, RedactRows, Header, Decimal;
    rowCount, truncated := 0, false;
    var headerWritten := false;
    NoRows(format, columns, json);
    assert RedactRows([], masked) == [] by { RedactMore([], masked, 0, 0); }
    if format.JsonFormat? {
      writer.Write("[");
    }
    ghost var start := old(writer.text) + Opening(format, columns, maxRows > 0);
    while true
      invariant cursor.Valid() && cursor.position == rowCount && !truncated && rowCount <= Max(0, maxRows)
      invariant format.CsvFormat? && !headerWritten ==> rowCount == 0 && writer.text == old(writer.text)
      invariant format.JsonFormat? || headerWritten ==>
                  writer.text == start + Body(format, columns, RedactRows(cursor.result[..rowCount], masked), json)
      invariant headerWritten ==> maxRows > 0
      decreases |cursor.result| - rowCount
    {
      var remaining := maxRows - rowCount;
      if remaining <= 0 {
        truncated := true;
        break;
      }
      var blockSize := Min(QUERY_PAGE_SIZE, remaining);
      var rows, complete := cursor.Fetch(blockSize);
      if !headerWritten && format.CsvFormat? {
        writer.Write(FormatCsvRow(Header(columns), format.delimiter, format.nullToken) + CSV_ROW_TERMINATOR);
        headerWritten := true;
      }
      var safeRows := RedactRows(rows, masked);
      RedactMore(cursor.result, masked, rowCount, cursor.position);
      RedactLength(rows, masked);
      RedactLength(cursor.result[..rowCount], masked);
      rowCount := WriteRows(writer, format, columns, json, start, RedactRows(cursor.result[..rowCount], masked),
                            safeRows, rowCount);
      if complete {
        break;
      }
      if rowCount >= maxRows {
        truncated := true;
        break;
      }
    }
    if format.JsonFormat? {
      writer.Write("]");
    } else if truncated {
      writer.Write("# truncated at " + Decimal(rowCount) + " rows" + CSV_ROW_TERMINATOR);
    }
  }

  /** An untruncated CSV file reads back as the header and exactly the redacted rows, in order. */
  lemma ExportReadsBack(d: char, columns: seq<string>, rows: seq<Record>)
    requires UsableDelimiter(d) && columns != []
    ensures var format, json := CsvFormat([d], None), (row: Record) => "";
            ReadRows(Opening(format, columns, true) + Body(format, columns, rows, json)
                     + Closing(format, |rows|, false), d)
            == Some([Header(columns)] + AllCells(columns, rows))
  {
    hide FormatCsvRow, ReadRows;
    var all := [Header(columns)] + AllCells(columns, rows);
    assert forall i :: 0 <= i < |all| ==> |all[i]| == |columns|;
    RowsBack(all, d);
    assert all[1..] == AllCells(columns, rows);
    assert FormatRows(all, [d], None)
        == FormatCsvRow(Header(columns), [d], None) + CSV_ROW_TERMINATOR
          + FormatRows(AllCells(columns, rows), [d], None) + "";
  }

  // ---- what the file shows ---------------------------------------------------------------------------------------

  /** A value under its column: as it is, or redacted to the mask token; NULL when it is NULL or the row lacks it. */
  predicate ShowsCell(cell: Cell, row: Record, column: string, masked: set<string>) {
    if column !in masked then cell == (if column in row then row[column] else Null)
    else if column in row && row[column].Null? then cell == Null
    else if column in row || column in INHERITED then cell == Value("\U{2022}\U{2022}\U{2022}\U{2022}")
    else cell == Null
  }

  /** The column names, then one record for each row, in order, with each value under its column. */
  predicate ShowsRows(records: seq<seq<Cell>>, columns: seq<string>, rows: seq<Record>, masked: set<string>) {
    && |records| == 1 + |rows| && (forall r :: 0 <= r < |records| ==> |records[r]| == |columns|)
    && (forall i :: 0 <= i < |columns| ==> records[0][i] == Value(columns[i]))
    && forall r, i :: 0 <= r < |rows| && 0 <= i < |columns| ==>
         ShowsCell(records[r + 1][i], rows[r], columns[i], masked)
  }

  lemma RecordsShow(columns: seq<string>, rows: seq<Record>, masked: set<string>)
    ensures ShowsRows([Header(columns)] + AllCells(columns, RedactRows(rows, masked)), columns, rows, masked)
  {
    hide RedactRow, ShowsCell;
    var records := [Header(columns)] + AllCells(columns, RedactRows(rows, masked));
    forall r, i | 0 <= r < |rows| && 0 <= i < |columns|
      ensures ShowsCell(records[r + 1][i], rows[r], columns[i], masked)
    {
      assert records[r + 1] == CellsFor(columns, RedactRow(rows[r], masked));
      CellShown(rows[r], columns[i], masked);
    }
  }

  lemma CellShown(row: Record, column: string, masked: set<string>)
    ensures var safe := RedactRow(row, masked);
            ShowsCell(if column in safe then safe[column] else Null, row, column, masked)
  {
    hide INHERITED;
  }

  /** Exports a result as CSV: read back, the file shows exactly the rows that the budget allows. */
  method ExportCsv(
      cursor: DriverCursor<Record>, columns: seq<string>, masked: set<string>, delimiter: char, maxRows: int)
    returns (text: string, rowCount: nat, truncated: bool, ghost file: string)
    requires cursor.Valid() && cursor.position == 0 && UsableDelimiter(delimiter) && columns != []
    modifies cursor
    ensures rowCount == Min(|cursor.result|, Max(0, maxRows)) && (truncated ==> rowCount >= maxRows)
    ensures !truncated ==> rowCount == |cursor.result|
    ensures text == file + if truncated then "# truncated at " + Decimal(rowCount) + " rows\r\n" else ""
    ensures maxRows > 0 ==>
              var records := ReadRows(file, delimiter);
              records.Some? && ShowsRows(records.value, columns, cursor.result[..rowCount], masked)
    ensures maxRows <= 0 ==> file == ""
  {
    hide Body, Opening, ReadRows, RedactRows, AllCells, Header, ShowsRows, Decimal;
    var writer := new Writer();
    var json: Record -> string := row => "";
    var format := CsvFormat([delimiter], None);
    rowCount, truncated := StreamRows(writer, cursor, columns, masked, format, maxRows, json);
    text := writer.text;
    ghost var rows := RedactRows(cursor.result[..rowCount], masked);
    file := Opening(format, columns, maxRows > 0) + Body(format, columns, rows, json);
    assert text == file + Closing(format, rowCount, truncated) by {
      assert "" + Opening(format, columns, maxRows > 0) == Opening(format, columns, maxRows > 0);
    }
    if maxRows > 0 {
      CsvReadsBack(delimiter, columns, rows, json);
      RecordsShow(columns, cursor.result[..rowCount], masked);
    } else {
      NothingExported(format, columns, json, masked);
      assert cursor.result[..rowCount] == [];
    }
  }

  /** Exports a result as JSON: the array of the redacted rows that the budget allows, in order. */
  method ExportJson(cursor: DriverCursor<Record>, masked: set<string>, maxRows: int, json: Record -> string)
    returns (text: string, rowCount: nat, truncated: bool, ghost objects: seq<string>)
    requires cursor.Valid() && cursor.position == 0
    modifies cursor
    ensures rowCount == Min(|cursor.result|, Max(0, maxRows)) && (truncated ==> rowCount >= maxRows)
    ensures !truncated ==> rowCount == |cursor.result|
    ensures text == "[" + Join(objects, ",") + "]" && |objects| == rowCount
    ensures forall r :: 0 <= r < rowCount ==> objects[r] == json(RedactRow(cursor.result[r], masked))
  {
    hide RedactRow, Join;
    var writer := new Writer();
    rowCount, truncated := StreamRows(writer, cursor, [], masked, JsonFormat, maxRows, json);
    text := writer.text;
    objects := Rendered(RedactRows(cursor.result[..rowCount], masked), json);
    assert "" + "[" == "[";
  }

  lemma CsvReadsBack(d: char, columns: seq<string>, rows: seq<Record>, json: Record -> string)
    requires UsableDelimiter(d) && columns != []
    ensures var format := CsvFormat([d], None);
            ReadRows(Opening(format, columns, true) + Body(format, columns, rows, json), d)
            == Some([Header(columns)] + AllCells(columns, rows))
  {
    hide ReadRows, Opening, AllCells, Header;
    var format := CsvFormat([d], None);
    ExportReadsBack(d, columns, rows);
    SameText(format, columns, rows, json);
  }

  lemma NothingExported(format: Format, columns: seq<string>, json: Record -> string, masked: set<string>)
    requires format.CsvFormat?
    ensures Opening(format, columns, false) + Body(format, columns, RedactRows([], masked), json) == ""
  {
    NoRows(format, columns, json);
    assert RedactRows([], masked) == [];
  }

  lemma SameText(format: Format, columns: seq<string>, rows: seq<Record>, json: Record -> string)
    requires format.CsvFormat?
    ensures var other := (row: Record) => "";
            Opening(format, columns, true) + Body(format, columns, rows, json)
            == Opening(format, columns, true) + Body(format, columns, rows, other) + Closing(format, |rows|, false)
  {
    hide FormatRows, AllCells, FormatCsvRow, Opening;
  }

  /** Two rows look alike in column `c` once redacted. */
  predicate LookAlike(a: Record, b: Record, masked: set<string>, c: string) {
    if c !in masked then Lookup(a, c) == Lookup(b, c)
    else
      && (Lookup(a, c) == Some(Null) <==> Lookup(b, c) == Some(Null))
      && (c in INHERITED || (c in a <==> c in b))
  }

  /** What a redacted row tells: the unmasked values, which masked ones are NULL, and which ordinary masked columns it
      has. */
  lemma RedactionHidesExactly(a: Record, b: Record, masked: set<string>)
    ensures RedactRow(a, masked) == RedactRow(b, masked) <==> forall c :: LookAlike(a, b, masked, c)
  {
    hide INHERITED;
    forall c
      ensures LookAlike(a, b, masked, c) <==> Lookup(RedactRow(a, masked), c) == Lookup(RedactRow(b, masked), c) {
    }
    if forall c :: LookAlike(a, b, masked, c) {
      SameRecord(RedactRow(a, masked), RedactRow(b, masked));
    }
  }

  lemma SameRecord(x: Record, y: Record)
    requires forall c :: Lookup(x, c) == Lookup(y, c)
    ensures x == y
  {
    assert forall c :: c in x <==> Lookup(x, c).Some?;
    assert forall c :: c in y <==> Lookup(y, c).Some?;
  }
}
