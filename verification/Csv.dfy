/** Writing CSV records, and reading them back by section 2 of RFC 4180. */
module Csv {
  import opened Common
  import opened Text

  const CSV_ROW_TERMINATOR := "\r\n"

  /** A value to write: SQL NULL, or what the value looks like as text. */
  datatype Cell = Null | Value(text: string)

  function Doubled(s: string): string {
    if s == "" then "" else (if s[0] == '"' then "\"\"" else s[..1]) + Doubled(s[1..])
  }

  predicate MustQuote(text: string, delimiter: string) {
    IndexOf(text, delimiter, 0).Some? || '"' in text || '\n' in text || '\r' in text
  }

  function EscapeField(text: string, delimiter: string): string {
    if MustQuote(text, delimiter) then "\"" + Doubled(text) + "\"" else Doubled(text)
  }

  /** A NULL is written as `nullToken`, by default an empty unquoted field; the empty string is a quoted empty field. */
  function CsvEscape(cell: Cell, delimiter: string, nullToken: Option<string>): string {
    match cell
    case Null => if nullToken.None? then "" else EscapeField(nullToken.value, delimiter)
    case Value(text) => if text == "" then "\"\"" else EscapeField(text, delimiter)
  }

  function Escaped(cells: seq<Cell>, delimiter: string, nullToken: Option<string>): seq<string> {
    if cells == [] then [] else [CsvEscape(cells[0], delimiter, nullToken)] + Escaped(cells[1..], delimiter, nullToken)
  }

  function FormatCsvRow(cells: seq<Cell>, delimiter: string, nullToken: Option<string>): string {
    Join(Escaped(cells, delimiter, nullToken), delimiter)
  }

  /** Records one after the other, each with its terminator. */
  function FormatRows(rows: seq<seq<Cell>>, delimiter: string, nullToken: Option<string>): string {
    if rows == [] then ""
    else FormatCsvRow(rows[0], delimiter, nullToken) + CSV_ROW_TERMINATOR + FormatRows(rows[1..], delimiter, nullToken)
  }

  // The reader of RFC 4180, section 2, for a one-character delimiter.

  datatype Field = Field(quoted: bool, text: string)

  /** The rest of an escaped field after its opening quote, and what follows the closing one. */
  function ParseQuoted(s: string): (r: Option<(string, string)>)
    ensures r.Some? ==> |r.value.1| < |s|
  {
    if s == "" then None
    else if s[0] != '"' then
      var r := ParseQuoted(s[1..]);
      if r.None? then None else Some((s[..1] + r.value.0, r.value.1))
    else if |s| > 1 && s[1] == '"' then
      var r := ParseQuoted(s[2..]);
      if r.None? then None else Some(("\"" + r.value.0, r.value.1))
    else Some(("", s[1..]))
  }

  predicate IsTextData(c: char, d: char) {
    c != d && c != '"' && c != '\r' && c != '\n'
  }

  function TextLength(s: string, d: char): (n: nat)
    ensures n <= |s|
  {
    if s == "" || !IsTextData(s[0], d) then 0 else 1 + TextLength(s[1..], d)
  }

  function ParseField(s: string, d: char): (r: Option<(Field, string)>)
    ensures r.Some? ==> |r.value.1| <= |s|
  {
    if s != "" && s[0] == '"' then
      var r := ParseQuoted(s[1..]);
      if r.None? then None else Some((Field(true, r.value.0), r.value.1))
    else
      var n := TextLength(s, d);
      Some((Field(false, s[..n]), s[n..]))
  }

  function ParseRecord(s: string, d: char): (r: Option<(seq<Field>, string)>)
    ensures r.Some? ==> |r.value.1| <= |s|
    decreases |s|
  {
    var f := ParseField(s, d);
    if f.None? then None
    else
      var rest := f.value.1;
      if rest == "" || rest[0] != d then Some(([f.value.0], rest))
      else
        var more := ParseRecord(rest[1..], d);
        if more.None? then None else Some(([f.value.0] + more.value.0, more.value.1))
  }

  function ParseFile(s: string, d: char): Option<seq<seq<Field>>>
    decreases |s|
  {
    if s == "" then Some([])
    else
      var r := ParseRecord(s, d);
      if r.None? then None
      else if r.value.1 == "" then Some([r.value.0])
      else if |r.value.1| >= 2 && r.value.1[..2] == "\r\n" then
        var more := ParseFile(r.value.1[2..], d);
        if more.None? then None else Some([r.value.0] + more.value)
      else None
  }

  /** A field that is empty and not quoted is a NULL. */
  function CellOf(f: Field): Cell {
    if !f.quoted && f.text == "" then Null else Value(f.text)
  }

  function CellsOf(fields: seq<Field>): (cells: seq<Cell>)
    ensures |cells| == |fields|
  {
    seq(|fields|, i requires 0 <= i < |fields| => CellOf(fields[i]))
  }

  function ReadRows(s: string, d: char): Option<seq<seq<Cell>>> {
    var file := ParseFile(s, d);
    if file.None? then None
    else Some(seq(|file.value|, i requires 0 <= i < |file.value| => CellsOf(file.value[i])))
  }

  lemma {:induction false} QuotedBack(t: string, rest: string)
    requires rest != "" ==> rest[0] != '"'
    ensures ParseQuoted(Doubled(t) + "\"" + rest) == Some((t, rest))
  {
    var s := Doubled(t) + "\"" + rest;
    if t == "" {
      assert s[1..] == rest;
    } else {
      QuotedBack(t[1..], rest);
      var tail := Doubled(t[1..]) + "\"" + rest;
      assert t == t[..1] + t[1..] && t[..1] == [t[0]];
      if t[0] == '"' {
        assert s == "\"\"" + tail;
        QuoteStep(tail);
      } else {
        assert s == t[..1] + tail;
        PlainStep(t[0], tail);
      }
    }
  }

  lemma QuoteStep(tail: string)
    ensures var r := ParseQuoted(tail);
            ParseQuoted("\"\"" + tail) == if r.None? then None else Some(("\"" + r.value.0, r.value.1))
  {
    assert ("\"\"" + tail)[2..] == tail;
  }

  lemma PlainStep(c: char, tail: string)
    requires c != '"'
    ensures var r := ParseQuoted(tail);
            ParseQuoted([c] + tail) == if r.None? then None else Some(([c] + r.value.0, r.value.1))
  {
    assert ([c] + tail)[1..] == tail && ([c] + tail)[..1] == [c];
  }

  lemma {:induction false} PlainBack(t: string, rest: string, d: char)
    requires forall i :: 0 <= i < |t| ==> IsTextData(t[i], d)
    requires rest != "" ==> !IsTextData(rest[0], d)
    ensures Doubled(t) == t && TextLength(t + rest, d) == |t|
  {
    if t == "" {
      assert t + rest == rest;
    } else {
      PlainBack(t[1..], rest, d);
      assert (t + rest)[1..] == t[1..] + rest;
      assert t == t[..1] + t[1..];
    }
  }

  /** What may follow a field: the end, the delimiter or a record end. */
  predicate Ends(rest: string, d: char) {
    rest == "" || rest[0] == d || rest[0] == '\r'
  }

  predicate UsableDelimiter(d: char) {
    d != '"' && d != '\r'
  }

  lemma UnquotedIsText(text: string, d: char)
    ensures !MustQuote(text, [d]) <==> forall i :: 0 <= i < |text| ==> IsTextData(text[i], d)
  {
    if !MustQuote(text, [d]) {
      forall i | 0 <= i < |text|
        ensures IsTextData(text[i], d)
      {
        assert !OccursAt(text, [d], i);
        assert text[i..i + 1] == [text[i]];
      }
    } else if IndexOf(text, [d], 0).Some? {
      var k := IndexOf(text, [d], 0).value;
      assert text[k..k + 1] == [text[k]];
    }
  }

  /** A field read back: its text, and whether it is NULL. */
  lemma FieldBack(cell: Cell, rest: string, d: char)
    requires UsableDelimiter(d) && Ends(rest, d)
    ensures var r := ParseField(CsvEscape(cell, [d], None) + rest, d);
            r.Some? && CellOf(r.value.0) == cell && r.value.1 == rest
  {
    hide MustQuote, ParseQuoted, TextLength, Doubled, IndexOf;
    if cell.Null? {
      PlainBack("", rest, d);
      assert "" + rest == rest;
    } else {
      var t := cell.text;
      UnquotedIsText(t, d);
      if t == "" || MustQuote(t, [d]) {
        var s := "\"" + Doubled(t) + "\"" + rest;
        assert Doubled("") == "" by { PlainBack("", "", d); }
        assert s[1..] == Doubled(t) + "\"" + rest;
        QuotedBack(t, rest);
        assert CsvEscape(cell, [d], None) + rest == s;
      } else {
        PlainBack(t, rest, d);
        var s := t + rest;
        assert s[0] == t[0] && IsTextData(t[0], d);
        assert s[..|t|] == t && s[|t|..] == rest;
      }
    }
  }

  lemma {:induction false} RecordBack(cells: seq<Cell>, rest: string, d: char)
    requires UsableDelimiter(d) && cells != [] && (rest == "" || rest[0] == '\r')
    ensures var r := ParseRecord(FormatCsvRow(cells, [d], None) + rest, d);
            r.Some? && CellsOf(r.value.0) == cells && r.value.1 == rest
    decreases |cells|
  {
    hide CsvEscape, ParseField, CellOf, CellsOf, FormatCsvRow;
    var first := CsvEscape(cells[0], [d], None);
    if |cells| == 1 {
      RowOfOne(cells, [d], None);
      FieldBack(cells[0], rest, d);
      CellsCons(ParseField(first + rest, d).value.0, []);
      assert cells == [cells[0]] + [];
    } else {
      var tail := FormatCsvRow(cells[1..], [d], None) + rest;
      RowSplits(cells, [d], None);
      assert FormatCsvRow(cells, [d], None) + rest == first + ([d] + tail);
      FieldBack(cells[0], [d] + tail, d);
      assert ([d] + tail)[1..] == tail;
      RecordBack(cells[1..], rest, d);
      CellsCons(ParseField(first + ([d] + tail), d).value.0, ParseRecord(tail, d).value.0);
      assert cells == [cells[0]] + cells[1..];
    }
  }

  lemma CellsCons(f: Field, fields: seq<Field>)
    ensures CellsOf([f]) == [CellOf(f)] && CellsOf([f] + fields) == [CellOf(f)] + CellsOf(fields)
  {
    hide CellOf;
  }

  lemma RowOfOne(cells: seq<Cell>, delimiter: string, nullToken: Option<string>)
    requires |cells| == 1
    ensures FormatCsvRow(cells, delimiter, nullToken) == CsvEscape(cells[0], delimiter, nullToken)
  {
    hide CsvEscape;
    assert Escaped(cells[1..], delimiter, nullToken) == [];
  }

  lemma RowSplits(cells: seq<Cell>, delimiter: string, nullToken: Option<string>)
    requires |cells| > 1
    ensures FormatCsvRow(cells, delimiter, nullToken)
         == CsvEscape(cells[0], delimiter, nullToken) + delimiter + FormatCsvRow(cells[1..], delimiter, nullToken)
  {
    hide CsvEscape;
    var parts := Escaped(cells, delimiter, nullToken);
    assert parts[1..] == Escaped(cells[1..], delimiter, nullToken);
    assert Escaped(cells[1..], delimiter, nullToken) != [];
  }

  /** Every record written is read back, in order, with NULL and the empty string kept apart. */
  lemma {:induction false} RowsBack(rows: seq<seq<Cell>>, d: char)
    requires UsableDelimiter(d) && forall i :: 0 <= i < |rows| ==> rows[i] != []
    ensures ReadRows(FormatRows(rows, [d], None), d) == Some(rows)
    decreases |rows|
  {
    hide FormatCsvRow, ParseRecord, CellsOf, ReadRows;
    if rows == [] {
      NoRowsBack(d);
    } else {
      var rest := FormatRows(rows[1..], [d], None);
      RowsBack(rows[1..], d);
      RecordBack(rows[0], CSV_ROW_TERMINATOR + rest, d);
      FirstRowBack(FormatCsvRow(rows[0], [d], None), rest, rows, d);
    }
  }

  lemma NoRowsBack(d: char)
    ensures ReadRows("", d) == Some([])
  {
    assert |ReadRows("", d).value| == 0;
  }

  /** One record read, the others follow. */
  lemma FirstRowBack(line: string, rest: string, rows: seq<seq<Cell>>, d: char)
    requires rows != [] && ReadRows(rest, d) == Some(rows[1..])
    requires var r := ParseRecord(line + (CSV_ROW_TERMINATOR + rest), d);
             r.Some? && CellsOf(r.value.0) == rows[0] && r.value.1 == CSV_ROW_TERMINATOR + rest
    ensures ReadRows(line + CSV_ROW_TERMINATOR + rest, d) == Some(rows)
  {
    hide ParseRecord, CellsOf;
    var s, end := line + CSV_ROW_TERMINATOR + rest, CSV_ROW_TERMINATOR + rest;
    assert s == line + end && s != "" && end != "" && |end| >= 2 && end[..2] == CSV_ROW_TERMINATOR && end[2..] == rest;
    var first, more := ParseRecord(s, d).value.0, ParseFile(rest, d);
    assert ParseFile(s, d) == Some([first] + more.value);
    assert ReadRows(s, d).value == [rows[0]] + rows[1..];
    assert rows == [rows[0]] + rows[1..];
  }

  /** Reading back what was written works for all records exactly when the delimiter is neither a quote nor a CR. */
  lemma DelimiterExactly(d: char)
    ensures (forall rows: seq<seq<Cell>> :: (forall i :: 0 <= i < |rows| ==> rows[i] != []) ==>
               ReadRows(FormatRows(rows, [d], None), d) == Some(rows))
            <==> UsableDelimiter(d)
  {
    hide FormatRows, ReadRows;
    if UsableDelimiter(d) {
      forall rows: seq<seq<Cell>> | forall i :: 0 <= i < |rows| ==> rows[i] != []
        ensures ReadRows(FormatRows(rows, [d], None), d) == Some(rows)
      {
        RowsBack(rows, d);
      }
    } else {
      var rows := [[Null, Null]];
      TwoNulls(d);
      assert ReadRows(FormatRows(rows, [d], None), d) != Some(rows);
    }
  }

  lemma TwoNulls(d: char)
    requires !UsableDelimiter(d)
    ensures ReadRows(FormatRows([[Null, Null]], [d], None), d) == None
  {
    hide ParseRecord, FormatCsvRow;
    TwoNullsText(d);
    if d == '"' {
      QuoteOpensField();
    } else {
      EmptyFieldAtEnd(d, "\n");
      EmptyFieldThenDelimiter(d, "\n");
      assert [d] + "\n" == "\r\n";
      EmptyFieldThenDelimiter(d, "\r\n");
    }
  }

  lemma TwoNullsText(d: char)
    ensures FormatRows([[Null, Null]], [d], None) == [d] + "\r\n"
  {
    var cells: seq<Cell> := [Null, Null];
    RowSplits(cells, [d], None);
    RowOfOne(cells[1..], [d], None);
    assert FormatCsvRow(cells, [d], None) == [d];
    hide FormatCsvRow;
    assert |[cells][1..]| == 0;
    assert FormatRows([cells], [d], None) == [d] + CSV_ROW_TERMINATOR + FormatRows([], [d], None);
  }

  /** A quote as delimiter opens a field that never closes. */
  lemma QuoteOpensField()
    ensures ParseRecord(['"'] + "\r\n", '"') == None
  {
    var s := ['"'] + "\r\n";
    assert s[1..] == "\r\n" && "\r\n"[1..] == "\n" && "\n"[1..] == "";
    assert ParseQuoted("\n") == None;
    assert ParseQuoted(s[1..]) == None;
  }

  lemma EmptyFieldAtEnd(d: char, s: string)
    requires s != "" && s[0] != d && s[0] == '\n'
    ensures ParseRecord(s, d) == Some(([Field(false, "")], s))
  {
    assert ParseField(s, d) == Some((Field(false, ""), s));
  }

  /** A CR as delimiter takes the first half of the record end. */
  lemma EmptyFieldThenDelimiter(d: char, rest: string)
    requires d == '\r' && ParseRecord(rest, d).Some?
    ensures ParseRecord([d] + rest, d) ==
            Some(([Field(false, "")] + ParseRecord(rest, d).value.0, ParseRecord(rest, d).value.1))
  {
    var s := [d] + rest;
    assert s[1..] == rest;
    assert ParseField(s, d) == Some((Field(false, ""), s));
  }

  /** Cells are told apart in the output exactly when no visible token stands for NULL. */
  lemma NullTokenExactly(d: char, nullToken: Option<string>)
    requires UsableDelimiter(d)
    ensures (forall a, b :: CsvEscape(a, [d], nullToken) == CsvEscape(b, [d], nullToken) ==> a == b)
            <==> nullToken.None? || nullToken == Some("")
  {
    hide MustQuote, ParseField;
    if nullToken.None? || nullToken == Some("") {
      EmptyToken(d);
      forall a, b | CsvEscape(a, [d], nullToken) == CsvEscape(b, [d], nullToken)
        ensures a == b
      {
        assert CsvEscape(a, [d], nullToken) == CsvEscape(a, [d], None);
        FieldBack(a, "", d);
        FieldBack(b, "", d);
      }
    } else {
      assert CsvEscape(Null, [d], nullToken) == CsvEscape(Value(nullToken.value), [d], nullToken);
    }
  }

  lemma EmptyToken(d: char)
    ensures EscapeField("", [d]) == ""
  {
    assert IndexOf("", [d], 0).None?;
  }

  lemma {:induction false} NothingDoubled(s: string)
    requires '"' !in s
    ensures Doubled(s) == s
  {
    if s != "" {
      NothingDoubled(s[1..]);
      assert s == s[..1] + s[1..];
    }
  }

  /** A visible token for NULL is written as its text would be; without one, NULL is nothing at all. */
  lemma NullAsToken(token: string, delimiter: string)
    requires token != ""
    ensures CsvEscape(Null, delimiter, Some(token)) == CsvEscape(Value(token), delimiter, None)
    ensures CsvEscape(Null, delimiter, None) == ""
  {
  }

  /** Text is written as it is exactly when nothing in it could be misread, and in quotes otherwise. */
  lemma VerbatimExactly(text: string, delimiter: string)
    ensures var plain := text != "" && (forall k :: !OccursAt(text, delimiter, k))
                         && '"' !in text && '\n' !in text && '\r' !in text;
            var written := CsvEscape(Value(text), delimiter, None);
            if plain then written == text else written == "\"" + Doubled(text) + "\""
  {
    if text != "" && !MustQuote(text, delimiter) {
      NothingDoubled(text);
    }
  }
}
