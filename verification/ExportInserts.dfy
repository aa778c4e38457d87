/** A table's rows as batched multi-row INSERT statements. */
module ExportInserts {
  import opened Common
  import opened CursorStream
  import opened Driver
  import opened Export
  import opened Text

  /** The tuples in groups of `INSERT_BATCH_ROWS`, the last group possibly smaller. */
  function Chunks(tuples: seq<string>): seq<seq<string>> {
    if tuples == [] then []
    else if |tuples| <= INSERT_BATCH_ROWS then [tuples]
    else [tuples[..INSERT_BATCH_ROWS]] + Chunks(tuples[INSERT_BATCH_ROWS..])
  }

  function InsertOf(header: string, batch: seq<string>): string {
    header + "\n" + Join(batch, ",\n") + ";\n"
  }

  function Inserts(header: string, chunks: seq<seq<string>>): string {
    if chunks == [] then "" else Inserts(header, chunks[..|chunks| - 1]) + InsertOf(header, chunks[|chunks| - 1])
  }

  /** The dump is one statement for each group: the header, the tuples one a line with commas between, a semicolon. */
  lemma {:induction false} InsertsAre(header: string, chunks: seq<seq<string>>)
    ensures Inserts(header, chunks) ==
            Flatten(seq(|chunks|, i requires 0 <= i < |chunks| => header + "\n" + Join(chunks[i], ",\n") + ";\n"))
  {
    var texts := seq(|chunks|, i requires 0 <= i < |chunks| => header + "\n" + Join(chunks[i], ",\n") + ";\n");
    if chunks != [] {
      var last := |chunks| - 1;
      InsertsAre(header, chunks[..last]);
      assert texts[..last]
          == seq(last, i requires 0 <= i < last => header + "\n" + Join(chunks[..last][i], ",\n") + ";\n");
      FlattenSnoc(texts[..last], texts[last]);
      assert texts == texts[..last] + [texts[last]];
    }
  }

  /** Every tuple goes into exactly one statement, in order, and every statement but the last is full. */
  lemma {:induction false} ChunksExact(tuples: seq<string>)
    ensures var cs := Chunks(tuples);
            && Flatten(cs) == tuples
            && (forall i :: 0 <= i < |cs| - 1 ==> |cs[i]| == INSERT_BATCH_ROWS)
            && (cs != [] ==> 0 < |cs[|cs| - 1]| <= INSERT_BATCH_ROWS)
    decreases |tuples|
  {
    if |tuples| > INSERT_BATCH_ROWS {
      ChunksExact(tuples[INSERT_BATCH_ROWS..]);
      assert tuples == tuples[..INSERT_BATCH_ROWS] + tuples[INSERT_BATCH_ROWS..];
      assert Chunks(tuples)[1..] == Chunks(tuples[INSERT_BATCH_ROWS..]);
    } else if tuples != [] {
      assert Chunks(tuples)[1..] == [] && Flatten([tuples]) == tuples + Flatten([]);
    }
  }

  /** A group added after full groups starts a statement of its own. */
  lemma {:induction false} ChunksAfterFull(a: seq<string>, b: seq<string>)
    requires |a| % INSERT_BATCH_ROWS == 0 && 0 < |b| <= INSERT_BATCH_ROWS
    ensures Chunks(a + b) == Chunks(a) + [b]
    decreases |a|
  {
    if a == [] {
      assert a + b == b;
    } else {
      var rest := a[INSERT_BATCH_ROWS..];
      ChunksAfterFull(rest, b);
      assert (a + b)[..INSERT_BATCH_ROWS] == a[..INSERT_BATCH_ROWS] && (a + b)[INSERT_BATCH_ROWS..] == rest + b;
      if rest == [] {
        assert a[..INSERT_BATCH_ROWS] == a;
      }
    }
  }

  lemma InsertsAfterFull(header: string, a: seq<string>, b: seq<string>)
    requires |a| % INSERT_BATCH_ROWS == 0 && 0 < |b| <= INSERT_BATCH_ROWS
    ensures Inserts(header, Chunks(a + b)) == Inserts(header, Chunks(a)) + InsertOf(header, b)
  {
    hide Chunks, InsertOf;
    ChunksAfterFull(a, b);
    assert (Chunks(a) + [b])[..|Chunks(a)|] == Chunks(a);
  }

  function Tuples(rows: seq<Record>, masked: set<string>, tuple: Record -> string): (r: seq<string>)
    ensures |r| == |rows|
  {
    seq(|rows|, i requires 0 <= i < |rows| => tuple(RedactRow(rows[i], masked)))
  }

  /** The tuples not yet written, appended and written whenever a batch is full. */
  class Batcher {
    const writer: Writer
    const header: string
    var batch: seq<string>
    ghost const start: string
    ghost var tuples: seq<string>

    constructor (writer: Writer, header: string)
      ensures this.writer == writer && this.header == header && tuples == [] && start == writer.text && Valid()
    {
      this.writer, this.header, batch, start, tuples := writer, header, [], writer.text, [];
      new;
      assert Chunks([]) == [];
    }

    /** What is written are the full groups of the tuples; what is batched is the rest. */
    ghost predicate Valid()
      reads this, writer
    {
      var done := |tuples| - |batch|;
      && 0 <= done && done % INSERT_BATCH_ROWS == 0 && |batch| < INSERT_BATCH_ROWS
      && batch == tuples[done..]
      && writer.text == start + Inserts(header, Chunks(tuples[..done]))
    }

    method Flush()
      requires |batch| <= |tuples| && |batch| <= INSERT_BATCH_ROWS
      requires var done := |tuples| - |batch|;
               && done % INSERT_BATCH_ROWS == 0 && batch == tuples[done..]
               && writer.text == start + Inserts(header, Chunks(tuples[..done]))
      modifies writer, this`batch
      ensures batch == [] && writer.text == start + Inserts(header, Chunks(tuples))
    {
      hide Chunks;
      ghost var done := |tuples| - |batch|;
      assert tuples == tuples[..done] + batch;
      if |batch| == 0 {
        assert tuples[..done] == tuples;
        return;
      }
      InsertsAfterFull(header, tuples[..done], batch);
      writer.Write(header + "\n" + Join(batch, ",\n") + ";\n");
      batch := [];
    }

    method Finish()
      requires Valid()
      modifies writer, this`batch
      ensures writer.text == start + Inserts(header, Chunks(tuples))
    {
      hide Chunks, Inserts;
      Flush();
    }

    method Push(t: string)
      requires Valid()
      modifies writer, this`batch, this`tuples
      ensures Valid() && tuples == old(tuples) + [t]
    {
      hide Chunks, Inserts;
      ghost var done := |tuples| - |batch|;
      batch, tuples := batch + [t], tuples + [t];
      assert tuples[..done] == old(tuples)[..done];
      if |batch| >= INSERT_BATCH_ROWS {
        Flush();
        assert tuples[..|tuples|] == tuples;
      }
    }

    method PushRows(rows: seq<Record>, masked: set<string>, tuple: Record -> string, rowCount: nat) returns (count: nat)
      requires Valid()
      modifies writer, this`batch, this`tuples
      ensures Valid() && count == rowCount + |rows| && tuples == old(tuples) + Tuples(rows, masked, tuple)
    {
      hide Valid, RedactRow;
      count := rowCount;
      for i := 0 to |rows|
        invariant Valid() && count == rowCount + i && tuples == old(tuples) + Tuples(rows, masked, tuple)[..i]
      {
        Push(tuple(RedactRow(rows[i], masked)));
        count := count + 1;
      }
    }
  }

  lemma EachTuple(rows: seq<Record>, masked: set<string>, tuple: Record -> string)
    ensures forall r :: 0 <= r < |rows| ==> Tuples(rows, masked, tuple)[r] == tuple(RedactRow(rows[r], masked))
  {
  }

  lemma NoTuples(masked: set<string>, tuple: Record -> string)
    ensures Tuples([], masked, tuple) == []
  {
  }

  lemma TuplesMore(result: seq<Record>, masked: set<string>, tuple: Record -> string, i: nat, j: nat)
    requires i <= j <= |result|
    ensures Tuples(result[..i], masked, tuple) + Tuples(result[i..j], masked, tuple)
            == Tuples(result[..j], masked, tuple)
  {
    hide RedactRow;
  }

  method StreamTableInserts(
      writer: Writer, cursor: DriverCursor<Record>, header: string, masked: set<string>, maxRows: int,
      tuple: Record -> string)
    returns (rowCount: nat, truncated: bool, ghost tuples: seq<string>)
    requires cursor.Valid() && cursor.position == 0
    modifies writer, cursor
    ensures rowCount == Min(|cursor.result|, Max(0, maxRows)) && |tuples| == rowCount
    ensures forall r :: 0 <= r < rowCount ==> tuples[r] == tuple(RedactRow(cursor.result[r], masked))
    ensures !truncated ==> rowCount == |cursor.result|
    ensures (truncated ==> rowCount >= maxRows) && (maxRows <= 0 ==> truncated)
    ensures writer.text == old(writer.text)
                         + Inserts(header, Chunks(tuples))
                         + if truncated then "-- truncated at " + Decimal(rowCount) + " rows\n" else ""
  {
    hide Chunks, Inserts, RedactRow, Decimal, Tuples, Batcher.Valid;
    rowCount, truncated := 0, false;
    NoTuples(masked, tuple);
    var batcher := new Batcher(writer, header);
    while true
      invariant cursor.Valid() && cursor.position == rowCount && !truncated && rowCount <= Max(0, maxRows)
      invariant fresh(batcher) && batcher.writer == writer && batcher.start == old(writer.text) && batcher.Valid()
      invariant batcher.header == header
      invariant batcher.tuples == Tuples(cursor.result[..rowCount], masked, tuple)
      decreases |cursor.result| - rowCount
    {
      var remaining := maxRows - rowCount;
      if remaining <= 0 {
        truncated := true;
        break;
      }
      var rows, complete := cursor.Fetch(Min(QUERY_PAGE_SIZE, remaining));
      TuplesMore(cursor.result, masked, tuple, rowCount, cursor.position);
      rowCount := batcher.PushRows(rows, masked, tuple, rowCount);
      if complete {
        break;
      }
      if rowCount >= maxRows {
        truncated := true;
        break;
      }
    }
    batcher.Finish();
    tuples := batcher.tuples;
    EachTuple(cursor.result[..rowCount], masked, tuple);
    if truncated {
      writer.Write("-- truncated at " + Decimal(rowCount) + " rows\n");
    }
  }
}
