/** The cursor contract of the database drivers. */
module Driver {
  function Min(a: int, b: int): int {
    if a <= b then a else b
  }

  /** A held, forward-only cursor over the rows of one SELECT. */
  class DriverCursor<Row> {
    const result: seq<Row>
    var position: nat

    constructor (result: seq<Row>)
      ensures this.result == result && position == 0
    {
      this.result, position := result, 0;
    }

    predicate Valid()
      reads this
    {
      position <= |result|
    }

    /** The next rows, up to `n`; a short block is reported complete, and only an exhausted cursor is. */
    method Fetch(n: nat) returns (rows: seq<Row>, complete: bool)
      requires Valid()
      modifies this
      ensures Valid() && position == old(position) + |rows|
      ensures |rows| == Min(n, |result| - old(position)) && rows == result[old(position)..position]
      ensures (complete ==> position == |result|) && (|rows| < n ==> complete)
    {
      var k := Min(n, |result| - position);
      rows := result[position..position + k];
      position := position + k;
      complete := k < n;
    }
  }
}
