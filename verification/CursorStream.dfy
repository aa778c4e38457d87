/** Streaming a result in blocks: what an open and its fetches answer, and what they answer together. */
module CursorStream {
  import opened Driver

  const QUERY_PAGE_SIZE := 100

  datatype Block<Row> = Block(rows: seq<Row>, complete: bool, truncated: bool)

  /** The next `n` rows after `position`, with the driver's word on whether that was all. */
  predicate NextRows<Row(==)>(result: seq<Row>, position: nat, n: nat, rows: seq<Row>, complete: bool) {
    && position <= |result|
    && |rows| == Min(n, |result| - position) && rows == result[position..position + |rows|]
    && (complete ==> position + |rows| == |result|)
    && (|rows| < n ==> complete)
  }

  /** The answer to opening a cursor: one full page whatever the budget, then the budget is checked. */
  predicate OpenAnswer<Row(==)>(result: seq<Row>, maxRows: int, b: Block<Row>) {
    var last := b.complete && !b.truncated;
    && NextRows(result, 0, QUERY_PAGE_SIZE, b.rows, last)
    && b.truncated == (!last && |b.rows| >= maxRows)
    && (b.truncated ==> b.complete)
  }

  /** The answer to a fetch: nothing more once the budget is spent, otherwise a block within the budget. */
  predicate FetchAnswer<Row(==)>(result: seq<Row>, position: nat, limit: nat, maxRows: int, b: Block<Row>) {
    var remaining := maxRows - position;
    if remaining <= 0 then b == Block([], true, true)
    else
      var last := b.complete && !b.truncated;
      && NextRows(result, position, Min(limit, remaining), b.rows, last)
      && b.truncated == (!last && position + |b.rows| >= maxRows)
      && (b.truncated ==> b.complete)
  }

  function Served<Row>(blocks: seq<Block<Row>>): seq<Row> {
    if blocks == [] then [] else Served(blocks[..|blocks| - 1]) + blocks[|blocks| - 1].rows
  }

  /** An open, then one fetch for each limit while the stream is not complete. */
  ghost predicate Stream<Row>(result: seq<Row>, maxRows: int, limits: seq<nat>, blocks: seq<Block<Row>>) {
    && |blocks| == |limits| + 1
    && OpenAnswer(result, maxRows, blocks[0])
    && forall i :: 0 <= i < |limits| ==>
         !blocks[i].complete && FetchAnswer(result, |Served(blocks[..i + 1])|, limits[i], maxRows, blocks[i + 1])
  }

  function Max(a: int, b: int): int {
    if a >= b then a else b
  }

  lemma StreamPrefix<Row>(result: seq<Row>, maxRows: int, limits: seq<nat>, blocks: seq<Block<Row>>)
    requires Stream(result, maxRows, limits, blocks) && limits != []
    ensures Stream(result, maxRows, limits[..|limits| - 1], blocks[..|limits|])
  {
    hide FetchAnswer, OpenAnswer;
    forall i | 0 <= i < |limits| - 1
      ensures FetchAnswer(result, |Served(blocks[..|limits|][..i + 1])|, limits[i], maxRows, blocks[i + 1])
    {
      assert blocks[..|limits|][..i + 1] == blocks[..i + 1];
    }
  }

  lemma StreamBegins<Row>(result: seq<Row>, maxRows: int, b: Block<Row>)
    requires OpenAnswer(result, maxRows, b)
    ensures Stream(result, maxRows, [], [b]) && Served([b]) == b.rows
  {
    hide OpenAnswer;
    assert |[b][..0]| == 0 && Served([b][..0]) + b.rows == b.rows;
  }

  lemma StreamGoesOn<Row>(
      result: seq<Row>, maxRows: int, limits: seq<nat>, blocks: seq<Block<Row>>, limit: nat, b: Block<Row>)
    requires Stream(result, maxRows, limits, blocks) && !blocks[|blocks| - 1].complete
    requires FetchAnswer(result, |Served(blocks)|, limit, maxRows, b)
    ensures Stream(result, maxRows, limits + [limit], blocks + [b]) && Served(blocks + [b]) == Served(blocks) + b.rows
  {
    hide OpenAnswer, FetchAnswer;
    var more := blocks + [b];
    assert more[..|blocks|] == blocks;
    forall i | 0 <= i < |limits| + 1
      ensures !more[i].complete
              && FetchAnswer(result, |Served(more[..i + 1])|, (limits + [limit])[i], maxRows, more[i + 1])
    {
      assert more[..i + 1] == blocks[..i + 1];
      assert i == |limits| ==> blocks[..i + 1] == blocks;
    }
  }

  /** The first block has at most 100 rows and each other no more than its limit; one that is not the last is full. */
  predicate PagesFull<Row>(limits: seq<nat>, blocks: seq<Block<Row>>)
    requires |blocks| == |limits| + 1
  {
    && |blocks[0].rows| <= 100 && (blocks[0].complete || |blocks[0].rows| == 100)
    && forall i :: 0 <= i < |limits| ==>
         |blocks[i + 1].rows| <= limits[i] && (blocks[i + 1].complete || |blocks[i + 1].rows| == limits[i])
  }

  lemma StreamPages<Row>(result: seq<Row>, maxRows: int, limits: seq<nat>, blocks: seq<Block<Row>>)
    requires Stream(result, maxRows, limits, blocks)
    ensures PagesFull(limits, blocks)
  {
    hide Served;
  }

  /** The served blocks are a prefix of the result, within the budget; a stream that ends untruncated served it all. */
  lemma {:induction false} StreamIsBoundedPrefix<Row>(
      result: seq<Row>, maxRows: int, limits: seq<nat>, blocks: seq<Block<Row>>)
    requires Stream(result, maxRows, limits, blocks)
    ensures var served, last := Served(blocks), blocks[|blocks| - 1];
            && |served| <= |result| && served == result[..|served|]
            && |served| <= Max(maxRows, QUERY_PAGE_SIZE)
            && (last.complete && !last.truncated ==> served == result)
            && (last.truncated ==> |served| >= maxRows)
            && (!last.complete ==> |served| < maxRows)
            && PagesFull(limits, blocks)
    decreases |limits|
  {
    hide PagesFull;
    StreamPages(result, maxRows, limits, blocks);
    var last := blocks[|blocks| - 1];
    var before := blocks[..|blocks| - 1];
    if limits == [] {
      assert Served(before) == [] && [] + last.rows == last.rows;
    } else {
      StreamPrefix(result, maxRows, limits, blocks);
      StreamIsBoundedPrefix(result, maxRows, limits[..|limits| - 1], before);
      StreamStep(result, maxRows, limits[|limits| - 1], Served(before), last);
    }
  }

  lemma StreamStep<Row>(result: seq<Row>, maxRows: int, limit: nat, served: seq<Row>, b: Block<Row>)
    requires |served| <= |result| && served == result[..|served|] && |served| < maxRows
    requires FetchAnswer(result, |served|, limit, maxRows, b)
    ensures var all := served + b.rows;
            && |all| <= |result| && all == result[..|all|] && |all| <= maxRows
            && (b.complete && !b.truncated ==> all == result)
            && (b.truncated ==> |all| >= maxRows)
            && (!b.complete ==> |all| < maxRows)
  {
    assert served + b.rows == result[..|served| + |b.rows|];
    assert result[..|result|] == result;
  }

  /** The row budget holds over every stream exactly when it is at least one page. */
  lemma BudgetKeptExactly(maxRows: int)
    ensures (forall result: seq<int>, limits: seq<nat>, blocks: seq<Block<int>>
             | Stream(result, maxRows, limits, blocks) ::
               |Served(blocks)| <= maxRows)
            <==> maxRows >= QUERY_PAGE_SIZE
  {
    if maxRows >= QUERY_PAGE_SIZE {
      forall result: seq<int>, limits: seq<nat>, blocks: seq<Block<int>> | Stream(result, maxRows, limits, blocks)
        ensures |Served(blocks)| <= maxRows
      {
        StreamIsBoundedPrefix(result, maxRows, limits, blocks);
      }
    } else {
      var result := seq(QUERY_PAGE_SIZE, i => 0);
      var b := Block(result, true, true);
      assert Stream(result, maxRows, [], [b]);
      assert Served([b]) == Served([b][..0]) + b.rows == [] + result == result;
      assert |Served([b])| == QUERY_PAGE_SIZE;
    }
  }
}
