/** How many streaming cursors each connection has open. */
module CursorCounts {
  /** Open cursors of a connection. */
  function Cursors(active: map<string, int>, id: string): int {
    if id in active then active[id] else 0
  }

  /** Connections pinned by a streaming cursor. */
  function Held(active: map<string, int>): set<string> {
    set id | id in active && Cursors(active, id) > 0
  }

  /** One more open cursor. */
  function Acquire(active: map<string, int>, id: string): map<string, int> {
    active[id := Cursors(active, id) + 1]
  }

  /** One cursor less; a connection without cursors is not listed. */
  function ReleaseOne(active: map<string, int>, id: string): map<string, int> {
    var remaining := (if id in active then active[id] else 1) - 1;
    if remaining <= 0 then active - {id} else active[id := remaining]
  }

  lemma AcquireCounts(active: map<string, int>, id: string)
    requires forall k :: k in active ==> active[k] > 0
    ensures var after := Acquire(active, id);
            && (forall k :: Cursors(after, k) == Cursors(active, k) + if k == id then 1 else 0)
            && (forall k :: k in after ==> after[k] > 0)
  {
  }
}
