/** Open pools per connection, and the count of cursors that pins each of them. */
module PoolManager {
  import opened Common
  import opened CursorCounts
  import opened Driver
  import opened PoolEviction

  /** The accounting of one opened cursor. */
  class CursorHandle {
    const connectionId: string
    var released: bool

    constructor (connectionId: string)
      ensures this.connectionId == connectionId && !released
    {
      this.connectionId, released := connectionId, false;
    }
  }

  /** The names `ids`, each once, least recently used first. */
  ghost predicate OldestFirst(lastUsed: map<string, int>, ids: seq<string>) {
    && (forall id :: id in ids ==> id in lastUsed)
    && (forall i, j :: 0 <= i < j < |ids| ==> ids[i] != ids[j] && lastUsed[ids[i]] <= lastUsed[ids[j]])
  }

  function Elements(ids: seq<string>): set<string> {
    set id | id in ids
  }

  lemma {:induction false} Distinct(ids: seq<string>)
    requires forall i, j :: 0 <= i < j < |ids| ==> ids[i] != ids[j]
    ensures |Elements(ids)| == |ids|
  {
    if ids != [] {
      var last := |ids| - 1;
      Distinct(ids[..last]);
      assert Elements(ids) == Elements(ids[..last]) + {ids[last]};
    }
  }

  method ByLastUsed(lastUsed: map<string, int>, free: set<string>) returns (ids: seq<string>)
    requires free <= lastUsed.Keys
    ensures OldestFirst(lastUsed, ids) && Elements(ids) == free
  {
    var left := free;
    ids := [];
    while left != {}
      invariant left <= free && Elements(ids) == free - left
      invariant OldestFirst(lastUsed, ids)
      invariant forall a, b :: a in ids && b in left ==> lastUsed[a] <= lastUsed[b]
      decreases left
    {
      EarliestExists(lastUsed, left);
      var id :| id in left && forall other :: other in left ==> lastUsed[id] <= lastUsed[other];
      assert id !in Elements(ids);
      assert Elements(ids + [id]) == Elements(ids) + {id};
      ids, left := ids + [id], left - {id};
    }
  }

  lemma ElementsMore(ids: seq<string>, i: nat, within: set<string>)
    requires i < |ids|
    ensures ids[i] in Elements(ids)
    ensures var done := Elements(ids[..i]) * within;
            Elements(ids[..i + 1]) * within == if ids[i] in within then done + {ids[i]} else done
  {
    assert ids[..i + 1] == ids[..i] + [ids[i]];
  }

  lemma NoElements(ids: seq<string>, within: set<string>)
    ensures Elements(ids[..0]) * within == {}
  {
  }

  /** The first `n` of the names are the least recently used ones. */
  lemma FirstAreLeastRecent(lastUsed: map<string, int>, ids: seq<string>, n: nat)
    requires OldestFirst(lastUsed, ids) && Elements(ids) <= lastUsed.Keys
    ensures var k := Min(n, |ids|); LeastRecent(lastUsed, Elements(ids), n, Elements(ids[..k]))
  {
    var k := Min(n, |ids|);
    Distinct(ids);
    Distinct(ids[..k]);
    forall a, b | a in Elements(ids[..k]) && b in Elements(ids) - Elements(ids[..k])
      ensures lastUsed[a] <= lastUsed[b]
    {
      var i :| 0 <= i < k && ids[i] == a;
      var j :| 0 <= j < |ids| && ids[j] == b;
      assert forall m :: 0 <= m < k ==> ids[..k][m] == ids[m];
    }
  }

  lemma PickFirst(rest: Pools, active: map<string, int>, poolMax: nat, ids: seq<string>)
    requires |rest.open - Held(active)| > poolMax
    requires OldestFirst(rest.lastUsed, ids) && Elements(ids) == rest.lastUsed.Keys - Held(active)
    ensures Picked(rest, active, poolMax, Elements(ids[..Min(|rest.open - Held(active)| - poolMax, |ids|)]))
  {
    hide LeastRecent, Held;
    FirstAreLeastRecent(rest.lastUsed, ids, |rest.open - Held(active)| - poolMax);
  }

  lemma PickNone(rest: Pools, active: map<string, int>, poolMax: nat)
    requires |rest.open - Held(active)| <= poolMax
    ensures Picked(rest, active, poolMax, {})
  {
  }

  class PoolManager<Pool> {
    var pools: map<string, Pool>
    var poolLastUsed: map<string, int>
    var poolEngine: map<string, string>
    var tunnels: set<string>
    var activeCursors: map<string, int>
    const poolIdleMs: int
    const poolMax: nat
    ghost var handles: set<CursorHandle>

    constructor (poolIdleMs: int, poolMax: nat)
      ensures Counted() && Tracked() && pools == map[] && activeCursors == map[]
      ensures this.poolIdleMs == poolIdleMs && this.poolMax == poolMax
    {
      pools, poolLastUsed, poolEngine, tunnels, activeCursors := map[], map[], map[], {}, map[];
      this.poolIdleMs, this.poolMax, handles := poolIdleMs, poolMax, {};
    }

    ghost function OpenHandles(id: string): set<CursorHandle>
      reads this`handles, handles
    {
      set h | h in handles && h.connectionId == id && !h.released
    }

    /** Every connection's count is the number of its handles not yet released, and a count of zero is not kept. */
    ghost predicate Counted()
      reads this`activeCursors, this`handles, handles
    {
      && (forall id :: |OpenHandles(id)| == Cursors(activeCursors, id))
      && (forall id :: id in activeCursors ==> activeCursors[id] > 0)
    }

    /** Exactly the open pools have a last use. */
    predicate Tracked()
      reads this`pools, this`poolLastUsed
    {
      pools.Keys == poolLastUsed.Keys
    }

    function State(): Pools
      reads this
    {
      Pools(pools.Keys, poolLastUsed)
    }

    predicate HasActiveCursors(id: string)
      reads this
      ensures HasActiveCursors(id) <==> id in Held(activeCursors)
    {
      Cursors(activeCursors, id) > 0
    }

    method CloseTunnel(id: string)
      modifies this`tunnels
      ensures tunnels == old(tunnels) - {id}
    {
      tunnels := tunnels - {id};
    }

    method EvictPool(id: string)
      modifies this`pools, this`poolLastUsed, this`poolEngine, this`tunnels
      ensures State() == Evicted(old(State()), {id})
      ensures forall k :: k in pools ==> k in old(pools) && pools[k] == old(pools)[k]
      ensures poolEngine == if id in old(pools) then old(poolEngine) - {id} else old(poolEngine)
      ensures tunnels == old(tunnels) - {id}
    {
      if id !in pools {
        CloseTunnel(id);
        return;
      }
      pools, poolLastUsed, poolEngine := pools - {id}, poolLastUsed - {id}, poolEngine - {id};
      CloseTunnel(id);
    }

    /** The pool of a connection; `create` is what making a new one yields, `None` when it fails. */
    method Resolve(id: string, engine: string, create: Option<Pool>, now: int) returns (pool: Option<Pool>)
      modifies this`pools, this`poolLastUsed, this`poolEngine
      ensures old(Tracked()) ==> Tracked()
      ensures id in old(pools) ==> pool == Some(old(pools)[id]) && pools == old(pools)
      ensures id !in old(pools) ==> pool == create
                                    && pools == if create.Some? then old(pools)[id := create.value] else old(pools)
      ensures poolLastUsed == if pool.Some? then old(poolLastUsed)[id := now] else old(poolLastUsed) - {id}
      ensures poolEngine == if pool.Some? then old(poolEngine)[id := engine] else old(poolEngine) - {id}
    {
      poolEngine := poolEngine[id := engine];
      if id in pools {
        poolLastUsed := poolLastUsed[id := now];
        return Some(pools[id]);
      }
      if create.None? {
        poolLastUsed, poolEngine := poolLastUsed - {id}, poolEngine - {id};
        return None;
      }
      pools, poolLastUsed := pools[id := create.value], poolLastUsed[id := now];
      return create;
    }

    /** Opens a cursor on a resolved connection, whose pool may be gone again: it is counted until it is released. */
    method OpenCursor(id: string, now: int) returns (h: CursorHandle)
      requires Counted()
      modifies this`poolLastUsed, this`activeCursors, this`handles
      ensures Counted() && fresh(h) && h.connectionId == id && !h.released
      ensures handles == old(handles) + {h} && activeCursors == Acquire(old(activeCursors), id)
      ensures poolLastUsed == old(poolLastUsed)[id := now]
      ensures old(Tracked()) ==> (Tracked() <==> id in pools)
    {
      hide Cursors, Acquire;
      AcquireCounts(activeCursors, id);
      poolLastUsed := poolLastUsed[id := now];
      h := new CursorHandle(id);
      activeCursors := Acquire(activeCursors, id);
      handles := handles + {h};
      OneMore(h);
    }

    twostate lemma OneMore(new h: CursorHandle)
      requires handles == old(handles) + {h} && h !in old(handles) && !h.released
      requires forall g :: g in old(handles) ==> g.released == old(g.released)
      ensures forall k :: OpenHandles(k) == old(OpenHandles(k)) + if k == h.connectionId then {h} else {}
    {
    }

    /** Fetching from a cursor marks its connection as used, whether or not the pool is still there. */
    method Touch(id: string, now: int)
      modifies this`poolLastUsed
      ensures poolLastUsed == old(poolLastUsed)[id := now]
      ensures old(Tracked()) ==> (Tracked() <==> id in pools)
    {
      poolLastUsed := poolLastUsed[id := now];
    }

    /** Closing a handle uncounts it the first time, and does nothing after. */
    method Release(h: CursorHandle)
      requires Counted() && h in handles
      modifies this`activeCursors, h
      ensures Counted() && h.released
      ensures activeCursors == if old(h.released) then old(activeCursors)
              else ReleaseOne(old(activeCursors), h.connectionId)
    {
      if h.released {
        return;
      }
      ghost var id := h.connectionId;
      assert h in OpenHandles(id);
      h.released := true;
      activeCursors := ReleaseOne(activeCursors, h.connectionId);
      assert OpenHandles(id) == old(OpenHandles(id)) - {h};
      forall k | k != id
        ensures OpenHandles(k) == old(OpenHandles(k))
      {
      }
    }

    /** Closes the pools that idled too long, then the least recently used ones over the cap. */
    method Sweep(now: int)
      modifies this`pools, this`poolLastUsed, this`poolEngine, this`tunnels
      ensures Swept(old(State()), activeCursors, poolIdleMs, poolMax, now, State())
      ensures forall id :: id in pools ==> id in old(pools) && pools[id] == old(pools)[id]
      ensures old(Tracked()) ==> Tracked()
    {
      hide Rested, Picked, Evicted, Held;
      ghost var before := State();
      EvictIdle(now);
      EvictOverCap();
      if before.open == before.lastUsed.Keys {
        SweepExact(before, activeCursors, poolIdleMs, poolMax, now, State());
      }
    }

    method EvictIdle(now: int)
      modifies this`pools, this`poolLastUsed, this`poolEngine, this`tunnels
      ensures State() == Rested(old(State()), activeCursors, poolIdleMs, now)
      ensures forall id :: id in pools ==> id in old(pools) && pools[id] == old(pools)[id]
    {
      hide OldestFirst, Evicted, Held, Elements;
      ghost var before := State();
      var lastUsed := poolLastUsed;
      var ids := ByLastUsed(lastUsed, lastUsed.Keys);
      ghost var idle := Idle(before, activeCursors, poolIdleMs, now);
      NothingEvicted(before, {});
      NoElements(ids, idle);
      for i := 0 to |ids|
        invariant State() == Evicted(before, Elements(ids[..i]) * idle)
        invariant forall id :: id in pools ==> id in old(pools) && pools[id] == old(pools)[id]
      {
        ghost var done := Elements(ids[..i]) * idle;
        ElementsMore(ids, i, idle);
        if now - lastUsed[ids[i]] > poolIdleMs && !HasActiveCursors(ids[i]) {
          EvictedTwice(before, done, {ids[i]});
          EvictPool(ids[i]);
        }
      }
      assert ids[..|ids|] == ids && Elements(ids) * idle == idle;
    }

    method EvictOverCap()
      modifies this`pools, this`poolLastUsed, this`poolEngine, this`tunnels
      ensures exists lru :: Picked(old(State()), activeCursors, poolMax, lru) && State() == Evicted(old(State()), lru)
      ensures forall id :: id in pools ==> id in old(pools) && pools[id] == old(pools)[id]
    {
      hide OldestFirst, Evicted, Picked, Held;
      ghost var before := State();
      var evictable := set id | id in pools && !HasActiveCursors(id);
      assert evictable == before.open - Held(activeCursors);
      NothingEvicted(before, {});
      if |evictable| > poolMax {
        var free := set id | id in poolLastUsed && !HasActiveCursors(id);
        var ids := ByLastUsed(poolLastUsed, free);
        assert free == before.lastUsed.Keys - Held(activeCursors);
        PickFirst(before, activeCursors, poolMax, ids);
        EvictAll(ids[..Min(|evictable| - poolMax, |ids|)]);
      } else {
        PickNone(before, activeCursors, poolMax);
      }
    }

    method EvictAll(ids: seq<string>)
      modifies this`pools, this`poolLastUsed, this`poolEngine, this`tunnels
      ensures State() == Evicted(old(State()), Elements(ids))
      ensures forall id :: id in pools ==> id in old(pools) && pools[id] == old(pools)[id]
    {
      hide Evicted;
      ghost var before := State();
      NothingEvicted(before, {});
      assert Elements(ids[..0]) == {};
      for i := 0 to |ids|
        invariant State() == Evicted(before, Elements(ids[..i]))
        invariant forall id :: id in pools ==> id in old(pools) && pools[id] == old(pools)[id]
      {
        assert ids[..i + 1] == ids[..i] + [ids[i]];
        assert Elements(ids[..i + 1]) == Elements(ids[..i]) + {ids[i]};
        EvictedTwice(before, Elements(ids[..i]), {ids[i]});
        EvictPool(ids[i]);
      }
      assert ids[..|ids|] == ids;
    }
  }
}
