/** Which connection pools a sweep closes. */
module PoolEviction {
  import opened CursorCounts
  import opened Driver

  /** The names with an open pool, and when each name was last used. */
  datatype Pools = Pools(open: set<string>, lastUsed: map<string, int>)

  function Idle(p: Pools, active: map<string, int>, idleMs: int, now: int): set<string> {
    set id | id in p.lastUsed && now - p.lastUsed[id] > idleMs && id !in Held(active)
  }

  /** Evicting a pool forgets its last use; evicting a name that has no pool does not. */
  function Evicted(p: Pools, ids: set<string>): Pools {
    Pools(p.open - ids, p.lastUsed - (ids * p.open))
  }

  /** `chosen` are `n` of the free names (or all of them), none used after a free name that is not chosen. */
  predicate LeastRecent(lastUsed: map<string, int>, free: set<string>, n: int, chosen: set<string>)
    requires free <= lastUsed.Keys
  {
    && chosen <= free && |chosen| == Min(n, |free|)
    && forall a, b :: a in chosen && b in free - chosen ==> lastUsed[a] <= lastUsed[b]
  }

  /** What the idle pass leaves. */
  function Rested(before: Pools, active: map<string, int>, idleMs: int, now: int): Pools {
    Evicted(before, Idle(before, active, idleMs, now))
  }

  /** The least recently used names a sweep picks when too many cursor-free pools are left. */
  predicate Picked(rest: Pools, active: map<string, int>, poolMax: nat, lru: set<string>) {
    var excess := |rest.open - Held(active)| - poolMax;
    if excess > 0 then LeastRecent(rest.lastUsed, rest.lastUsed.Keys - Held(active), excess, lru) else lru == {}
  }

  ghost predicate Swept(before: Pools, active: map<string, int>, idleMs: int, poolMax: nat, now: int, after: Pools) {
    var rest := Rested(before, active, idleMs, now);
    exists lru :: Picked(rest, active, poolMax, lru) && after == Evicted(rest, lru)
  }

  lemma EvictedTwice(p: Pools, a: set<string>, b: set<string>)
    ensures Evicted(Evicted(p, a), b) == Evicted(p, a + b)
  {
    assert p.open - a - b == p.open - (a + b);
    assert (a + b) * p.open == a * p.open + b * (p.open - a);
    assert p.lastUsed - (a * p.open) - (b * (p.open - a)) == p.lastUsed - (a * p.open + b * (p.open - a));
  }

  /** Cursor-free pools within the idle limit. */
  function Recent(p: Pools, active: map<string, int>, idleMs: int, now: int): set<string>
    requires p.open <= p.lastUsed.Keys
  {
    set id | id in p.open - Held(active) && now - p.lastUsed[id] <= idleMs
  }

  lemma RestedKeeps(before: Pools, active: map<string, int>, idleMs: int, now: int)
    requires before.open <= before.lastUsed.Keys
    ensures var rest := Rested(before, active, idleMs, now);
            && rest.open <= rest.lastUsed.Keys && rest.open <= before.open
            && (before.open == before.lastUsed.Keys ==> rest.open == rest.lastUsed.Keys)
            && (forall id :: id in rest.lastUsed ==> id in before.lastUsed && rest.lastUsed[id] == before.lastUsed[id])
            && before.open * Held(active) <= rest.open
            && rest.open - Held(active) == Recent(before, active, idleMs, now)
  {
    hide Held;
  }

  /** The pools the cap takes: none with a cursor, and never one used after a cursor-free one that stays. */
  lemma CapPass(rest: Pools, active: map<string, int>, poolMax: nat, lru: set<string>)
    requires rest.open == rest.lastUsed.Keys && Picked(rest, active, poolMax, lru)
    ensures var free, after := rest.open - Held(active), Evicted(rest, lru);
            && after.open == after.lastUsed.Keys && lru <= free
            && (forall id :: id in after.open ==> id in rest.open && after.lastUsed[id] == rest.lastUsed[id])
            && rest.open * Held(active) <= after.open
            && after.open - Held(active) == free - lru && |free - lru| == Min(poolMax, |free|)
            && forall e, k :: e in lru && k in free - lru ==> rest.lastUsed[e] <= rest.lastUsed[k]
  {
    hide Held, Evicted;
    var free := rest.open - Held(active);
    assert lru <= free;
    assert |free - lru| == |free| - |lru|;
    EvictedParts(rest, lru, Held(active));
  }

  lemma EvictedParts(p: Pools, ids: set<string>, held: set<string>)
    requires p.open == p.lastUsed.Keys && ids <= p.open - held
    ensures var after := Evicted(p, ids);
            && after.open == after.lastUsed.Keys && p.open * held <= after.open
            && after.open - held == p.open - held - ids
            && forall id :: id in after.open ==> id in p.open && after.lastUsed[id] == p.lastUsed[id]
  {
    assert p.open - ids - held == p.open - held - ids;
  }

  /**
   * When exactly the open pools have a last use, a sweep is exact: cursor-holding pools stay, no cursor-free pool over
   * the idle limit stays, and of the others exactly as many stay as the cap allows, the most recently used.
   */
  lemma SweepExact(before: Pools, active: map<string, int>, idleMs: int, poolMax: nat, now: int, after: Pools)
    requires Swept(before, active, idleMs, poolMax, now, after)
    requires before.open == before.lastUsed.Keys
    ensures after.open == after.lastUsed.Keys
    ensures forall id :: id in after.open ==> id in before.open && after.lastUsed[id] == before.lastUsed[id]
    ensures before.open * Held(active) <= after.open
    ensures var kept, recent := after.open - Held(active), Recent(before, active, idleMs, now);
            && kept <= recent && |kept| == Min(poolMax, |recent|)
            && forall e, k :: e in recent - kept && k in kept ==> before.lastUsed[e] <= before.lastUsed[k]
  {
    hide Held, Recent, Rested, Picked;
    var rest := Rested(before, active, idleMs, now);
    RestedKeeps(before, active, idleMs, now);
    var lru :| Picked(rest, active, poolMax, lru) && after == Evicted(rest, lru);
    CapPass(rest, active, poolMax, lru);
  }

  /**
   * Names without a pool only spoil the count: pools with a cursor stay, no cursor-free pool over the idle limit stays,
   * and no pool evicted for the cap was used after a cursor-free one that stays.
   */
  lemma SweepBounds(before: Pools, active: map<string, int>, idleMs: int, poolMax: nat, now: int, after: Pools)
    requires Swept(before, active, idleMs, poolMax, now, after)
    requires before.open <= before.lastUsed.Keys
    ensures after.open <= before.open && after.open <= after.lastUsed.Keys
    ensures forall id :: id in after.lastUsed ==> id in before.lastUsed && after.lastUsed[id] == before.lastUsed[id]
    ensures before.open * Held(active) <= after.open
    ensures var kept, recent := after.open - Held(active), Recent(before, active, idleMs, now);
            && kept <= recent
            && (forall e, k :: e in recent - kept && k in kept ==> before.lastUsed[e] <= before.lastUsed[k])
            && (|recent| <= poolMax ==> kept == recent)
  {
    hide Held, Recent, Rested;
    var rest := Rested(before, active, idleMs, now);
    RestedKeeps(before, active, idleMs, now);
    hide Evicted, Picked;
    var lru :| Picked(rest, active, poolMax, lru) && after == Evicted(rest, lru);
    CapBounds(rest, active, poolMax, lru);
  }

  lemma CapBounds(rest: Pools, active: map<string, int>, poolMax: nat, lru: set<string>)
    requires rest.open <= rest.lastUsed.Keys && Picked(rest, active, poolMax, lru)
    ensures var free, after := rest.open - Held(active), Evicted(rest, lru);
            && after.open <= rest.open && after.open <= after.lastUsed.Keys && rest.open * Held(active) <= after.open
            && (forall id :: id in after.lastUsed ==> id in rest.lastUsed && after.lastUsed[id] == rest.lastUsed[id])
            && after.open - Held(active) == free - lru
            && (forall e, k :: e in free * lru && k in free - lru ==> rest.lastUsed[e] <= rest.lastUsed[k])
            && (|free| <= poolMax ==> free - lru == free)
  {
    hide Held;
  }

  /** No sweep, whatever the last uses, closes the pool of a connection that holds a cursor. */
  lemma SweepSparesHeld(
      before: Pools, active: map<string, int>, idleMs: int, poolMax: nat, now: int, after: Pools, id: string)
    requires Swept(before, active, idleMs, poolMax, now, after)
    requires id in before.open && Cursors(active, id) > 0
    ensures id in after.open
  {
    assert id in Held(active);
    var rest := Rested(before, active, idleMs, now);
    var lru :| Picked(rest, active, poolMax, lru) && after == Evicted(rest, lru);
    assert id in rest.open && id !in lru;
  }

  lemma Bigger<T>(a: set<T>, b: set<T>)
    requires a <= b
    ensures |a| <= |b|
  {
    assert b == a + (b - a);
    assert |b| == |a| + |b - a|;
  }

  /** The cap is met when, and only when, every name picked for it still has a pool. */
  lemma PickMeetsCap(rest: Pools, active: map<string, int>, poolMax: nat, lru: set<string>)
    requires rest.open <= rest.lastUsed.Keys && Picked(rest, active, poolMax, lru)
    ensures |Evicted(rest, lru).open - Held(active)| <= poolMax <==> lru <= rest.open
  {
    hide Held;
    var evictable := rest.open - Held(active);
    var hit := evictable * lru;
    assert Evicted(rest, lru).open - Held(active) == evictable - hit;
    assert |evictable - hit| == |evictable| - |hit|;
    if |evictable| > poolMax {
      Bigger(evictable, rest.lastUsed.Keys - Held(active));
      assert |lru - hit| == |lru| - |hit|;
      if lru <= rest.open {
        assert hit == lru;
      } else {
        var id :| id in lru && id !in rest.open;
        assert id in lru - hit;
      }
    }
  }

  lemma {:induction false} EarliestExists(lastUsed: map<string, int>, ids: set<string>)
    requires ids != {} && ids <= lastUsed.Keys
    ensures exists id :: id in ids && forall other :: other in ids ==> lastUsed[id] <= lastUsed[other]
    decreases ids
  {
    var id :| id in ids;
    if other :| other in ids && lastUsed[other] < lastUsed[id] {
      assert other in ids - {id};
      EarliestExists(lastUsed, ids - {id});
    }
  }

  function Older(lastUsed: map<string, int>, free: set<string>, id: string): set<string>
    requires free <= lastUsed.Keys && id in lastUsed
  {
    set other | other in free && lastUsed[other] < lastUsed[id]
  }

  /** Any names that come before all others can be completed to the `n` least recently used. */
  lemma {:induction false} Complete(lastUsed: map<string, int>, free: set<string>, n: nat, s: set<string>)
    returns (chosen: set<string>)
    requires s <= free <= lastUsed.Keys && |s| <= n <= |free|
    requires forall a, b :: a in s && b in free - s ==> lastUsed[a] <= lastUsed[b]
    ensures s <= chosen && LeastRecent(lastUsed, free, n, chosen)
    decreases n - |s|
  {
    if |s| == n {
      chosen := s;
    } else {
      assert |free - s| == |free| - |s|;
      EarliestExists(lastUsed, free - s);
      var id :| id in free - s && forall other :: other in free - s ==> lastUsed[id] <= lastUsed[other];
      chosen := Complete(lastUsed, free, n, s + {id});
    }
  }

  /**
   * Every choice of `n` least recently used names avoids the names in `orphans` exactly when each of those has at least
   * `n` names used strictly before it.
   */
  lemma PickAvoids(lastUsed: map<string, int>, free: set<string>, n: nat, orphans: set<string>)
    requires orphans <= free <= lastUsed.Keys && 0 < n <= |free|
    ensures (forall chosen :: LeastRecent(lastUsed, free, n, chosen) ==> chosen !! orphans)
            <==> forall o :: o in orphans ==> |Older(lastUsed, free, o)| >= n
  {
    if o :| o in orphans && |Older(lastUsed, free, o)| < n {
      var chosen := Complete(lastUsed, free, n, Older(lastUsed, free, o) + {o});
      assert o in chosen * orphans;
    }
    forall chosen, o | LeastRecent(lastUsed, free, n, chosen) && o in chosen && o in orphans
      ensures |Older(lastUsed, free, o)| < n
    {
      Bigger(Older(lastUsed, free, o), chosen - {o});
    }
  }

  /** Before a sweep: each cursor-free name without a pool was used after at least as many others as the sweep must
      evict. */
  predicate OrphansRecent(before: Pools, active: map<string, int>, idleMs: int, poolMax: nat, now: int)
    requires before.open <= before.lastUsed.Keys
  {
    var recent, orphans := Recent(before, active, idleMs, now), before.lastUsed.Keys - before.open - Held(active);
    var excess := |recent| - poolMax;
    excess > 0 ==> forall o :: o in orphans ==> |Older(before.lastUsed, recent + orphans, o)| >= excess
  }

  /** However the sweep picks among equals, the pool cap is met exactly when that held before it. */
  lemma CapKeptExactly(before: Pools, active: map<string, int>, idleMs: int, poolMax: nat, now: int)
    requires before.open <= before.lastUsed.Keys
    ensures (forall after :: Swept(before, active, idleMs, poolMax, now, after) ==>
             |after.open - Held(active)| <= poolMax)
            <==> OrphansRecent(before, active, idleMs, poolMax, now)
  {
    hide Held, Picked, Evicted, Rested, Swept, OrphansRecent;
    RestedKeeps(before, active, idleMs, now);
    PicksMeetCap(before, active, idleMs, poolMax, now);
    OrphansPicked(before, active, idleMs, poolMax, now);
    PicksAvoidOrphans(before, active, idleMs, poolMax, now);
  }

  lemma PicksAvoidOrphans(before: Pools, active: map<string, int>, idleMs: int, poolMax: nat, now: int)
    requires before.open <= before.lastUsed.Keys
    ensures var rest := Rested(before, active, idleMs, now);
            var orphans := before.lastUsed.Keys - before.open - Held(active);
            && rest.open <= rest.lastUsed.Keys
            && ((forall lru :: Picked(rest, active, poolMax, lru) ==> lru !! orphans)
                <==> OrphansRecent(before, active, idleMs, poolMax, now))
  {
    hide Held, Recent, Picked, Older, Rested;
    var rest := Rested(before, active, idleMs, now);
    var orphans := before.lastUsed.Keys - before.open - Held(active);
    RestedKeeps(before, active, idleMs, now);
    RestedFree(before, active, idleMs, now);
    CapPicksAvoid(rest, active, poolMax, orphans);
    SameOlder(rest.lastUsed, before.lastUsed, rest.lastUsed.Keys - Held(active), orphans);
  }

  lemma CapPicksAvoid(rest: Pools, active: map<string, int>, poolMax: nat, orphans: set<string>)
    requires rest.open <= rest.lastUsed.Keys && orphans <= rest.lastUsed.Keys - Held(active)
    ensures var free, excess := rest.lastUsed.Keys - Held(active), |rest.open - Held(active)| - poolMax;
            (forall lru :: Picked(rest, active, poolMax, lru) ==> lru !! orphans)
            <==> (excess > 0 ==> forall o :: o in orphans ==> |Older(rest.lastUsed, free, o)| >= excess)
  {
    hide Held, LeastRecent, Older;
    var free, excess := rest.lastUsed.Keys - Held(active), |rest.open - Held(active)| - poolMax;
    if excess > 0 {
      Bigger(rest.open - Held(active), free);
      assert forall lru :: Picked(rest, active, poolMax, lru) <==> LeastRecent(rest.lastUsed, free, excess, lru);
      PickAvoids(rest.lastUsed, free, excess, orphans);
    } else {
      assert forall lru :: Picked(rest, active, poolMax, lru) <==> lru == {};
    }
  }

  lemma SameOlder(after: map<string, int>, before: map<string, int>, free: set<string>, orphans: set<string>)
    requires orphans <= free <= after.Keys && free <= before.Keys
    requires forall id :: id in free ==> after[id] == before[id]
    ensures forall o :: o in orphans ==> Older(after, free, o) == Older(before, free, o)
  {
  }

  /** A pick has a pool for every name in it exactly when no orphan is picked. */
  lemma OrphansPicked(before: Pools, active: map<string, int>, idleMs: int, poolMax: nat, now: int)
    requires before.open <= before.lastUsed.Keys
    ensures var rest := Rested(before, active, idleMs, now);
            var orphans := before.lastUsed.Keys - before.open - Held(active);
            && rest.open <= rest.lastUsed.Keys
            && forall lru :: Picked(rest, active, poolMax, lru) ==> (lru <= rest.open <==> lru !! orphans)
  {
    hide Held, Recent, LeastRecent, Rested, Picked;
    var rest := Rested(before, active, idleMs, now);
    RestedKeeps(before, active, idleMs, now);
    RestedFree(before, active, idleMs, now);
    forall lru | Picked(rest, active, poolMax, lru)
      ensures lru <= rest.open <==> lru !! before.lastUsed.Keys - before.open - Held(active)
    {
      PickedFree(rest, active, poolMax, lru);
    }
  }

  lemma PickedFree(rest: Pools, active: map<string, int>, poolMax: nat, lru: set<string>)
    requires rest.open <= rest.lastUsed.Keys && Picked(rest, active, poolMax, lru)
    ensures lru <= rest.lastUsed.Keys - Held(active)
  {
  }

  /** What an idle pass leaves cursor-free: the recent pools, and every name without a pool. */
  lemma RestedFree(before: Pools, active: map<string, int>, idleMs: int, now: int)
    requires before.open <= before.lastUsed.Keys
    ensures var rest := Rested(before, active, idleMs, now);
            var orphans := before.lastUsed.Keys - before.open - Held(active);
            && rest.lastUsed.Keys - Held(active) == Recent(before, active, idleMs, now) + orphans
            && orphans !! rest.open
            && rest.lastUsed.Keys - rest.open - Held(active) == orphans
  {
    hide Held;
  }

  lemma PicksMeetCap(before: Pools, active: map<string, int>, idleMs: int, poolMax: nat, now: int)
    requires before.open <= before.lastUsed.Keys
    ensures var rest := Rested(before, active, idleMs, now);
            (forall after :: Swept(before, active, idleMs, poolMax, now, after) ==>
             |after.open - Held(active)| <= poolMax)
            <==> forall lru :: Picked(rest, active, poolMax, lru) ==> lru <= rest.open
  {
    hide Held, Picked, Evicted, Rested;
    var rest := Rested(before, active, idleMs, now);
    RestedKeeps(before, active, idleMs, now);
    forall lru | Picked(rest, active, poolMax, lru)
      ensures Swept(before, active, idleMs, poolMax, now, Evicted(rest, lru))
      ensures |Evicted(rest, lru).open - Held(active)| <= poolMax <==> lru <= rest.open
    {
      PickMeetsCap(rest, active, poolMax, lru);
    }
  }

  lemma NothingEvicted(p: Pools, ids: set<string>)
    requires ids !! p.open
    ensures Evicted(p, ids) == p
  {
    assert p.open - ids == p.open && ids * p.open == {};
  }

  /** A sweep over the cap when nothing is idle and no cursor is open. */
  lemma SweepsOne(before: Pools, idleMs: int, poolMax: nat, now: int, id: string)
    requires |before.open| == poolMax + 1 && id in before.lastUsed
    requires forall other :: other in before.lastUsed ==>
               now - before.lastUsed[other] <= idleMs && before.lastUsed[id] <= before.lastUsed[other]
    ensures Swept(before, map[], idleMs, poolMax, now, Evicted(before, {id}))
  {
    hide Evicted, LeastRecent;
    NothingEvicted(before, {});
    assert Idle(before, map[], idleMs, now) == {} && Held(map[]) == {};
    assert Rested(before, map[], idleMs, now) == before;
    assert before.open - Held(map[]) == before.open;
    var free := before.lastUsed.Keys - Held(map[]);
    assert free == before.lastUsed.Keys;
    OldestOf(before.lastUsed, free, id);
    assert Picked(before, map[], poolMax, {id});
  }

  lemma OldestOf(lastUsed: map<string, int>, free: set<string>, id: string)
    requires id in free && free <= lastUsed.Keys && forall other :: other in free ==> lastUsed[id] <= lastUsed[other]
    ensures LeastRecent(lastUsed, free, 1, {id})
  {
    Bigger({id}, free);
  }

  /** A name used after its pool was closed takes the place of a pool in the sweep: the cap is not met. */
  lemma OrphanDefeatsCap()
    ensures var before := Pools({"b", "c"}, map["a" := 2, "b" := 4, "c" := 3]);
            Swept(before, map[], 10, 1, 4, before)
  {
    hide Swept;
    var before := Pools({"b", "c"}, map["a" := 2, "b" := 4, "c" := 3]);
    assert |before.open| == 2;
    SweepsOne(before, 10, 1, 4, "a");
    NothingEvicted(before, {"a"});
  }
}
