/**
 * Requests, the idle reaper and the pool sweep interleaved: every event runs from one suspension point to the next.
 * An open first passes the capacity check, then holds a cursor, then becomes a session, ends, or is lost.
 */
module CursorAccounting {
  import opened CursorCounts
  import opened PoolEviction

  datatype Handle = Handle(connectionId: string, released: bool)

  datatype Opening = Checked(connectionId: string) | Holding(connectionId: string, handle: nat)

  datatype Session = Session(connectionId: string, handle: nat)

  datatype Service = Service(
    handles: map<nat, Handle>,
    active: map<string, int>,
    opening: map<nat, Opening>,
    sessions: map<string, Session>,
    closing: set<nat>,
    pools: Pools,
    resolving: multiset<string>)

  datatype Limits = Limits(maxSessions: int, maxPerConnection: int, idleMs: int, poolMax: nat)

  /**
   * `EndAtOnce` is a stream that ends, or fails, with its first block; `LookupFailed` a failing description of the
   * result. A request resolves its pool and, when it goes on, marks the connection as used once more, whether or not
   * the pool is still there; so does every fetch.
   */
  datatype Event =
    | Begin(open: nat, connectionId: string)
    | CursorOpened(open: nat, handle: nat)
    | OpenFailed(open: nat)
    | Register(open: nat, sessionId: string)
    | EndAtOnce(open: nat)
    | LookupFailed(open: nat)
    | EndSession(sessionId: string)
    | Release(handle: nat)
    | Resolve(connectionId: string, now: int)
    | MarkUsed(connectionId: string, now: int)
    | Fetched(handle: nat, now: int)
    | Sweep(now: int, after: Pools)

  const INITIAL := Service(map[], map[], map[], map[], {}, Pools({}, map[]), multiset{})

  function SessionsOn(s: Service, c: string): set<string> {
    set id | id in s.sessions && s.sessions[id].connectionId == c
  }

  function OpeningsOn(s: Service, c: string): set<nat> {
    set o | o in s.opening && s.opening[o].connectionId == c
  }

  /** Cursors on `c` opened and not yet released. */
  function OpenHandles(handles: map<nat, Handle>, c: string): set<nat> {
    set h | h in handles && handles[h].connectionId == c && !handles[h].released
  }

  predicate Holds(s: Service, open: nat) {
    open in s.opening && s.opening[open].Holding?
  }

  function Used(p: Pools, c: string, now: int): Pools {
    Pools(p.open, p.lastUsed[c := now])
  }

  ghost predicate Step(l: Limits, s: Service, e: Event, t: Service) {
    match e
    case Begin(o, c) =>
      && o !in s.opening && |s.sessions| < l.maxSessions && |SessionsOn(s, c)| < l.maxPerConnection
      && t == s.(opening := s.opening[o := Checked(c)])
    case CursorOpened(o, h) =>
      && o in s.opening && s.opening[o].Checked? && h !in s.handles
      && var c := s.opening[o].connectionId;
         t == s.(handles := s.handles[h := Handle(c, false)],
                 active := Acquire(s.active, c),
                 opening := s.opening[o := Holding(c, h)])
    case OpenFailed(o) =>
      o in s.opening && s.opening[o].Checked? && t == s.(opening := s.opening - {o})
    case Register(o, id) =>
      && Holds(s, o) && id !in s.sessions
      && t == s.(opening := s.opening - {o},
                 sessions := s.sessions[id := Session(s.opening[o].connectionId, s.opening[o].handle)])
    case EndAtOnce(o) =>
      Holds(s, o) && t == s.(opening := s.opening - {o}, closing := s.closing + {s.opening[o].handle})
    case LookupFailed(o) =>
      Holds(s, o) && t == s.(opening := s.opening - {o})
    case EndSession(id) =>
      id in s.sessions && t == s.(sessions := s.sessions - {id}, closing := s.closing + {s.sessions[id].handle})
    case Release(h) =>
      && h in s.closing && h in s.handles
      && t == if s.handles[h].released then s
              else s.(handles := s.handles[h := s.handles[h].(released := true)],
                      active := ReleaseOne(s.active, s.handles[h].connectionId))
    case Resolve(c, now) =>
      t == s.(pools := Pools(s.pools.open + {c}, s.pools.lastUsed[c := now]), resolving := s.resolving + multiset{c})
    case MarkUsed(c, now) =>
      && c in s.resolving
      && t == s.(pools := Used(s.pools, c, now), resolving := s.resolving - multiset{c})
    case Fetched(h, now) =>
      h in s.handles && t == s.(pools := Used(s.pools, s.handles[h].connectionId, now))
    case Sweep(now, after) =>
      Swept(s.pools, s.active, l.idleMs, l.poolMax, now, after) && t == s.(pools := after)
  }

  ghost predicate Run(l: Limits, events: seq<Event>, states: seq<Service>) {
    && |states| == |events| + 1 && states[0] == INITIAL
    && forall i :: 0 <= i < |events| ==> Step(l, states[i], events[i], states[i + 1])
  }

  ghost predicate CountsOf(active: map<string, int>, handles: map<nat, Handle>) {
    && (forall c :: Cursors(active, c) == |OpenHandles(handles, c)|)
    && (forall c :: c in active ==> active[c] > 0)
  }

  /** Every connection's count is the number of its unreleased cursors, and a count of zero is not kept. */
  ghost predicate CountsTrue(s: Service) {
    CountsOf(s.active, s.handles)
  }

  predicate Live(s: Service, h: nat, c: string) {
    h in s.handles && s.handles[h] == Handle(c, false) && h !in s.closing
  }

  /** What a session or a pending open holds is open, on its connection, not being closed, and held once. */
  ghost predicate HeldOnce(s: Service) {
    && (forall id :: id in s.sessions ==> Live(s, s.sessions[id].handle, s.sessions[id].connectionId))
    && (forall o :: Holds(s, o) ==> Live(s, s.opening[o].handle, s.opening[o].connectionId))
    && (forall a, b :: a in s.sessions && b in s.sessions && a != b ==> s.sessions[a].handle != s.sessions[b].handle)
    && (forall a, b :: Holds(s, a) && Holds(s, b) && a != b ==> s.opening[a].handle != s.opening[b].handle)
    && (forall a, b :: a in s.sessions && Holds(s, b) ==> s.sessions[a].handle != s.opening[b].handle)
    && (forall h :: h in s.closing ==> h in s.handles)
  }

  lemma AcquireOf(active: map<string, int>, handles: map<nat, Handle>, h: nat, c: string)
    requires CountsOf(active, handles) && h !in handles
    ensures CountsOf(Acquire(active, c), handles[h := Handle(c, false)])
  {
    var after := handles[h := Handle(c, false)];
    assert OpenHandles(after, c) == OpenHandles(handles, c) + {h};
    forall d | d != c
      ensures OpenHandles(after, d) == OpenHandles(handles, d)
    {
    }
  }

  lemma ReleaseOf(active: map<string, int>, handles: map<nat, Handle>, h: nat)
    requires CountsOf(active, handles) && h in handles && !handles[h].released
    ensures CountsOf(ReleaseOne(active, handles[h].connectionId), handles[h := handles[h].(released := true)])
  {
    var c, after := handles[h].connectionId, handles[h := handles[h].(released := true)];
    assert h in OpenHandles(handles, c);
    assert OpenHandles(after, c) == OpenHandles(handles, c) - {h};
    forall d | d != c
      ensures OpenHandles(after, d) == OpenHandles(handles, d)
    {
    }
  }

  lemma CountsStep(l: Limits, s: Service, e: Event, t: Service)
    requires CountsTrue(s) && Step(l, s, e, t)
    ensures CountsTrue(t)
  {
    hide CountsOf, Swept, Acquire, ReleaseOne;
    if e.CursorOpened? {
      AcquireOf(s.active, s.handles, e.handle, s.opening[e.open].connectionId);
    } else if e.Release? && !s.handles[e.handle].released {
      ReleaseOf(s.active, s.handles, e.handle);
    }
  }

  lemma HeldOnceBegun(s: Service, t: Service)
    requires HeldOnce(s)
    requires t == s.(opening := t.opening) || t == s.(pools := t.pools, resolving := t.resolving)
    requires forall o :: Holds(t, o) ==> Holds(s, o) && s.opening[o] == t.opening[o]
    ensures HeldOnce(t)
  {
  }

  lemma HeldOnceOpened(s: Service, t: Service, o: nat, h: nat, c: string)
    requires HeldOnce(s) && h !in s.handles
    requires t == s.(handles := s.handles[h := Handle(c, false)], active := t.active,
                     opening := s.opening[o := Holding(c, h)])
    ensures HeldOnce(t)
  {
    assert forall p :: Holds(t, p) && p != o ==> Holds(s, p) && s.opening[p] == t.opening[p];
    assert forall g, d :: Live(s, g, d) ==> Live(t, g, d) && g != h;
    assert h !in s.closing && Live(t, h, c) && t.opening[o] == Holding(c, h) && t.sessions == s.sessions;
    hide Live, Holds;
  }

  /** What is held stays held when nothing new is, and no more of it is closed. */
  lemma HeldOnceFewer(s: Service, t: Service)
    requires HeldOnce(s) && (forall h :: h in t.closing ==> h in t.handles)
    requires forall id :: id in t.sessions ==> id in s.sessions && t.sessions[id] == s.sessions[id]
    requires forall o :: Holds(t, o) ==> Holds(s, o) && t.opening[o] == s.opening[o]
    requires forall id :: id in t.sessions ==> Live(t, t.sessions[id].handle, t.sessions[id].connectionId)
    requires forall o :: Holds(t, o) ==> Live(t, t.opening[o].handle, t.opening[o].connectionId)
    ensures HeldOnce(t)
  {
    hide Live;
  }

  /** An open that gives up its cursor, closed or not. */
  lemma HeldOnceGivenUp(s: Service, o: nat, t: Service)
    requires HeldOnce(s) && Holds(s, o)
    requires t == s.(opening := s.opening - {o}, closing := t.closing)
    requires t.closing == s.closing || t.closing == s.closing + {s.opening[o].handle}
    ensures HeldOnce(t)
  {
    assert forall p :: Holds(t, p) ==> Holds(s, p) && p != o && t.opening[p] == s.opening[p];
    HeldOnceFewer(s, t);
  }

  lemma HeldOnceEnded(s: Service, id: string, t: Service)
    requires HeldOnce(s) && id in s.sessions
    requires t == s.(sessions := s.sessions - {id}, closing := s.closing + {s.sessions[id].handle})
    ensures HeldOnce(t)
  {
    assert forall o :: Holds(t, o) ==> Holds(s, o) && t.opening[o] == s.opening[o];
    HeldOnceFewer(s, t);
  }

  lemma HeldOnceReleased(s: Service, h: nat, t: Service)
    requires HeldOnce(s) && h in s.closing && h in s.handles
    requires t == s.(handles := s.handles[h := s.handles[h].(released := true)], active := t.active)
    ensures HeldOnce(t)
  {
    assert forall o :: Holds(t, o) ==> Holds(s, o) && t.opening[o] == s.opening[o];
    assert forall g, c :: Live(s, g, c) ==> g != h && Live(t, g, c);
    HeldOnceFewer(s, t);
  }

  lemma HeldOnceClosed(l: Limits, s: Service, e: Event, t: Service)
    requires HeldOnce(s) && Step(l, s, e, t) && (e.EndAtOnce? || e.LookupFailed? || e.EndSession? || e.Release?)
    ensures HeldOnce(t)
  {
    hide HeldOnce, ReleaseOne;
    if e.EndSession? {
      HeldOnceEnded(s, e.sessionId, t);
    } else if e.Release? {
      if !s.handles[e.handle].released {
        HeldOnceReleased(s, e.handle, t);
      }
    } else {
      HeldOnceGivenUp(s, e.open, t);
    }
  }

  /** The cursor of a pending open becomes a session's. */
  lemma HeldOnceRegistered(s: Service, o: nat, id: string, t: Service)
    requires HeldOnce(s) && Holds(s, o) && id !in s.sessions
    requires t == s.(opening := s.opening - {o},
                     sessions := s.sessions[id := Session(s.opening[o].connectionId, s.opening[o].handle)])
    ensures HeldOnce(t)
  {
    assert forall p :: Holds(t, p) <==> Holds(s, p) && p != o;
    assert forall p :: Holds(t, p) ==> t.opening[p] == s.opening[p];
    assert forall g, c :: Live(s, g, c) <==> Live(t, g, c);
    assert t.sessions[id].handle == s.opening[o].handle;
    hide Live, Holds;
  }

  lemma HeldOnceKept(l: Limits, s: Service, e: Event, t: Service)
    requires HeldOnce(s) && Step(l, s, e, t)
    requires e.Begin? || e.OpenFailed? || e.Resolve? || e.MarkUsed? || e.Fetched? || e.Sweep?
    ensures HeldOnce(t)
  {
    hide HeldOnce, Swept, SessionsOn, Used;
    HeldOnceBegun(s, t);
  }

  lemma HeldOnceStep(l: Limits, s: Service, e: Event, t: Service)
    requires HeldOnce(s) && Step(l, s, e, t)
    ensures HeldOnce(t)
  {
    hide HeldOnce, Swept, Acquire, ReleaseOne, SessionsOn, Used;
    if e.CursorOpened? {
      HeldOnceOpened(s, t, e.open, e.handle, s.opening[e.open].connectionId);
    } else if e.Register? {
      HeldOnceRegistered(s, e.open, e.sessionId, t);
    } else if e.EndAtOnce? || e.LookupFailed? || e.EndSession? || e.Release? {
      HeldOnceClosed(l, s, e, t);
    } else {
      HeldOnceKept(l, s, e, t);
    }
  }

  /** In every state of every run the counts are true and nothing is held twice. */
  lemma {:induction false} CountsAlwaysTrue(l: Limits, events: seq<Event>, states: seq<Service>, i: nat)
    requires Run(l, events, states) && i < |states|
    ensures CountsTrue(states[i]) && HeldOnce(states[i])
  {
    hide Step;
    if i == 0 {
      assert forall c :: OpenHandles(INITIAL.handles, c) == {};
    } else {
      CountsAlwaysTrue(l, events, states, i - 1);
      CountsStep(l, states[i - 1], events[i - 1], states[i]);
      HeldOnceStep(l, states[i - 1], events[i - 1], states[i]);
    }
  }

  /** In every state of every run, every open pool has a last use. */
  lemma {:induction false} PoolsAlwaysTracked(l: Limits, events: seq<Event>, states: seq<Service>, i: nat)
    requires Run(l, events, states) && i < |states|
    ensures states[i].pools.open <= states[i].pools.lastUsed.Keys
  {
    hide Step;
    if i > 0 {
      PoolsAlwaysTracked(l, events, states, i - 1);
      TrackedStep(l, states[i - 1], events[i - 1], states[i]);
    }
  }

  lemma TrackedStep(l: Limits, s: Service, e: Event, t: Service)
    requires Step(l, s, e, t) && s.pools.open <= s.pools.lastUsed.Keys
    ensures t.pools.open <= t.pools.lastUsed.Keys
  {
    hide Swept, Acquire, ReleaseOne, SessionsOn, Holds;
    if e.Sweep? {
      SweepBounds(s.pools, s.active, l.idleMs, l.poolMax, e.now, e.after);
    }
  }

  lemma {:induction false} SessionsAreCounted(s: Service, c: string, ids: set<string>)
    requires HeldOnce(s) && ids <= SessionsOn(s, c)
    ensures var hs := set id | id in ids :: s.sessions[id].handle; hs <= OpenHandles(s.handles, c) && |hs| == |ids|
    decreases ids
  {
    hide HeldOnce, OpenHandles;
    if ids != {} {
      var id :| id in ids;
      SessionsAreCounted(s, c, ids - {id});
      OneMoreSession(s, c, ids, id);
    }
  }

  lemma OneMoreSession(s: Service, c: string, ids: set<string>, id: string)
    requires HeldOnce(s) && ids <= SessionsOn(s, c) && id in ids
    ensures var rest, h := set j | j in ids - {id} :: s.sessions[j].handle, s.sessions[id].handle;
            && (set j | j in ids :: s.sessions[j].handle) == rest + {h}
            && h !in rest && h in OpenHandles(s.handles, c)
  {
  }

  /** A connection has at least as many counted cursors as sessions. */
  lemma SessionsWithinCount(s: Service, c: string)
    requires CountsTrue(s) && HeldOnce(s)
    ensures |SessionsOn(s, c)| <= Cursors(s.active, c)
  {
    hide HeldOnce, Cursors;
    SessionsAreCounted(s, c, SessionsOn(s, c));
    Bigger(set id | id in SessionsOn(s, c) :: s.sessions[id].handle, OpenHandles(s.handles, c));
  }

  /** As long as a session lives, no event closes the pool under it. */
  lemma {:induction false} SessionKeepsPool(
      l: Limits, events: seq<Event>, states: seq<Service>, id: string, i: nat, j: nat)
    requires Run(l, events, states) && i <= j < |states|
    requires forall k :: i <= k <= j ==> id in states[k].sessions
    requires states[i].sessions[id].connectionId in states[i].pools.open
    ensures states[j].sessions[id].connectionId in states[j].pools.open
    decreases j - i
  {
    if i < j {
      CountsAlwaysTrue(l, events, states, i);
      PoolStep(l, states[i], events[i], states[i + 1], id);
      SessionKeepsPool(l, events, states, id, i + 1, j);
    }
  }

  lemma PoolStep(l: Limits, s: Service, e: Event, t: Service, id: string)
    requires CountsTrue(s) && HeldOnce(s) && Step(l, s, e, t)
    requires id in s.sessions && id in t.sessions && s.sessions[id].connectionId in s.pools.open
    ensures t.sessions[id].connectionId in t.pools.open
  {
    hide CountsTrue, HeldOnce, Swept;
    if e.Sweep? {
      var c := s.sessions[id].connectionId;
      SessionsWithinCount(s, c);
      assert id in SessionsOn(s, c);
      SweepSparesHeld(s.pools, s.active, l.idleMs, l.poolMax, e.now, e.after, c);
    }
  }
}
