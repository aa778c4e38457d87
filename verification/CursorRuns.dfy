/** Session caps when opens overlap, and what is left when everything has been closed. */
module CursorRuns {
  import opened CursorCounts
  import opened PoolEviction
  import opened CursorAccounting

  /** At most `k` opens are past the capacity check at any time. */
  ghost predicate InFlight(states: seq<Service>, k: nat) {
    forall i :: 0 <= i < |states| ==> |states[i].opening| <= k
  }

  function Load(s: Service): nat {
    |s.sessions| + |s.opening|
  }

  function LoadOn(s: Service, c: string): nat {
    |SessionsOn(s, c)| + |OpeningsOn(s, c)|
  }

  lemma MapSizes<K, V>(m: map<K, V>, k: K, v: V)
    ensures |m[k := v]| == if k in m then |m| else |m| + 1
    ensures |m - {k}| == if k in m then |m| - 1 else |m|
  {
    assert m[k := v].Keys == m.Keys + {k};
    assert (m - {k}).Keys == m.Keys - {k};
    assert |m.Keys| == |m| && |m[k := v].Keys| == |m[k := v]| && |(m - {k}).Keys| == |m - {k}|;
  }

  lemma LoadOpening(l: Limits, s: Service, e: Event, t: Service)
    requires Step(l, s, e, t) && (e.CursorOpened? || e.OpenFailed? || e.EndAtOnce? || e.LookupFailed?)
    ensures Load(t) <= Load(s)
  {
    hide Acquire, SessionsOn;
    var o := e.open;
    MapSizes(s.opening, o, s.opening[o]);
    if e.CursorOpened? {
      MapSizes(s.opening, o, Holding(s.opening[o].connectionId, e.handle));
    }
  }

  lemma LoadSession(l: Limits, s: Service, e: Event, t: Service)
    requires Step(l, s, e, t) && (e.Register? || e.EndSession?)
    ensures Load(t) <= Load(s)
  {
    if e.Register? {
      var o := e.open;
      MapSizes(s.opening, o, s.opening[o]);
      MapSizes(s.sessions, e.sessionId, Session(s.opening[o].connectionId, s.opening[o].handle));
    } else {
      MapSizes(s.sessions, e.sessionId, s.sessions[e.sessionId]);
    }
  }

  /** Only an open that passes the capacity check adds to the load. */
  lemma LoadStep(l: Limits, s: Service, e: Event, t: Service)
    requires Step(l, s, e, t)
    ensures if e.Begin? then Load(t) == Load(s) + 1 && |s.sessions| < l.maxSessions && |t.sessions| == |s.sessions|
            else Load(t) <= Load(s)
  {
    hide Swept, Acquire, ReleaseOne, SessionsOn;
    if e.Begin? {
      MapSizes(s.opening, e.open, Checked(e.connectionId));
    } else if e.Register? || e.EndSession? {
      LoadSession(l, s, e, t);
    } else if e.CursorOpened? || e.OpenFailed? || e.EndAtOnce? || e.LookupFailed? {
      LoadOpening(l, s, e, t);
    }
  }

  lemma LoadOnOther(l: Limits, s: Service, e: Event, t: Service, c: string)
    requires Step(l, s, e, t) && !e.Begin? && !e.Register?
    ensures LoadOn(t, c) <= LoadOn(s, c)
  {
    hide Swept, Acquire, ReleaseOne, LoadOn;
    assert SessionsOn(t, c) <= SessionsOn(s, c);
    assert OpeningsOn(t, c) <= OpeningsOn(s, c);
    Fewer(s, t, c);
  }

  lemma LoadOnStep(l: Limits, s: Service, e: Event, t: Service, c: string)
    requires Step(l, s, e, t)
    ensures LoadOn(t, c) <= LoadOn(s, c) ||
            (e.Begin? && LoadOn(t, c) == LoadOn(s, c) + 1 && |SessionsOn(s, c)| < l.maxPerConnection
             && SessionsOn(t, c) == SessionsOn(s, c))
  {
    hide Swept, Acquire, ReleaseOne, LoadOn, SessionsOn;
    if e.Begin? {
      BeginLoad(l, s, e.open, e.connectionId, t, c);
    } else if e.Register? {
      RegisterLoad(s, e.open, e.sessionId, t, c);
    } else {
      LoadOnOther(l, s, e, t, c);
    }
  }

  lemma BeginLoad(l: Limits, s: Service, o: nat, d: string, t: Service, c: string)
    requires Step(l, s, Begin(o, d), t)
    ensures SessionsOn(t, c) == SessionsOn(s, c)
    ensures LoadOn(t, c) == LoadOn(s, c) + if d == c then 1 else 0
    ensures d == c ==> |SessionsOn(s, c)| < l.maxPerConnection
  {
    hide Swept, Acquire, ReleaseOne;
    OpeningAdded(s, o, d, t, c);
  }

  lemma OpeningAdded(s: Service, o: nat, d: string, t: Service, c: string)
    requires o !in s.opening && t == s.(opening := s.opening[o := Checked(d)])
    ensures SessionsOn(t, c) == SessionsOn(s, c)
    ensures LoadOn(t, c) == LoadOn(s, c) + if d == c then 1 else 0
  {
    hide OpeningsOn;
    OpeningsMore(s, o, d, t, c);
  }

  lemma OpeningsMore(s: Service, o: nat, d: string, t: Service, c: string)
    requires o !in s.opening && t.opening == s.opening[o := Checked(d)]
    ensures o !in OpeningsOn(s, c) && OpeningsOn(t, c) == OpeningsOn(s, c) + if d == c then {o} else {}
  {
  }

  lemma RegisterLoad(s: Service, o: nat, id: string, t: Service, c: string)
    requires Holds(s, o) && id !in s.sessions && t.opening == s.opening - {o}
    requires t.sessions == s.sessions[id := Session(s.opening[o].connectionId, s.opening[o].handle)]
    ensures LoadOn(t, c) == LoadOn(s, c)
  {
    hide SessionsOn, OpeningsOn;
    assert OpeningsOn(t, c) == OpeningsOn(s, c) - {o}
           && (o in OpeningsOn(s, c) <==> s.opening[o].connectionId == c) by {
      OpeningGone(s, o, t, c);
    }
    SessionAdded(s, id, s.opening[o].connectionId, s.opening[o].handle, t, c);
  }

  lemma OpeningGone(s: Service, o: nat, t: Service, c: string)
    requires o in s.opening && t.opening == s.opening - {o}
    ensures OpeningsOn(t, c) == OpeningsOn(s, c) - {o}
    ensures o in OpeningsOn(s, c) <==> s.opening[o].connectionId == c
  {
  }

  lemma SessionAdded(s: Service, id: string, d: string, h: nat, t: Service, c: string)
    requires id !in s.sessions && t.sessions == s.sessions[id := Session(d, h)]
    ensures |SessionsOn(t, c)| == |SessionsOn(s, c)| + if d == c then 1 else 0
  {
    assert SessionsOn(t, c) == SessionsOn(s, c) + if d == c then {id} else {};
  }

  lemma Fewer(s: Service, t: Service, c: string)
    requires SessionsOn(t, c) <= SessionsOn(s, c) && OpeningsOn(t, c) <= OpeningsOn(s, c)
    ensures LoadOn(t, c) <= LoadOn(s, c)
  {
    hide SessionsOn, OpeningsOn;
    Bigger(SessionsOn(t, c), SessionsOn(s, c));
    Bigger(OpeningsOn(t, c), OpeningsOn(s, c));
  }

  /** With at most `k` opens in flight, sessions and pending opens together stay under the caps plus `k - 1`. */
  lemma {:induction false} CapsUnderConcurrency(
      l: Limits, events: seq<Event>, states: seq<Service>, k: nat, i: nat, c: string)
    requires Run(l, events, states) && InFlight(states, k) && i < |states|
    ensures Load(states[i]) == 0 || Load(states[i]) <= l.maxSessions - 1 + k
    ensures LoadOn(states[i], c) == 0 || LoadOn(states[i], c) <= l.maxPerConnection - 1 + k
  {
    hide Step, Load, LoadOn;
    if i == 0 {
      assert Load(INITIAL) == 0 && LoadOn(INITIAL, c) == 0 by {
        NothingAtFirst(c);
      }
    } else {
      var s, e, t := states[i - 1], events[i - 1], states[i];
      CapsUnderConcurrency(l, events, states, k, i - 1, c);
      LoadStep(l, s, e, t);
      LoadOnStep(l, s, e, t, c);
      LoadParts(t, c);
    }
  }

  lemma NothingAtFirst(c: string)
    ensures Load(INITIAL) == 0 && LoadOn(INITIAL, c) == 0
  {
    assert SessionsOn(INITIAL, c) == {} && OpeningsOn(INITIAL, c) == {};
  }

  lemma LoadParts(t: Service, c: string)
    ensures Load(t) == |t.sessions| + |t.opening|
    ensures LoadOn(t, c) <= |SessionsOn(t, c)| + |t.opening|
  {
    Bigger(OpeningsOn(t, c), t.opening.Keys);
    assert |t.opening.Keys| == |t.opening|;
  }

  predicate WithinCap(n: nat, cap: int) {
    n == 0 || n <= cap
  }

  /** The configured cap on all sessions holds over every run exactly when opens are serial. */
  lemma CapKeptExactly(k: nat)
    ensures (forall l: Limits, events: seq<Event>, states: seq<Service>
             | Run(l, events, states) && InFlight(states, k) ::
               forall s :: s in states ==> WithinCap(|s.sessions|, l.maxSessions))
            <==> k <= 1
  {
    hide Run, SessionsOn, OpeningsOn;
    if k <= 1 {
      forall l: Limits, events: seq<Event>, states: seq<Service>, s |
        Run(l, events, states) && InFlight(states, k) && s in states
        ensures WithinCap(|s.sessions|, l.maxSessions)
      {
        var i :| 0 <= i < |states| && states[i] == s;
        CapsUnderConcurrency(l, events, states, k, i, "");
      }
    } else {
      var events, states := Overshoot();
      assert InFlight(states, k);
      assert states[6] in states && !WithinCap(|states[6].sessions|, 1);
    }
  }

  /** And so does the configured cap on the sessions of one connection. */
  lemma ConnectionCapKeptExactly(k: nat)
    ensures (forall l: Limits, events: seq<Event>, states: seq<Service>
             | Run(l, events, states) && InFlight(states, k) ::
               forall s, c :: s in states ==> WithinCap(|SessionsOn(s, c)|, l.maxPerConnection))
            <==> k <= 1
  {
    hide Run, SessionsOn, OpeningsOn;
    if k <= 1 {
      forall l: Limits, events: seq<Event>, states: seq<Service>, s, c: string |
        Run(l, events, states) && InFlight(states, k) && s in states
        ensures WithinCap(|SessionsOn(s, c)|, l.maxPerConnection)
      {
        var i :| 0 <= i < |states| && states[i] == s;
        CapsUnderConcurrency(l, events, states, k, i, c);
      }
    } else {
      var events, states := Overshoot();
      assert InFlight(states, k);
      assert states[6] in states && !WithinCap(|SessionsOn(states[6], "c")|, 1);
    }
  }

  const ONE_SESSION := Limits(1, 1, 0, 0)

  /** Two opens that both pass the capacity check before either registers its session. */
  lemma Overshoot() returns (events: seq<Event>, states: seq<Service>)
    ensures Run(ONE_SESSION, events, states) && InFlight(states, 2)
    ensures |states| == 7 && |states[6].sessions| == 2 && |SessionsOn(states[6], "c")| == 2
  {
    hide Step, InFlight, Run, SessionsOn;
    var none := Pools({}, map[]);
    var h := Handle("c", false);
    var s1 := INITIAL.(opening := map[0 := Checked("c")]);
    var s2 := INITIAL.(opening := map[0 := Checked("c"), 1 := Checked("c")]);
    var s3 := Service(map[0 := h], map["c" := 1], map[0 := Holding("c", 0), 1 := Checked("c")], map[], {}, none,
                      multiset{});
    var s4 := Service(map[0 := h, 1 := h], map["c" := 2], map[0 := Holding("c", 0), 1 := Holding("c", 1)], map[], {},
                      none, multiset{});
    var s5 := s4.(opening := map[1 := Holding("c", 1)], sessions := map["a" := Session("c", 0)]);
    var s6 := s4.(opening := map[], sessions := map["a" := Session("c", 0), "b" := Session("c", 1)]);
    BeginsBoth(s1, s2);
    OpensBoth(s2, s3, s4);
    RegistersBoth(s4, s5, s6);
    events := [Begin(0, "c"), Begin(1, "c"), CursorOpened(0, 0), CursorOpened(1, 1), Register(0, "a"),
               Register(1, "b")];
    states := [INITIAL, s1, s2, s3, s4, s5, s6];
    FewInFlight(states);
    SixSteps(ONE_SESSION, events, states);
    TwoSessions(s6);
  }

  lemma TwoSessions(s: Service)
    requires s.sessions == map["a" := Session("c", 0), "b" := Session("c", 1)]
    ensures |s.sessions| == 2 && |SessionsOn(s, "c")| == 2
  {
    assert "a"[0] != "b"[0];
    assert SessionsOn(s, "c") == {"a", "b"} && s.sessions.Keys == {"a", "b"};
  }

  lemma SixSteps(l: Limits, events: seq<Event>, states: seq<Service>)
    requires |events| == 6 && |states| == 7 && states[0] == INITIAL
    requires Step(l, states[0], events[0], states[1]) && Step(l, states[1], events[1], states[2])
    requires Step(l, states[2], events[2], states[3]) && Step(l, states[3], events[3], states[4])
    requires Step(l, states[4], events[4], states[5]) && Step(l, states[5], events[5], states[6])
    ensures Run(l, events, states)
  {
    hide Step;
  }

  lemma FewInFlight(states: seq<Service>)
    requires forall i :: 0 <= i < |states| ==> states[i].opening.Keys <= {0, 1}
    ensures InFlight(states, 2)
  {
    forall i | 0 <= i < |states| ensures |states[i].opening| <= 2 {
      Bigger(states[i].opening.Keys, {0, 1});
      assert |states[i].opening| == |states[i].opening.Keys|;
    }
  }

  lemma BeginsBoth(s1: Service, s2: Service)
    requires s1 == INITIAL.(opening := map[0 := Checked("c")])
    requires s2 == INITIAL.(opening := map[0 := Checked("c"), 1 := Checked("c")])
    ensures Step(ONE_SESSION, INITIAL, Begin(0, "c"), s1) && Step(ONE_SESSION, s1, Begin(1, "c"), s2)
  {
    assert SessionsOn(INITIAL, "c") == {} && SessionsOn(s1, "c") == {};
  }

  lemma OpensBoth(s2: Service, s3: Service, s4: Service)
    requires s2 == INITIAL.(opening := map[0 := Checked("c"), 1 := Checked("c")])
    requires s3 == s2.(handles := map[0 := Handle("c", false)], active := map["c" := 1],
                       opening := map[0 := Holding("c", 0), 1 := Checked("c")])
    requires s4 == s3.(handles := map[0 := Handle("c", false), 1 := Handle("c", false)], active := map["c" := 2],
                       opening := map[0 := Holding("c", 0), 1 := Holding("c", 1)])
    ensures Step(ONE_SESSION, s2, CursorOpened(0, 0), s3) && Step(ONE_SESSION, s3, CursorOpened(1, 1), s4)
  {
    assert Acquire(s2.active, "c") == s3.active && Acquire(s3.active, "c") == s4.active;
    assert s2.handles[0 := Handle("c", false)] == s3.handles && s3.handles[1 := Handle("c", false)] == s4.handles;
    assert s2.opening[0 := Holding("c", 0)] == s3.opening && s3.opening[1 := Holding("c", 1)] == s4.opening;
  }

  lemma RegistersBoth(s4: Service, s5: Service, s6: Service)
    requires s4.opening == map[0 := Holding("c", 0), 1 := Holding("c", 1)] && s4.sessions == map[]
    requires s5 == s4.(opening := map[1 := Holding("c", 1)], sessions := map["a" := Session("c", 0)])
    requires s6 == s4.(opening := map[], sessions := map["a" := Session("c", 0), "b" := Session("c", 1)])
    ensures Step(ONE_SESSION, s4, Register(0, "a"), s5) && Step(ONE_SESSION, s5, Register(1, "b"), s6)
  {
    hide Step;
    assert s4.opening - {0} == s5.opening && s5.opening - {1} == s6.opening;
    assert s4.sessions["a" := Session("c", 0)] == s5.sessions && s5.sessions["b" := Session("c", 1)] == s6.sessions;
    RegisterIs(ONE_SESSION, s4, 0, "a", s5);
    RegisterIs(ONE_SESSION, s5, 1, "b", s6);
  }

  lemma RegisterIs(l: Limits, s: Service, o: nat, id: string, t: Service)
    requires Holds(s, o) && id !in s.sessions
    requires t == s.(opening := s.opening - {o},
                     sessions := s.sessions[id := Session(s.opening[o].connectionId, s.opening[o].handle)])
    ensures Step(l, s, Register(o, id), t)
  {
    hide Swept, Acquire, ReleaseOne, SessionsOn;
  }

  /** One pool at most, and ten milliseconds of rest. */
  const ONE_POOL := Limits(1, 1, 10, 1)

  /** The state when only pools have been used. */
  function OnlyPools(p: Pools, resolving: multiset<string>): Service {
    INITIAL.(pools := p, resolving := resolving)
  }

  /** A request that goes on after a sweep closed its pool: the next sweep leaves two pools under a cap of one. */
  lemma SweepMissesCap() returns (events: seq<Event>, states: seq<Service>)
    ensures Run(ONE_POOL, events, states) && |events| == 7 && events[6].Sweep?
    ensures states[7].active == map[] && |states[7].pools.open| == 2
  {
    hide Swept, Step, OnlyPools;
    var p3, p4 := Pools({"b"}, map["b" := 1]), Pools({"b"}, map["a" := 2, "b" := 1]);
    var p5, p6 := Pools({"b", "c"}, map["a" := 2, "b" := 1, "c" := 3]),
      Pools({"b", "c"}, map["a" := 2, "b" := 4, "c" := 3]);
    var resolving := multiset{"b"};
    events, states := SweepClosesPool();
    MarkIs(p3, resolving + multiset{"a"}, "a", 2, p4);
    assert resolving + multiset{"a"} - multiset{"a"} == resolving;
    events, states := RunMore(ONE_POOL, events, states, MarkUsed("a", 2), OnlyPools(p4, resolving));
    ResolveIs(p4, resolving, "c", 3, p5);
    events, states := RunMore(ONE_POOL, events, states, Resolve("c", 3), OnlyPools(p5, resolving + multiset{"c"}));
    resolving := resolving + multiset{"c"};
    ResolveIs(p5, resolving, "b", 4, p6);
    events, states := RunMore(ONE_POOL, events, states, Resolve("b", 4), OnlyPools(p6, resolving + multiset{"b"}));
    resolving := resolving + multiset{"b"};
    OrphanDefeatsCap();
    SweepIs(p6, resolving, 4, p6);
    events, states := RunMore(ONE_POOL, events, states, Sweep(4, p6), OnlyPools(p6, resolving));
    OnlyPoolsIs(p6, resolving);
  }

  /** A pool is closed by a sweep while the request that resolved it is still waiting. */
  lemma SweepClosesPool() returns (events: seq<Event>, states: seq<Service>)
    ensures Run(ONE_POOL, events, states) && |events| == 3
    ensures states[3] == OnlyPools(Pools({"b"}, map["b" := 1]), multiset{"b"} + multiset{"a"})
  {
    hide Swept, Step, OnlyPools;
    var p1, p2 := Pools({"a"}, map["a" := 0]), Pools({"a", "b"}, map["a" := 0, "b" := 1]);
    var p3 := Pools({"b"}, map["b" := 1]);
    var resolving := multiset{"b"} + multiset{"a"};
    AtFirst();
    events, states := [], [INITIAL];
    ResolveIs(Pools({}, map[]), multiset{}, "a", 0, p1);
    assert multiset{} + multiset{"a"} == multiset{"a"} && multiset{"a"} + multiset{"b"} == resolving;
    events, states := RunMore(ONE_POOL, events, states, Resolve("a", 0), OnlyPools(p1, multiset{"a"}));
    ResolveIs(p1, multiset{"a"}, "b", 1, p2);
    events, states := RunMore(ONE_POOL, events, states, Resolve("b", 1), OnlyPools(p2, resolving));
    FirstSweep(p2, p3);
    SweepIs(p2, resolving, 1, p3);
    events, states := RunMore(ONE_POOL, events, states, Sweep(1, p3), OnlyPools(p3, resolving));
  }

  /** A run goes on with any step from its last state. */
  lemma RunMore(l: Limits, before: seq<Event>, reached: seq<Service>, e: Event, t: Service)
    returns (events: seq<Event>, states: seq<Service>)
    requires Run(l, before, reached) && Step(l, reached[|before|], e, t)
    ensures events == before + [e] && Run(l, events, states) && states[|events|] == t
  {
    hide Step;
    events, states := before + [e], reached + [t];
  }

  lemma AtFirst()
    ensures OnlyPools(Pools({}, map[]), multiset{}) == INITIAL
  {
  }

  lemma OnlyPoolsIs(p: Pools, resolving: multiset<string>)
    ensures OnlyPools(p, resolving).pools == p && OnlyPools(p, resolving).active == map[]
  {
  }

  lemma FirstSweep(p: Pools, q: Pools)
    requires p == Pools({"a", "b"}, map["a" := 0, "b" := 1]) && q == Pools({"b"}, map["b" := 1])
    ensures Swept(p, map[], 10, 1, 1, q)
  {
    hide Swept;
    assert |p.open| == 2;
    SweepsOne(p, 10, 1, 1, "a");
    assert Evicted(p, {"a"}) == q;
  }

  lemma ResolveIs(p: Pools, resolving: multiset<string>, c: string, now: int, q: Pools)
    requires q == Pools(p.open + {c}, p.lastUsed[c := now])
    ensures Step(ONE_POOL, OnlyPools(p, resolving), Resolve(c, now), OnlyPools(q, resolving + multiset{c}))
  {
  }

  lemma MarkIs(p: Pools, resolving: multiset<string>, c: string, now: int, q: Pools)
    requires c in resolving && q == Used(p, c, now)
    ensures Step(ONE_POOL, OnlyPools(p, resolving), MarkUsed(c, now), OnlyPools(q, resolving - multiset{c}))
  {
  }

  lemma SweepIs(p: Pools, resolving: multiset<string>, now: int, q: Pools)
    requires Swept(p, map[], 10, 1, now, q)
    ensures Step(ONE_POOL, OnlyPools(p, resolving), Sweep(now, q), OnlyPools(q, resolving))
  {
    hide Swept;
  }

  /** Cursors that are open although no session, no pending open and no close has them. */
  ghost function Lost(s: Service): set<nat> {
    set h | h in s.handles && !s.handles[h].released && h !in s.closing && !InHand(s, h)
  }

  ghost predicate InHand(s: Service, h: nat) {
    (exists id :: id in s.sessions && s.sessions[id].handle == h)
      || (exists o :: Holds(s, o) && s.opening[o].handle == h)
  }

  lemma LostBegun(l: Limits, s: Service, e: Event, t: Service)
    requires Step(l, s, e, t) && (e.Begin? || e.OpenFailed?)
    ensures Lost(t) == Lost(s)
  {
    hide SessionsOn, InHand;
    InHandSame(s, t);
  }

  lemma LostReleased(l: Limits, s: Service, h: nat, t: Service)
    requires Step(l, s, Release(h), t)
    ensures Lost(t) == Lost(s)
  {
    hide ReleaseOne, InHand;
    InHandSame(s, t);
  }

  lemma LostOpened(l: Limits, s: Service, e: Event, t: Service)
    requires HeldOnce(s) && Step(l, s, e, t) && (e.CursorOpened? || e.Register?)
    ensures Lost(t) == Lost(s)
  {
    hide Acquire, HeldOnce, InHand;
    if e.Register? {
      InHandRegistered(s, t, e.open, e.sessionId);
    } else {
      InHandOpened(s, t, e.open, e.handle);
    }
  }

  lemma LostClosed(l: Limits, s: Service, e: Event, t: Service)
    requires HeldOnce(s) && Step(l, s, e, t) && (e.EndAtOnce? || e.LookupFailed? || e.EndSession?)
    ensures Lost(t) == if e.LookupFailed? then Lost(s) + {s.opening[e.open].handle} else Lost(s)
    ensures e.LookupFailed? ==> s.opening[e.open].handle !in Lost(s)
  {
    hide HeldOnce, InHand;
    if e.EndSession? {
      InHandClosed(s, t, e.sessionId);
    } else {
      InHandEnded(s, t, e.open);
    }
  }

  lemma LostSame(s: Service, t: Service)
    requires t == s.(pools := t.pools, resolving := t.resolving)
    ensures Lost(t) == Lost(s)
  {
    hide InHand;
    InHandSame(s, t);
  }

  /** A cursor is lost only when a metadata lookup fails after it was opened, and then for good. */
  lemma LostStep(l: Limits, s: Service, e: Event, t: Service)
    requires HeldOnce(s) && Step(l, s, e, t)
    ensures e.LookupFailed? ==> Holds(s, e.open) && s.opening[e.open].handle !in Lost(s)
    ensures Lost(t) == if e.LookupFailed? then Lost(s) + {s.opening[e.open].handle} else Lost(s)
  {
    hide Lost, HeldOnce, Swept, Acquire, ReleaseOne;
    if e.CursorOpened? || e.Register? {
      LostOpened(l, s, e, t);
    } else if e.EndAtOnce? || e.LookupFailed? || e.EndSession? {
      LostClosed(l, s, e, t);
    } else if e.Begin? || e.OpenFailed? {
      LostBegun(l, s, e, t);
    } else if e.Release? {
      LostReleased(l, s, e.handle, t);
    } else {
      LostSame(s, t);
    }
  }

  lemma InHandSame(s: Service, t: Service)
    requires t.sessions == s.sessions
    requires forall o :: Holds(s, o) <==> Holds(t, o)
    requires forall o :: Holds(s, o) && Holds(t, o) ==> s.opening[o] == t.opening[o]
    ensures forall h :: InHand(s, h) <==> InHand(t, h)
  {
  }

  lemma InHandOpened(s: Service, t: Service, o: nat, h: nat)
    requires t.sessions == s.sessions && !Holds(s, o)
    requires exists c :: t.opening == s.opening[o := Holding(c, h)]
    ensures forall g :: InHand(t, g) <==> InHand(s, g) || g == h
  {
    assert Holds(t, o) && t.opening[o].handle == h;
    assert forall p :: p != o ==> (Holds(s, p) <==> Holds(t, p));
    assert forall p :: Holds(s, p) ==> s.opening[p] == t.opening[p];
  }

  lemma InHandRegistered(s: Service, t: Service, o: nat, id: string)
    requires Holds(s, o) && id !in s.sessions && t.opening == s.opening - {o}
    requires t.sessions == s.sessions[id := Session(s.opening[o].connectionId, s.opening[o].handle)]
    ensures forall h :: InHand(s, h) <==> InHand(t, h)
  {
    assert forall p :: p != o ==> (Holds(s, p) <==> Holds(t, p));
    assert forall p :: Holds(t, p) ==> s.opening[p] == t.opening[p];
    assert t.sessions[id].handle == s.opening[o].handle;
    assert forall j :: j in s.sessions ==> j in t.sessions && t.sessions[j] == s.sessions[j];
  }

  lemma InHandEnded(s: Service, t: Service, o: nat)
    requires HeldOnce(s) && Holds(s, o) && t.opening == s.opening - {o} && t.sessions == s.sessions
    ensures forall h :: InHand(t, h) <==> InHand(s, h) && h != s.opening[o].handle
    ensures InHand(s, s.opening[o].handle) && Live(s, s.opening[o].handle, s.opening[o].connectionId)
  {
    assert forall p :: p != o ==> (Holds(s, p) <==> Holds(t, p));
    assert forall p :: Holds(t, p) ==> s.opening[p] == t.opening[p];
  }

  lemma InHandClosed(s: Service, t: Service, id: string)
    requires HeldOnce(s) && id in s.sessions && t.opening == s.opening && t.sessions == s.sessions - {id}
    ensures forall h :: InHand(t, h) <==> InHand(s, h) && h != s.sessions[id].handle
    ensures InHand(s, s.sessions[id].handle)
  {
    var h := s.sessions[id].handle;
    assert forall o :: Holds(s, o) <==> Holds(t, o);
    assert forall o :: Holds(s, o) ==> s.opening[o].handle != h;
    assert forall j :: j in t.sessions ==>
           j in s.sessions && t.sessions[j] == s.sessions[j] && t.sessions[j].handle != h;
    assert forall j :: j in s.sessions && j != id ==> j in t.sessions;
  }

  function Failures(events: seq<Event>): nat {
    if events == [] then 0
    else Failures(events[..|events| - 1]) + if events[|events| - 1].LookupFailed? then 1 else 0
  }

  /** As many cursors are lost as lookups failed. */
  lemma {:induction false} LostCount(l: Limits, events: seq<Event>, states: seq<Service>)
    requires Run(l, events, states)
    ensures |Lost(states[|events|])| == Failures(events)
    decreases |events|
  {
    hide Step, HeldOnce, CountsTrue;
    var n := |events|;
    if n == 0 {
      assert Lost(INITIAL) == {};
    } else {
      LostCount(l, events[..n - 1], states[..n]);
      CountsAlwaysTrue(l, events, states, n - 1);
      LostStep(l, states[n - 1], events[n - 1], states[n]);
    }
  }

  /** Nothing pending, nothing registered, every requested close done. */
  predicate Quiet(s: Service) {
    s.opening == map[] && s.sessions == map[] && forall h :: h in s.closing && h in s.handles ==> s.handles[h].released
  }

  /** Once all is quiet no pool is pinned any more, exactly when no lookup failed on the way. */
  lemma QuietExactly(l: Limits, events: seq<Event>, states: seq<Service>)
    requires Run(l, events, states) && Quiet(states[|events|])
    ensures states[|events|].active == map[] <==> Failures(events) == 0
  {
    hide Step, HeldOnce;
    var s := states[|events|];
    LostCount(l, events, states);
    CountsAlwaysTrue(l, events, states, |events|);
    if s.active == map[] {
      assert forall h :: h in Lost(s) ==> h in OpenHandles(s.handles, s.handles[h].connectionId);
      assert Lost(s) == {};
    } else {
      var c :| c in s.active;
      assert OpenHandles(s.handles, c) != {};
      var h :| h in OpenHandles(s.handles, c);
      assert h in Lost(s);
    }
  }
}
