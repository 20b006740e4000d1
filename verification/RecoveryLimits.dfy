/** Runs whose log does not give the stores back: one for each condition recovery depends on. */
module RecoveryLimits {
  import opened Wrappers
  import opened Events
  import opened EventCaches
  import opened Numbers
  import opened EventStores
  import opened Recovery
  import LruList
  import opened Sequences

  lemma RunExtends(cfg: Settings, steps: seq<Step>, step: Step)
    ensures Run(cfg, steps + [step]) == Next(cfg, Run(cfg, steps), step)
  {
    assert (steps + [step])[..|steps + [step]| - 1] == steps;
  }

  lemma ReplayExtends(cfg: Settings, log: seq<Record>, r: Record, clocks: nat -> Clocks)
    requires Replay(cfg, log, clocks).Ok?
    ensures Replay(cfg, log + [r], clocks) == Replay1(cfg, Replay(cfg, log, clocks).value, r, clocks(|log|))
  {
    assert (log + [r])[..|log + [r]| - 1] == log;
  }

  /** A decay factor of 0 is accepted and logged, and stops every later recovery. */
  lemma ZeroDecayStopsRecovery(cfg: Settings, c: Clocks, clocks: nat -> Clocks)
    requires cfg.decayAlpha == 0.0 && c.preview.now <= c.commit.now && c.preview.wall > 0
    ensures var s := Run(cfg, [Accept(Maintain(true), c, true)]);
      && s.log == [MaintenanceRec(0.0, true)] && Replay(cfg, s.log, clocks) == Err(BadMaintenance)
  {
    RunExtends(cfg, [], Accept(Maintain(true), c, true));
    assert [] + [Accept(Maintain(true), c, true)] == [Accept(Maintain(true), c, true)];
    ReplayExtends(cfg, [], MaintenanceRec(0.0, true), clocks);
    assert [] + [MaintenanceRec(0.0, true)] == [MaintenanceRec(0.0, true)];
  }

  /** With vectors kept out of the log, metadata set on one of them stops every later recovery. */
  lemma UnloggedVectorStopsRecovery(cfg: Settings, id: Id, vec: Vector, meta: Attributes, c: Clocks, clocks: nat -> Clocks)
    requires !cfg.includeVectors && cfg.validVector(map[], id, vec) && c.preview.now <= c.commit.now && c.preview.wall > 0
    ensures var s := Run(cfg, [Accept(VecSet(id, vec, None), c, true), Apply(c.commit), Accept(MetaSet(id, meta), c, true)]);
      && s.log == [MetaSetRec(id, meta)] && Replay(cfg, s.log, clocks) == Err(UnknownId)
  {
    var a, b, d := Accept(VecSet(id, vec, None), c, true), Apply(c.commit), Accept(MetaSet(id, meta), c, true);
    RunExtends(cfg, [], a);
    RunExtends(cfg, [a], b);
    RunExtends(cfg, [a, b], d);
    assert [] + [a] == [a] && [a] + [b] == [a, b] && [a, b] + [d] == [a, b, d];
    ReplayExtends(cfg, [], MetaSetRec(id, meta), clocks);
    assert [] + [MetaSetRec(id, meta)] == [MetaSetRec(id, meta)];
  }

  // ---------- Lost events ----------

  /** An event carried through all its steps. */
  function EventSteps(ctx: string, e: Event, clock: Clock): seq<Step> {
    [Accept(Event_(ctx, e.id, e.score, e.kind, e.timestamp), Clocks(clock, clock), true), Apply(clock), Finish]
  }

  ghost predicate Ready(s: Server) { s.phase.Idle? && !s.readOnly && !s.diverged }

  function CachePart(v: View): View { v.(buffers := map[], lastAccess := map[], sequence := 0) }

  lemma AppendedKeepsCachePart(cfg: Config, v: View, ctx: string, e: Event)
    ensures CachePart(Appended(cfg, v, ctx, e)) == CachePart(v) && Appended(cfg, v, ctx, e).sequence == v.sequence + 1
  {
  }

  /** What ingestion makes of an event: the caches always record it, the store only if it was not seen. */
  lemma IngestedEvent(cfg: Config, v: View, ctx: string, e: Event, clock: Clock)
    requires Validate(ctx, e.id, e.score, e.kind).None? && e.kind != DEL && e.timestamp > 0
    ensures var r := Ingest(cfg, v, ctx, e.id, e.score, e.kind, e.timestamp, clock);
      var seen := Seen(cfg, v, ctx, e.id, e.score, e.kind, e.timestamp, clock.now);
      && r.Ok? && (r.value.Duplicate? <==> seen) && (r.value.Stored? ==> r.value.event == e)
      && CachePart(r.value.after) == CachePart(Recorded(cfg, v, ctx, e.id, e.score, e.kind, e.timestamp, clock.now))
      && r.value.after.sequence == v.sequence + (if seen then 0 else 1)
  {
    hide Appended, Seen;
    AppendedKeepsCachePart(cfg, Recorded(cfg, v, ctx, e.id, e.score, e.kind, e.timestamp, clock.now), ctx, e);
  }

  lemma EventIsProcessed(cfg: Settings, steps: seq<Step>, ctx: string, e: Event, clock: Clock)
    requires Ready(Run(cfg, steps)) && Validate(ctx, e.id, e.score, e.kind).None? && e.kind != DEL && e.timestamp > 0 && clock.wall > 0
    ensures var s, s' := Run(cfg, steps), Run(cfg, steps + EventSteps(ctx, e, clock));
      var seen := Seen(cfg.store, s.data.store, ctx, e.id, e.score, e.kind, e.timestamp, clock.now);
      var caches := Recorded(cfg.store, s.data.store, ctx, e.id, e.score, e.kind, e.timestamp, clock.now);
      && Ready(s') && s'.log == (if seen then s.log else s.log + [EventRec(ctx, e)])
      && CachePart(s'.data.store) == CachePart(caches)
      && s'.data.store.sequence == s.data.store.sequence + (if seen then 0 else 1)
  {
    hide Seen, Recorded, Ingest, CachePart;
    var x := EventSteps(ctx, e, clock);
    RunExtends(cfg, steps, x[0]);
    RunExtends(cfg, steps + [x[0]], x[1]);
    RunExtends(cfg, steps + [x[0]] + [x[1]], x[2]);
    assert steps + [x[0]] + [x[1]] + [x[2]] == steps + x;
    IngestedEvent(cfg.store, Run(cfg, steps).data.store, ctx, e, clock);
  }

  /** What a replay makes of one more event record. */
  lemma EventIsReplayed(cfg: Settings, log: seq<Record>, ctx: string, e: Event, clocks: nat -> Clocks)
    requires Replay(cfg, log, clocks).Ok? && clocks(|log|).preview == clocks(|log|).commit
    requires Validate(ctx, e.id, e.score, e.kind).None? && e.kind != DEL && e.timestamp > 0
    ensures var d, clock := Replay(cfg, log, clocks).value, clocks(|log|).commit;
      var back := Replay(cfg, log + [EventRec(ctx, e)], clocks);
      var seen := Seen(cfg.store, d.store, ctx, e.id, e.score, e.kind, e.timestamp, clock.now);
      var caches := Recorded(cfg.store, d.store, ctx, e.id, e.score, e.kind, e.timestamp, clock.now);
      && back.Ok? && CachePart(back.value.store) == CachePart(caches)
      && back.value.store.sequence == d.store.sequence + (if seen then 0 else 1)
  {
    hide Seen, Recorded, Ingest, CachePart;
    ReplayExtends(cfg, log, EventRec(ctx, e), clocks);
    IngestedEvent(cfg.store, Replay(cfg, log, clocks).value.store, ctx, e, clocks(|log|).commit);
  }

  lemma BackdatedIsLive(cfg: Settings, first: Event, second: Event, early: Clock, late: Clock)
    requires HasDedup(cfg.store) && first.kind == ADD && second == first.(timestamp := second.timestamp)
    requires Validate("c", first.id, first.score, ADD).None?
    requires 0 < second.timestamp && second.timestamp + cfg.store.dedupWindow < first.timestamp
    requires early.wall > 0 && late.wall > 0 && late.now - early.now > cfg.store.dedupWindow * NANOS_PER_SECOND
    ensures var s := Run(cfg, EventSteps("c", first, early) + EventSteps("c", second, late));
      s.log == [EventRec("c", first), EventRec("c", second)] && s.data.store.sequence == 2 && !s.diverged
  {
    hide Run, LruList.Use, Validate;
    RunOfNothing(cfg);
    EventIsProcessed(cfg, [], "c", first, early);
    EventIsProcessed(cfg, [] + EventSteps("c", first, early), "c", second, late);
    assert [] + EventSteps("c", first, early) == EventSteps("c", first, early);
    assert [EventRec("c", first)] + [EventRec("c", second)] == [EventRec("c", first), EventRec("c", second)];
  }

  /**
   An ADD event dated before an earlier one of its key, and arriving after the window, is stored and logged;
   a replay, which takes no time, drops it.
   */
  lemma BackdatedEventIsLost(cfg: Settings, first: Event, second: Event, early: Clock, late: Clock, clocks: nat -> Clocks)
    requires HasDedup(cfg.store) && first.kind == ADD && second == first.(timestamp := second.timestamp)
    requires Validate("c", first.id, first.score, ADD).None?
    requires 0 < second.timestamp && second.timestamp + cfg.store.dedupWindow < first.timestamp
    requires early.wall > 0 && late.wall > 0 && late.now - early.now > cfg.store.dedupWindow * NANOS_PER_SECOND
    requires forall i: nat :: clocks(i) == Clocks(late, late)
    ensures var s := Run(cfg, EventSteps("c", first, early) + EventSteps("c", second, late));
      && s.log == [EventRec("c", first), EventRec("c", second)] && s.data.store.sequence == 2 && !s.diverged
      && Replay(cfg, s.log, clocks).Ok? && Replay(cfg, s.log, clocks).value.store.sequence == 1
  {
    BackdatedIsLive(cfg, first, second, early, late);
    hide Run, Replay, LruList.Use, Validate;
    NothingReplayed(cfg, clocks);
    EventIsReplayed(cfg, [], "c", first, clocks);
    EventIsReplayed(cfg, [] + [EventRec("c", first)], "c", second, clocks);
    assert [] + [EventRec("c", first)] == [EventRec("c", first)];
    assert [EventRec("c", first)] + [EventRec("c", second)] == [EventRec("c", first), EventRec("c", second)];
  }

  lemma NothingReplayed(cfg: Settings, clocks: nat -> Clocks)
    ensures Replay(cfg, [], clocks) == Ok(NO_DATA)
  {
  }

  /** One use of a cache of two: what it does to a list that is empty, has room, holds the key, or is full. */
  lemma UseOfTwo<K>(order: seq<K>, m: map<K, int>, k: K, v: int)
    requires Distinct(order) && |order| <= 2 && (forall x :: x in order ==> x in m) && (forall x :: x in m ==> x in order)
    ensures k !in order && |order| < 2 ==> LruList.Use(order, k, 2) == [k] + order && UseMap(order, m, k, v, 2) == m[k := v]
    ensures k !in order && |order| == 2 ==>
      LruList.Use(order, k, 2) == [k, order[0]] && UseMap(order, m, k, v, 2) == (m - {order[1]})[k := v]
    ensures |order| == 2 && k == order[1] ==> LruList.Use(order, k, 2) == [k, order[0]] && UseMap(order, m, k, v, 2) == m[k := v]
  {
    hide UseMap, LruList.Use;
    UseMapCases(order, m, k, v, 2);
    LruList.UseCases(order, k, 2);
    if |order| == 2 { LruList.WithoutLast(order); }
  }

  /** A cache of two in action: three keys, the first of them used twice before the third comes. */
  lemma CacheOfTwo<K>(x: K, y: K, z: K, v: int)
    requires x != y && x != z && y != z
    ensures LruList.Use([], x, 2) == [x] && UseMap([], map[], x, v, 2) == map[x := v]
    ensures LruList.Use([x], y, 2) == [y, x] && UseMap([x], map[x := v], y, v, 2) == map[x := v, y := v]
    ensures LruList.Use([y, x], x, 2) == [x, y] && UseMap([y, x], map[x := v, y := v], x, v, 2) == map[x := v, y := v]
    ensures LruList.Use([x, y], z, 2) == [z, x] && UseMap([x, y], map[x := v, y := v], z, v, 2) == map[x := v, z := v]
    ensures LruList.Use([y, x], z, 2) == [z, y] && UseMap([y, x], map[x := v, y := v], z, v, 2) == map[y := v, z := v]
  {
    hide UseMap, LruList.Use;
    var two := map[x := v, y := v];
    UseOfTwo([], map[], x, v);
    UseOfTwo([x], map[x := v], y, v);
    UseOfTwo([y, x], two, x, v);
    UseOfTwo([x, y], two, z, v);
    UseOfTwo([y, x], two, z, v);
    assert two[x := v] == two && (two - {y})[z := v] == map[x := v, z := v] && (two - {x})[z := v] == map[y := v, z := v];
  }

  ghost predicate States(v: View, order: seq<StateKey>, states: map<StateKey, int>) { v.stateOrder == order && v.states == states }

  lemma SetIsRecorded(cfg: Config, v: View, w: View, e: Event, now: int)
    requires HasState(cfg) && e.kind == SET && CachePart(w) == CachePart(Recorded(cfg, v, "c", e.id, e.score, e.kind, e.timestamp, now))
    ensures States(w, LruList.Use(v.stateOrder, StateKey("c", e.id), Capacity(cfg.dedupCacheSize)),
                   UseMap(v.stateOrder, v.states, StateKey("c", e.id), e.score, cfg.dedupCacheSize))
    ensures Seen(cfg, v, "c", e.id, e.score, e.kind, e.timestamp, now)
      <==> StateKey("c", e.id) in v.states && v.states[StateKey("c", e.id)] == e.score
  {
    hide LruList.Use, UseMap;
    assert w.stateOrder == CachePart(w).stateOrder && w.states == CachePart(w).states;
  }

  /** Live: in a cache of two, a repeated `x` keeps its place, so `z` pushes out `y` and a second `y` is new. */
  lemma LiveEviction(cfg: Settings, x: Event, y: Event, z: Event, clock: Clock) returns (steps: seq<Step>)
    requires cfg.store.dedupCacheSize == 2 && clock.wall > 0 && x.id != y.id && x.id != z.id && y.id != z.id
    requires forall e :: e in {x, y, z} ==> Validate("c", e.id, e.score, SET).None? && e.kind == SET && e.timestamp > 0 && e.score == x.score
    ensures var s := Run(cfg, steps);
      !s.diverged && s.data.store.sequence == 4
      && s.log == [EventRec("c", x), EventRec("c", y), EventRec("c", z), EventRec("c", y)]
  {
    hide Run, Seen, Recorded, CachePart, LruList.Use, UseMap, Validate;
    var kx, ky, kz := StateKey("c", x.id), StateKey("c", y.id), StateKey("c", z.id);
    CacheOfTwo(kx, ky, kz, x.score);
    steps := [];
    RunOfNothing(cfg);
    var events := [x, y, x, z, y];
    var i := 0;
    while i < 5
      invariant 0 <= i <= 5 && Ready(Run(cfg, steps))
      invariant var v := Run(cfg, steps).data.store;
        && v.sequence == [0, 1, 2, 2, 3, 4][i]
        && (i == 0 ==> States(v, [], map[])) && (i == 1 ==> States(v, [kx], map[kx := x.score]))
        && (i == 2 ==> States(v, [ky, kx], map[kx := x.score, ky := x.score]))
        && (i == 3 ==> States(v, [kx, ky], map[kx := x.score, ky := x.score]))
        && (i == 4 ==> States(v, [kz, kx], map[kx := x.score, kz := x.score]))
      invariant Run(cfg, steps).log ==
        [EventRec("c", x), EventRec("c", y), EventRec("c", z), EventRec("c", y)][..[0, 1, 2, 2, 3, 4][i]]
    {
      var e := events[i];
      EventIsProcessed(cfg, steps, "c", e, clock);
      SetIsRecorded(cfg.store, Run(cfg, steps).data.store, Run(cfg, steps + EventSteps("c", e, clock)).data.store, e, clock.now);
      steps, i := steps + EventSteps("c", e, clock), i + 1;
    }
  }

  lemma RunOfNothing(cfg: Settings)
    ensures Run(cfg, []) == FRESH
  {
  }

  /** Replayed: the repeat is not in the log, so `z` pushes out `x` instead and the second `y` is dropped. */
  lemma ReplayedEviction(cfg: Settings, x: Event, y: Event, z: Event, clocks: nat -> Clocks)
    requires cfg.store.dedupCacheSize == 2 && x.id != y.id && x.id != z.id && y.id != z.id
    requires forall i: nat :: clocks(i).preview == clocks(i).commit
    requires forall e :: e in {x, y, z} ==> Validate("c", e.id, e.score, SET).None? && e.kind == SET && e.timestamp > 0 && e.score == x.score
    ensures var back := Replay(cfg, [EventRec("c", x), EventRec("c", y), EventRec("c", z), EventRec("c", y)], clocks);
      back.Ok? && back.value.store.sequence == 3
  {
    hide Replay, Seen, Recorded, CachePart, LruList.Use, UseMap, Validate;
    var kx, ky, kz := StateKey("c", x.id), StateKey("c", y.id), StateKey("c", z.id);
    CacheOfTwo(kx, ky, kz, x.score);
    var log: seq<Record> := [];
    ReplayOfNothing(cfg, clocks);
    var events := [x, y, z, y];
    var i := 0;
    while i < 4
      invariant 0 <= i <= 4 && Replay(cfg, log, clocks).Ok?
      invariant log == [EventRec("c", x), EventRec("c", y), EventRec("c", z), EventRec("c", y)][..i]
      invariant var v := Replay(cfg, log, clocks).value.store;
        && v.sequence == [0, 1, 2, 3, 3][i]
        && (i == 0 ==> States(v, [], map[])) && (i == 1 ==> States(v, [kx], map[kx := x.score]))
        && (i == 2 ==> States(v, [ky, kx], map[kx := x.score, ky := x.score]))
        && (i == 3 ==> States(v, [kz, ky], map[ky := x.score, kz := x.score]))
    {
      var e := events[i];
      EventIsReplayed(cfg, log, "c", e, clocks);
      SetIsRecorded(cfg.store, Replay(cfg, log, clocks).value.store, Replay(cfg, log + [EventRec("c", e)], clocks).value.store,
                    e, clocks(|log|).commit.now);
      log, i := log + [EventRec("c", e)], i + 1;
    }
    assert log == [EventRec("c", x), EventRec("c", y), EventRec("c", z), EventRec("c", y)];
  }

  lemma ReplayOfNothing(cfg: Settings, clocks: nat -> Clocks)
    ensures Replay(cfg, [], clocks) == Ok(NO_DATA)
  {
  }
}
