/**
 When the deduplication caches can be rebuilt from the log: if they never evict and event times never run
 backwards, the log alone determines them, no acceptance diverges and every replay is exact.
 */
module LogCaches {
  import opened Wrappers
  import opened Events
  import opened EventCaches
  import opened Numbers
  import opened EventStores
  import opened Recovery
  import opened CrashSafety
  import opened Sets
  import opened Sequences
  import LruList

  /** The time of the last logged ADD event of each key. */
  function LatestAdds(log: seq<Record>): map<EventKey, nat>
    decreases |log|
  {
    if log == [] then map[]
    else
      var r, m := log[|log| - 1], LatestAdds(log[..|log| - 1]);
      if r.EventRec? && r.e.kind == ADD then m[EventKey(r.ctx, r.e.id, r.e.score) := r.e.timestamp] else m
  }

  /** The last logged state of each item of a context. */
  function LastStates(log: seq<Record>): map<StateKey, int>
    decreases |log|
  {
    if log == [] then map[]
    else
      var r, m := log[|log| - 1], LastStates(log[..|log| - 1]);
      if r.EventRec? && r.e.kind != ADD then m[StateKey(r.ctx, r.e.id) := if r.e.kind == SET then r.e.score else DELETED] else m
  }

  /** The caches, as far as there are any, have room for every key that was logged. */
  predicate Fits(cfg: Config, log: seq<Record>) {
    && (HasDedup(cfg) ==> |LatestAdds(log)| <= cfg.dedupCacheSize)
    && (HasState(cfg) ==> |LastStates(log)| <= cfg.dedupCacheSize)
  }

  predicate FreshEvent(cfg: Config, log: seq<Record>, ctx: string, e: Event) {
    match e.kind
    case ADD =>
      var key := EventKey(ctx, e.id, e.score);
      HasDedup(cfg) && key in LatestAdds(log) ==> e.timestamp > LatestAdds(log)[key] + cfg.dedupWindow
    case SET => HasState(cfg) && StateKey(ctx, e.id) in LastStates(log) ==> LastStates(log)[StateKey(ctx, e.id)] != e.score
    case DEL => HasState(cfg) && StateKey(ctx, e.id) in LastStates(log) ==> LastStates(log)[StateKey(ctx, e.id)] != DELETED
  }

  /** Every logged event is new with respect to the ones before it. */
  predicate Spaced(cfg: Config, log: seq<Record>)
    decreases |log|
  {
    log == [] ||
      (Spaced(cfg, log[..|log| - 1])
       && (log[|log| - 1].EventRec? ==> FreshEvent(cfg, log[..|log| - 1], log[|log| - 1].ctx, log[|log| - 1].e)))
  }

  function Times(stamps: map<EventKey, Stamp>): map<EventKey, nat> { map k | k in stamps :: stamps[k].timestamp }

  ghost predicate Ordered<K, V>(order: seq<K>, m: map<K, V>) {
    && Distinct(order)
    && (forall k :: k in order ==> k in m)
    && (forall k :: k in m ==> k in order)
  }

  /** The caches hold what the log says. */
  ghost predicate CachesAt(cfg: Config, v: View, log: seq<Record>) {
    && (HasDedup(cfg) ==> Ordered(v.dedupOrder, v.stamps) && Times(v.stamps) == LatestAdds(log))
    && (HasState(cfg) ==> Ordered(v.stateOrder, v.states) && v.states == LastStates(log))
  }

  lemma OrderedSize<K, V>(order: seq<K>, m: map<K, V>)
    requires Ordered(order, m)
    ensures |order| == |m|
  {
    LruList.DistinctCount(order, m.Keys);
  }

  /** A cache with room for its key keeps everything else. */
  lemma UseFits<K, V>(order: seq<K>, m: map<K, V>, k: K, v: V, size: nat)
    requires Ordered(order, m) && |m[k := v]| <= size
    ensures UseMap(order, m, k, v, size) == m[k := v]
    ensures Ordered(LruList.Use(order, k, Capacity(size)), m[k := v])
  {
    hide UseMap, LruList.Use, LruList.Without;
    OrderedSize(order, m);
    assert m[k := v].Keys == m.Keys + {k};
    assert k !in m ==> |m.Keys + {k}| == |m| + 1;
    assert k in m ==> m.Keys + {k} == m.Keys;
    assert |m[k := v]| == |m[k := v].Keys|;
    UseMapCases(order, m, k, v, size);
    LruList.UseCases(order, k, Capacity(size));
    LruList.WithoutMembers(order, k);
    var order' := [k] + LruList.Without(order, k);
    assert order'[1..] == LruList.Without(order, k);
  }

  lemma LogCachesGrow(log: seq<Record>, r: Record)
    ensures (log + [r])[..|log + [r]| - 1] == log
    ensures forall k :: k in LatestAdds(log) ==> k in LatestAdds(log + [r])
    ensures forall k :: k in LastStates(log) ==> k in LastStates(log + [r])
  {
    assert (log + [r])[..|log + [r]| - 1] == log;
  }

  lemma FitsBefore(cfg: Config, log: seq<Record>, r: Record)
    requires Fits(cfg, log + [r])
    ensures Fits(cfg, log)
  {
    LogCachesGrow(log, r);
    SubsetSize(LatestAdds(log).Keys, LatestAdds(log + [r]).Keys);
    SubsetSize(LastStates(log).Keys, LastStates(log + [r]).Keys);
  }

  /** An unseen event changes the caches as its record changes the log. */
  lemma UnseenIsRecorded(cfg: Config, v: View, log: seq<Record>, ctx: string, e: Event, now: int)
    requires CachesAt(cfg, v, log) && Fits(cfg, log + [EventRec(ctx, e)])
    requires !Seen(cfg, v, ctx, e.id, e.score, e.kind, e.timestamp, now)
    ensures CachesAt(cfg, Recorded(cfg, v, ctx, e.id, e.score, e.kind, e.timestamp, now), log + [EventRec(ctx, e)])
  {
    hide Ordered, UseMap, LruList.Use;
    LogCachesGrow(log, EventRec(ctx, e));
    if e.kind == ADD {
      if HasDedup(cfg) {
        var key, stamp := EventKey(ctx, e.id, e.score), Stamp(e.timestamp, now);
        assert Times(v.stamps[key := stamp]) == LatestAdds(log)[key := e.timestamp];
        SameKeys(v.stamps[key := stamp], LatestAdds(log)[key := e.timestamp]);
        UseFits(v.dedupOrder, v.stamps, key, stamp, cfg.dedupCacheSize);
      }
    } else if HasState(cfg) {
      UseFits(v.stateOrder, v.states, StateKey(ctx, e.id), if e.kind == SET then e.score else DELETED, cfg.dedupCacheSize);
    }
  }

  lemma SameKeys<K, V, W>(m: map<K, V>, n: map<K, W>)
    requires forall k :: k in m <==> k in n
    ensures |m| == |n|
  {
    assert m.Keys == n.Keys;
    assert |m| == |m.Keys| && |n| == |n.Keys|;
  }

  /** A duplicate leaves recorded times and states as they are. */
  lemma SeenIsNotRecorded(cfg: Config, v: View, log: seq<Record>, ctx: string, id: Id, score: int, kind: EventType, timestamp: nat, now: int)
    requires CachesAt(cfg, v, log) && Fits(cfg, log)
    requires Seen(cfg, v, ctx, id, score, kind, timestamp, now)
    ensures CachesAt(cfg, Recorded(cfg, v, ctx, id, score, kind, timestamp, now), log)
  {
    hide Ordered, UseMap, LruList.Use, LatestAdds, LastStates, WithinWindow;
    if kind == ADD {
      var key := EventKey(ctx, id, score);
      var stamp := Stamp(v.stamps[key].timestamp, now);
      assert Times(v.stamps[key := stamp]) == Times(v.stamps);
      SameKeys(v.stamps[key := stamp], LatestAdds(log));
      UseFits(v.dedupOrder, v.stamps, key, stamp, cfg.dedupCacheSize);
    } else {
      var key, state := StateKey(ctx, id), if kind == SET then score else DELETED;
      assert v.states[key := state] == v.states;
      UseFits(v.stateOrder, v.states, key, state, cfg.dedupCacheSize);
    }
  }

  lemma AppendedKeepsCaches(cfg: Config, v: View, log: seq<Record>, ctx: string, e: Event)
    requires CachesAt(cfg, v, log)
    ensures CachesAt(cfg, Appended(cfg, v, ctx, e), log)
    ensures Appended(cfg, v, ctx, e).states == v.states
  {
    hide Ordered, LatestAdds, LastStates;
  }

  /** Other records do not concern the caches. */
  lemma OtherRecords(cfg: Config, v: View, log: seq<Record>, r: Record)
    requires CachesAt(cfg, v, log) && !r.EventRec?
    ensures CachesAt(cfg, v, log + [r])
    ensures Spaced(cfg, log) ==> Spaced(cfg, log + [r])
  {
    hide Ordered;
    LogCachesGrow(log, r);
  }

  /** Against caches that match the log, an event is unseen exactly when it is new to the log, unless its time runs backwards. */
  lemma UnseenIsFresh(cfg: Config, v: View, log: seq<Record>, ctx: string, e: Event, now: int)
    requires CachesAt(cfg, v, log)
    requires NotBackwards(cfg, log, ctx, e.id, e.score, e.kind, e.timestamp)
    ensures !Seen(cfg, v, ctx, e.id, e.score, e.kind, e.timestamp, now) <==> FreshEvent(cfg, log, ctx, e)
  {
    hide Ordered, LatestAdds, LastStates;
    var key := EventKey(ctx, e.id, e.score);
    if e.kind == ADD && HasDedup(cfg) {
      assert key in v.stamps <==> key in Times(v.stamps);
    }
  }

  // ---------- Replay ----------

  lemma ReplayedEvent(cfg: Settings, d: Data, log: seq<Record>, r: Record, c: Clocks)
    requires CachesAt(cfg.store, d.store, log) && Fits(cfg.store, log + [r]) && r.EventRec?
    requires FreshEvent(cfg.store, log, r.ctx, r.e) && r.e.timestamp > 0 && Validate(r.ctx, r.e.id, r.e.score, r.e.kind).None?
    requires r.e.kind == DEL ==> r.e.score == 0
    ensures !Dropped(cfg, d, r, c) && Replay1(cfg, d, r, c).Ok?
    ensures CachesAt(cfg.store, Replay1(cfg, d, r, c).value.store, log + [r])
  {
    hide CachesAt, Fits, FreshEvent, Seen, Appended, Recorded, LatestAdds;
    var e := r.e;
    FreshIsForward(cfg.store, log, r.ctx, e);
    UnseenIsFresh(cfg.store, d.store, log, r.ctx, e, c.preview.now);
    UnseenIsFresh(cfg.store, d.store, log, r.ctx, e, c.commit.now);
    UnseenIsRecorded(cfg.store, d.store, log, r.ctx, e, c.commit.now);
    var w := Recorded(cfg.store, d.store, r.ctx, e.id, e.score, e.kind, e.timestamp, c.commit.now);
    AppendedKeepsCaches(cfg.store, w, log + [r], r.ctx, e);
  }

  lemma FreshIsForward(cfg: Config, log: seq<Record>, ctx: string, e: Event)
    requires FreshEvent(cfg, log, ctx, e)
    ensures NotBackwards(cfg, log, ctx, e.id, e.score, e.kind, e.timestamp)
  {
  }

  /** A log of new events whose keys fit is replayed exactly, caches included. */
  lemma {:induction false} SpacedLogReplays(cfg: Settings, log: seq<Record>, clocks: nat -> Clocks)
    requires LogValid(cfg, log) && 0.0 <= cfg.decayAlpha <= 1.0 && ClocksForward(clocks)
    requires Recoverable(cfg, log) && Spaced(cfg.store, log) && Fits(cfg.store, log)
    ensures NoneDropped(cfg, log, clocks) && Replay(cfg, log, clocks).Ok?
    ensures CachesAt(cfg.store, Replay(cfg, log, clocks).value.store, log)
    decreases |log|
  {
    if log != [] {
      hide CachesAt, Fits, FreshEvent, Dropped, LatestAdds, LastStates, Effects, Consistent, ClocksForward, Matches;
      var n := |log| - 1;
      var init, r := log[..n], log[n];
      assert log == init + [r];
      FitsBefore(cfg.store, init, r);
      SpacedLogReplays(cfg, init, clocks);
      var d := Replay(cfg, init, clocks).value;
      if r.EventRec? {
        ReplayedEvent(cfg, d, init, r, clocks(n));
      } else {
        OtherRecords(cfg.store, d.store, init, r);
        assert NoneDropped(cfg, log, clocks) by { NotAnEvent(cfg, d, r, clocks(n)); }
        ReplayIsOk(cfg, log, clocks);
        OtherReplay(cfg, d, r, clocks(n));
      }
    } else {
      EmptyCaches(cfg);
    }
  }

  lemma EmptyCaches(cfg: Settings)
    ensures CachesAt(cfg.store, NO_DATA.store, [])
  {
  }

  lemma NotAnEvent(cfg: Settings, d: Data, r: Record, c: Clocks)
    ensures !r.EventRec? ==> !Dropped(cfg, d, r, c)
  {
  }

  lemma ReplayIsOk(cfg: Settings, log: seq<Record>, clocks: nat -> Clocks)
    requires LogValid(cfg, log) && 0.0 <= cfg.decayAlpha <= 1.0 && ClocksForward(clocks)
    requires Recoverable(cfg, log) && NoneDropped(cfg, log, clocks)
    ensures Replay(cfg, log, clocks).Ok?
  {
    GoodReplay(cfg, log, clocks);
  }

  lemma OtherReplay(cfg: Settings, d: Data, r: Record, c: Clocks)
    requires !r.EventRec? && Replay1(cfg, d, r, c).Ok?
    ensures Replay1(cfg, d, r, c).value.store == d.store
  {
  }

  // ---------- Exactly which logs ----------

  /** A replay that starts at `start` and is over before the deduplication window is. */
  ghost predicate WithinTheWindow(cfg: Settings, clocks: nat -> Clocks, start: int) {
    forall i: nat ::
      start <= clocks(i).preview.now <= clocks(i).commit.now <= start + cfg.store.dedupWindow * NANOS_PER_SECOND
  }

  predicate SeenSince(v: View, start: int) { forall k :: k in v.stamps ==> v.stamps[k].lastSeen >= start }

  lemma RecordedSince(cfg: Config, v: View, ctx: string, e: Event, now: int, start: int)
    requires SeenSince(v, start) && now >= start
    ensures var w := Recorded(cfg, v, ctx, e.id, e.score, e.kind, e.timestamp, now);
      SeenSince(w, start) && SeenSince(Appended(cfg, w, ctx, e), start)
  {
    hide LruList.Use, Seen;
    AppendedKeepsStamps(cfg, Recorded(cfg, v, ctx, e.id, e.score, e.kind, e.timestamp, now), ctx, e);
  }

  lemma AppendedKeepsStamps(cfg: Config, v: View, ctx: string, e: Event)
    ensures Appended(cfg, v, ctx, e).stamps == v.stamps
  {
  }

  /** While the window lasts, an event dated before the recorded one of its key is taken for a duplicate. */
  lemma BackwardsIsSeen(cfg: Config, v: View, log: seq<Record>, ctx: string, e: Event, now: int, start: int)
    requires CachesAt(cfg, v, log) && SeenSince(v, start) && now <= start + cfg.dedupWindow * NANOS_PER_SECOND
    requires !Seen(cfg, v, ctx, e.id, e.score, e.kind, e.timestamp, now)
    ensures NotBackwards(cfg, log, ctx, e.id, e.score, e.kind, e.timestamp)
  {
    hide Ordered, LatestAdds, LastStates;
    var key := EventKey(ctx, e.id, e.score);
    assert HasDedup(cfg) ==> (key in v.stamps <==> key in Times(v.stamps));
  }

  lemma ReplayedSince(cfg: Settings, d: Data, r: Record, c: Clocks, start: int)
    requires SeenSince(d.store, start) && c.commit.now >= start && Replay1(cfg, d, r, c).Ok?
    requires r.EventRec? ==> !Dropped(cfg, d, r, c) && r.e.timestamp > 0 && (r.e.kind == DEL ==> r.e.score == 0)
    ensures SeenSince(Replay1(cfg, d, r, c).value.store, start)
  {
    hide Seen, Recorded, Appended, SeenSince;
    if r.EventRec? { RecordedSince(cfg.store, d.store, r.ctx, r.e, c.commit.now, start); } else { OtherReplay(cfg, d, r, c); }
  }

  /** Within the window, a log none of whose events is dropped holds only new events. */
  lemma {:induction false} UndroppedIsSpaced(cfg: Settings, log: seq<Record>, clocks: nat -> Clocks, start: int)
    requires LogValid(cfg, log) && 0.0 <= cfg.decayAlpha <= 1.0 && WithinTheWindow(cfg, clocks, start)
    requires Recoverable(cfg, log) && NoneDropped(cfg, log, clocks) && Fits(cfg.store, log)
    ensures Spaced(cfg.store, log) && Replay(cfg, log, clocks).Ok?
    ensures var v := Replay(cfg, log, clocks).value.store; CachesAt(cfg.store, v, log) && SeenSince(v, start)
    decreases |log|
  {
    if log == [] {
      EmptyCaches(cfg);
    } else {
      hide CachesAt, Fits, FreshEvent, Dropped, LatestAdds, LastStates, Effects, Consistent, Matches, SeenSince, Replay1;
      var n := |log| - 1;
      var init, r := log[..n], log[n];
      assert log == init + [r];
      FitsBefore(cfg.store, init, r);
      UndroppedIsSpaced(cfg, init, clocks, start);
      ReplayIsOk(cfg, log, clocks);
      var d := Replay(cfg, init, clocks).value;
      assert clocks(n).preview.now <= start + cfg.store.dedupWindow * NANOS_PER_SECOND && clocks(n).commit.now >= start;
      ReplayedSince(cfg, d, r, clocks(n), start);
      if r.EventRec? {
        UndroppedIsFresh(cfg, d, init, r, clocks(n), start);
        ReplayedEvent(cfg, d, init, r, clocks(n));
      } else {
        OtherRecords(cfg.store, d.store, init, r);
        OtherReplay(cfg, d, r, clocks(n));
      }
    }
  }

  lemma UndroppedIsFresh(cfg: Settings, d: Data, log: seq<Record>, r: Record, c: Clocks, start: int)
    requires r.EventRec? && !Dropped(cfg, d, r, c) && r.e.timestamp > 0 && CachesAt(cfg.store, d.store, log)
    requires SeenSince(d.store, start) && c.preview.now <= start + cfg.store.dedupWindow * NANOS_PER_SECOND
    ensures FreshEvent(cfg.store, log, r.ctx, r.e)
  {
    hide CachesAt, Seen, FreshEvent, SeenSince;
    BackwardsIsSeen(cfg.store, d.store, log, r.ctx, r.e, c.preview.now, start);
    UnseenIsFresh(cfg.store, d.store, log, r.ctx, r.e, c.preview.now);
  }

  /**
   Where the caches have room for every key and replay takes no longer than the deduplication window, recovery
   rebuilds what was logged exactly when the log itself is right: no zero decay, no record about unlogged vectors, and
   every event new with respect to the ones before it.
   */
  lemma RecoveryIffSpaced(cfg: Settings, log: seq<Record>, clocks: nat -> Clocks, start: int)
    requires LogValid(cfg, log) && 0.0 <= cfg.decayAlpha <= 1.0 && WithinTheWindow(cfg, clocks, start) && Fits(cfg.store, log)
    ensures (Replay(cfg, log, clocks).Ok? && Matches(cfg, Replay(cfg, log, clocks).value, Effects(cfg, log)))
      <==> (Recoverable(cfg, log) && Spaced(cfg.store, log))
  {
    assert ClocksForward(clocks);
    RecoveryIsExact(cfg, log, clocks);
    hide Replay, LogValid, Matches, Effects, Fits, Spaced, NoneDropped, Recoverable, WithinTheWindow;
    if Recoverable(cfg, log) && Spaced(cfg.store, log) { SpacedLogReplays(cfg, log, clocks); }
    if Recoverable(cfg, log) && NoneDropped(cfg, log, clocks) { UndroppedIsSpaced(cfg, log, clocks, start); }
  }

  // ---------- Live ----------

  /** Where times are compared at all, an event's lies no earlier than the last logged one of its key. */
  predicate NotBackwards(cfg: Config, log: seq<Record>, ctx: string, id: Id, score: int, kind: EventType, timestamp: nat) {
    HasDedup(cfg) && kind == ADD && EventKey(ctx, id, score) in LatestAdds(log) ==> timestamp >= LatestAdds(log)[EventKey(ctx, id, score)]
  }

  predicate ForwardStep(cfg: Config, log: seq<Record>, step: Step) {
    step.Accept? && step.cmd.Event_? ==>
      var cmd := step.cmd;
      NotBackwards(cfg, log, cmd.ctx, cmd.id, cmd.score, cmd.kind, Resolve(cmd.timestamp, step.clocks.preview))
  }

  ghost predicate Forward(cfg: Settings, steps: seq<Step>)
    decreases |steps|
  {
    steps == [] || (Forward(cfg, steps[..|steps| - 1]) && ForwardStep(cfg.store, Run(cfg, steps[..|steps| - 1]).log, steps[|steps| - 1]))
  }

  ghost predicate CachesLive(cfg: Settings, s: Server) {
    && !s.diverged && Spaced(cfg.store, s.log)
    && CachesAt(cfg.store, s.data.store, if s.phase.Accepted? && s.phase.r.EventRec? then Front(s.log) else s.log)
  }

  /** Preview and commit agree on whether an event is a duplicate, and the log takes only new events. */
  lemma PreviewAgrees(cfg: Settings, v: View, log: seq<Record>, ctx: string, id: Id, score: int, kind: EventType, ts: nat, c: Clocks)
    requires CachesAt(cfg.store, v, log) && Validate(ctx, id, score, kind).None?
    requires NotBackwards(cfg.store, log, ctx, id, score, kind, ts)
    ensures Seen(cfg.store, v, ctx, id, score, kind, ts, c.preview.now) <==> Seen(cfg.store, v, ctx, id, score, kind, ts, c.commit.now)
    ensures var r := EventRec(ctx, Event(id, if kind == DEL then 0 else score, ts, kind));
      Spaced(cfg.store, log) && !Seen(cfg.store, v, ctx, id, score, kind, ts, c.preview.now) ==>
        Spaced(cfg.store, log + [r]) && Front(log + [r]) == log
  {
    hide CachesAt, FreshEvent, Seen, LatestAdds, LastStates;
    var e := Event(id, if kind == DEL then 0 else score, ts, kind);
    PreviewedEvent(cfg, v, ctx, id, score, kind, ts, c.preview.now);
    PreviewedEvent(cfg, v, ctx, id, score, kind, ts, c.commit.now);
    UnseenIsFresh(cfg.store, v, log, ctx, e, c.preview.now);
    UnseenIsFresh(cfg.store, v, log, ctx, e, c.commit.now);
    LogCachesGrow(log, EventRec(ctx, e));
  }

  lemma AcceptedEventCaches(cfg: Settings, s: Server, cmd: Command, c: Clocks, walOk: bool)
    requires CachesLive(cfg, s) && s.phase.Idle? && cmd.Event_? && c.preview.wall > 0
    requires NotBackwards(cfg.store, s.log, cmd.ctx, cmd.id, cmd.score, cmd.kind, Resolve(cmd.timestamp, c.preview))
    requires Fits(cfg.store, s.log)
    ensures CachesLive(cfg, AcceptCommand(cfg, s, cmd, c, walOk))
  {
    hide CachesAt, Fits, Spaced, Seen, Appended, Recorded, NotBackwards, Front;
    if Validate(cmd.ctx, cmd.id, cmd.score, cmd.kind).None? {
      var ts := Resolve(cmd.timestamp, c.preview);
      PreviewAgrees(cfg, s.data.store, s.log, cmd.ctx, cmd.id, cmd.score, cmd.kind, ts, c);
      if Seen(cfg.store, s.data.store, cmd.ctx, cmd.id, cmd.score, cmd.kind, ts, c.commit.now) {
        SeenIsNotRecorded(cfg.store, s.data.store, s.log, cmd.ctx, cmd.id, cmd.score, cmd.kind, ts, c.commit.now);
      }
    }
  }

  lemma AcceptedOtherCaches(cfg: Settings, s: Server, cmd: Command, c: Clocks, walOk: bool)
    requires CachesLive(cfg, s) && s.phase.Idle? && !cmd.Event_?
    ensures CachesLive(cfg, AcceptCommand(cfg, s, cmd, c, walOk))
  {
    hide CachesAt, Spaced;
    match cmd {
      case Event_(_, _, _, _, _) => assert false;
      case VecSet(id, vec, given) => OtherRecords(cfg.store, s.data.store, s.log, VecSetRec(id, vec, given));
      case VecDel(id) => OtherRecords(cfg.store, s.data.store, s.log, VecDelRec(id));
      case MetaSet(id, meta) => OtherRecords(cfg.store, s.data.store, s.log, MetaSetRec(id, meta));
      case Maintain(prune) => OtherRecords(cfg.store, s.data.store, s.log, MaintenanceRec(cfg.decayAlpha, prune));
    }
  }

  lemma AppliedCaches(cfg: Settings, s: Server, clock: Clock)
    requires Live(cfg, s) && CachesLive(cfg, s) && Fits(cfg.store, s.log)
    requires s.phase.Accepted? && s.phase.since <= clock.now
    ensures CachesLive(cfg, ApplyRecord(cfg, s, s.phase.r, clock))
  {
    hide CachesAt, Fits, Spaced, Seen, Appended, Recorded, Consistent, LogValid, Effects, Matches;
    var r := s.phase.r;
    if r.EventRec? {
      var d, e := s.data, r.e;
      assert s.log == Front(s.log) + [r];
      UnseenStaysUnseen(cfg.store, d.store, r.ctx, e.id, e.score, e.kind, e.timestamp, s.phase.since, clock.now);
      UnseenIsRecorded(cfg.store, d.store, Front(s.log), r.ctx, e, clock.now);
      AppendedKeepsCaches(cfg.store, Recorded(cfg.store, d.store, r.ctx, e.id, e.score, e.kind, e.timestamp, clock.now), s.log, r.ctx, e);
    }
  }

  lemma LogOnlyGrows(cfg: Settings, s: Server, step: Step) returns (r: Record)
    ensures var s' := Next(cfg, s, step); s'.log == s.log || s'.log == s.log + [r]
  {
    hide Ingest, Prepare, Effect;
    var s' := Next(cfg, s, step);
    if s'.log == s.log { r := VecDelRec(""); } else { r := s'.phase.r; }
  }

  /** In a run whose keys fit and whose times run forwards, no event diverges and the log determines the caches. */
  lemma {:induction false} RunKeepsCaches(cfg: Settings, steps: seq<Step>)
    requires Forward(cfg, steps) && Fits(cfg.store, Run(cfg, steps).log)
    ensures CachesLive(cfg, Run(cfg, steps))
    decreases |steps|
  {
    if steps == [] {
      EmptyCaches(cfg);
    } else {
      hide CachesAt, Fits, Spaced, AcceptCommand, ApplyRecord, Live, NotBackwards;
      var n := |steps| - 1;
      var s, step := Run(cfg, steps[..n]), steps[n];
      var r := LogOnlyGrows(cfg, s, step);
      if Next(cfg, s, step).log == s.log + [r] { FitsBefore(cfg.store, s.log, r); }
      RunKeepsCaches(cfg, steps[..n]);
      RunIsLive(cfg, steps[..n]);
      NextKeepsCaches(cfg, s, step);
    }
  }

  lemma NextKeepsCaches(cfg: Settings, s: Server, step: Step)
    requires Live(cfg, s) && CachesLive(cfg, s) && ForwardStep(cfg.store, s.log, step) && Fits(cfg.store, s.log)
    ensures CachesLive(cfg, Next(cfg, s, step))
  {
    hide CachesAt, Fits, Spaced, AcceptCommand, ApplyRecord, Live, NotBackwards;
    match step {
      case Accept(cmd, c, walOk) =>
        if s.phase.Idle? && !s.readOnly && c.preview.now <= c.commit.now && c.preview.wall > 0 {
          if cmd.Event_? { AcceptedEventCaches(cfg, s, cmd, c, walOk); } else { AcceptedOtherCaches(cfg, s, cmd, c, walOk); }
        }
      case Apply(clock) => if s.phase.Accepted? && s.phase.since <= clock.now { AppliedCaches(cfg, s, clock); }
      case Finish =>
    }
  }

  /**
   Crash recovery: if the caches have room for every key, event times never run backwards, decay is positive and
   vectors are logged, then no command diverges and a server stopped between commands comes back with the same
   event buffers, index updates and hence co-occurrence scores, vectors, metadata and last-value states.
   */
  lemma RestartRestores(cfg: Settings, steps: seq<Step>, clocks: nat -> Clocks)
    requires Forward(cfg, steps) && Fits(cfg.store, Run(cfg, steps).log) && ClocksForward(clocks)
    requires cfg.includeVectors && 0.0 < cfg.decayAlpha <= 1.0
    ensures var s := Run(cfg, steps); var back := Replay(cfg, s.log, clocks);
      && !s.diverged && back.Ok?
      && (s.phase.Idle? ==>
            && EventPart(back.value) == EventPart(s.data)
            && back.value.vectors == s.data.vectors && back.value.metadata == s.data.metadata
            && (HasState(cfg.store) ==> back.value.store.states == s.data.store.states)
            && (forall idx :: MatrixOf(idx, back.value.indexOps) == MatrixOf(idx, s.data.indexOps)))
  {
    var s := Run(cfg, steps);
    RunKeepsCaches(cfg, steps);
    RunIsLive(cfg, steps);
    ValidIsRecoverable(cfg, s.log);
    hide Run, LogValid, Spaced, Fits, NoneDropped, Replay, Recoverable, Consistent, Effects;
    SpacedLogReplays(cfg, s.log, clocks);
    GoodReplay(cfg, s.log, clocks);
  }

  lemma {:induction false} LoggedDecay(cfg: Settings, log: seq<Record>, i: nat)
    requires LogValid(cfg, log) && i < |log| && log[i].MaintenanceRec?
    ensures log[i].alpha == cfg.decayAlpha
    decreases |log|
  {
    if i < |log| - 1 { LoggedDecay(cfg, log[..|log| - 1], i); }
  }

  lemma ValidIsRecoverable(cfg: Settings, log: seq<Record>)
    requires LogValid(cfg, log) && cfg.includeVectors && cfg.decayAlpha > 0.0
    ensures Recoverable(cfg, log)
  {
    forall r | r in log && r.MaintenanceRec? ensures r.alpha > 0.0 {
      var i :| 0 <= i < |log| && log[i] == r;
      LoggedDecay(cfg, log, i);
    }
  }
}
