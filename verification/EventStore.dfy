/** The event store: per-context ring buffers with deduplication in front and an LRU bound on contexts. */
module EventStores {
  import opened Wrappers
  import opened Events
  import opened EventCaches
  import opened RingBuffers
  import LruList
  import opened Sequences

  const MIN_SCORE: int := 0
  const MAX_SCORE: int := 100

  datatype Config = Config(bufferSize: nat, maxContexts: nat, dedupWindow: nat, dedupCacheSize: nat)

  datatype EventError = EmptyContext | EmptyId | InvalidScore(score: int)

  /** Wall clock in seconds and monotonic clock in nanoseconds. */
  datatype Clock = Clock(wall: nat, now: int)

  /** Everything a store holds, as values. */
  datatype View = View(
    buffers: map<string, seq<Event>>, lastAccess: map<string, nat>, sequence: nat,
    dedupOrder: seq<EventKey>, stamps: map<EventKey, Stamp>,
    stateOrder: seq<StateKey>, states: map<StateKey, int>)

  const EMPTY_VIEW := View(map[], map[], 0, [], map[], [], map[])

  datatype Prepared = Prepared(deduped: bool, event: Event)
  datatype Ingested = Duplicate(after: View) | Stored(event: Event, prior: seq<Event>, after: View)

  // ---------- What ingestion means ----------

  predicate HasDedup(cfg: Config) { cfg.dedupWindow > 0 && cfg.dedupCacheSize > 0 }
  predicate HasState(cfg: Config) { cfg.dedupCacheSize > 0 }

  function Resolve(timestamp: nat, clock: Clock): nat { if timestamp != 0 then timestamp else clock.wall }

  function Validate(ctx: string, id: Id, score: int, kind: EventType): Option<EventError> {
    if ctx == "" then Some(EmptyContext)
    else if id == "" then Some(EmptyId)
    else if kind != DEL && (score < MIN_SCORE || score > MAX_SCORE) then Some(InvalidScore(score))
    else None
  }

  /** Whether an event of the given key and time counts as seen already. */
  predicate Seen(cfg: Config, v: View, ctx: string, id: Id, score: int, kind: EventType, timestamp: nat, now: int) {
    match kind
    case ADD =>
      var key := EventKey(ctx, id, score);
      HasDedup(cfg) && key in v.stamps && WithinWindow(v.stamps[key], timestamp, now, cfg.dedupWindow)
    case SET => HasState(cfg) && StateKey(ctx, id) in v.states && v.states[StateKey(ctx, id)] == score
    case DEL => HasState(cfg) && StateKey(ctx, id) in v.states && v.states[StateKey(ctx, id)] == DELETED
  }

  function Prepare(cfg: Config, v: View, ctx: string, id: Id, score: int, kind: EventType, timestamp: nat, clock: Clock)
    : Result<Prepared, EventError>
  {
    var error := Validate(ctx, id, score, kind);
    if error.Some? then Err(error.value)
    else
      var ts := Resolve(timestamp, clock);
      Ok(Prepared(Seen(cfg, v, ctx, id, score, kind, ts, clock.now), Event(id, if kind == DEL then 0 else score, ts, kind)))
  }

  /** The caches after an event, duplicate or not. */
  function Recorded(cfg: Config, v: View, ctx: string, id: Id, score: int, kind: EventType, timestamp: nat, now: int): View {
    match kind
    case ADD =>
      var key := EventKey(ctx, id, score);
      if !HasDedup(cfg) then v
      else
        var stamp := if Seen(cfg, v, ctx, id, score, kind, timestamp, now) then Stamp(v.stamps[key].timestamp, now) else Stamp(timestamp, now);
        v.(dedupOrder := LruList.Use(v.dedupOrder, key, Capacity(cfg.dedupCacheSize)),
           stamps := UseMap(v.dedupOrder, v.stamps, key, stamp, cfg.dedupCacheSize))
    case _ =>
      var key := StateKey(ctx, id);
      if !HasState(cfg) then v
      else
        v.(stateOrder := LruList.Use(v.stateOrder, key, Capacity(cfg.dedupCacheSize)),
           states := UseMap(v.stateOrder, v.states, key, if kind == SET then score else DELETED, cfg.dedupCacheSize))
  }

  predicate IsOldest(lastAccess: map<string, nat>, c: string) {
    c in lastAccess && forall d :: d in lastAccess ==> lastAccess[c] <= lastAccess[d]
  }

  /** Room for one more context: at the limit, the one written longest ago goes. */
  ghost function Evicted(cfg: Config, v: View): View {
    if cfg.maxContexts == 0 || |v.buffers| < cfg.maxContexts || !(exists c :: IsOldest(v.lastAccess, c)) then v
    else
      var c :| IsOldest(v.lastAccess, c);
      v.(buffers := v.buffers - {c}, lastAccess := v.lastAccess - {c})
  }

  ghost function Appended(cfg: Config, v: View, ctx: string, e: Event): View {
    var w := if ctx in v.buffers then v else Evicted(cfg, v);
    var before := if ctx in v.buffers then v.buffers[ctx] else [];
    w.(buffers := w.buffers[ctx := LastN(before + [e], cfg.bufferSize)],
       lastAccess := w.lastAccess[ctx := v.sequence + 1],
       sequence := v.sequence + 1)
  }

  ghost function Ingest(cfg: Config, v: View, ctx: string, id: Id, score: int, kind: EventType, timestamp: nat, clock: Clock)
    : Result<Ingested, EventError>
  {
    var error := Validate(ctx, id, score, kind);
    if error.Some? then Err(error.value)
    else
      var ts := Resolve(timestamp, clock);
      var w := Recorded(cfg, v, ctx, id, score, kind, ts, clock.now);
      if Seen(cfg, v, ctx, id, score, kind, ts, clock.now) then Ok(Duplicate(w))
      else
        var e := Event(id, if kind == DEL then 0 else score, ts, kind);
        Ok(Stored(e, if ctx in v.buffers then v.buffers[ctx] else [], Appended(cfg, w, ctx, e)))
  }

  ghost predicate Stamped(lastAccess: map<string, nat>, sequence: nat) {
    && (forall c :: c in lastAccess ==> lastAccess[c] <= sequence)
    && (forall c, d :: c in lastAccess && d in lastAccess && lastAccess[c] == lastAccess[d] ==> c == d)
  }

  /** Access stamps are distinct and no later than the counter, one for each context, within the limit. */
  ghost predicate Consistent(cfg: Config, v: View) {
    && v.lastAccess.Keys == v.buffers.Keys
    && Stamped(v.lastAccess, v.sequence)
    && (cfg.maxContexts > 0 ==> |v.buffers| <= cfg.maxContexts)
  }

  lemma {:induction false} OldestExists(m: map<string, nat>)
    requires m != map[]
    ensures exists c :: IsOldest(m, c)
    decreases |m|
  {
    var c :| c in m;
    if m.Keys != {c} {
      var rest := m - {c};
      assert m.Keys == rest.Keys + {c};
      OldestExists(rest);
      var d :| IsOldest(rest, d);
      var best := if m[c] <= m[d] then c else d;
      forall e | e in m ensures m[best] <= m[e] { if e != c { assert e in rest; } }
      assert IsOldest(m, best);
    } else {
      assert IsOldest(m, c);
    }
  }

  lemma OldestIsUnique(cfg: Config, v: View, c: string)
    requires Consistent(cfg, v) && IsOldest(v.lastAccess, c)
    requires cfg.maxContexts > 0 && |v.buffers| >= cfg.maxContexts
    ensures Evicted(cfg, v) == v.(buffers := v.buffers - {c}, lastAccess := v.lastAccess - {c})
  {
    forall d | IsOldest(v.lastAccess, d) ensures d == c {
      assert v.lastAccess[c] == v.lastAccess[d];
    }
  }

  lemma EvictedIsConsistent(cfg: Config, v: View)
    requires Consistent(cfg, v)
    ensures Consistent(cfg, Evicted(cfg, v))
    ensures cfg.maxContexts > 0 ==> |Evicted(cfg, v).buffers| < cfg.maxContexts
    ensures Evicted(cfg, v).sequence == v.sequence
  {
    if cfg.maxContexts > 0 && |v.buffers| >= cfg.maxContexts {
      assert |v.lastAccess.Keys| == |v.buffers.Keys|;
      OldestExists(v.lastAccess);
      var c :| IsOldest(v.lastAccess, c);
      OldestIsUnique(cfg, v, c);
      assert (v.buffers - {c}).Keys == v.buffers.Keys - {c};
      assert (v.lastAccess - {c}).Keys == v.lastAccess.Keys - {c};
    }
  }

  /** A new context fits after making room, and stamps stay consistent. */
  lemma AppendedIsConsistent(cfg: Config, v: View, ctx: string, e: Event)
    requires Consistent(cfg, v)
    ensures Consistent(cfg, Appended(cfg, v, ctx, e))
  {
    hide Evicted, Consistent, LastN;
    EvictedIsConsistent(cfg, v);
    if ctx in v.buffers {
      WithContext(cfg, v, ctx, LastN(v.buffers[ctx] + [e], cfg.bufferSize));
    } else {
      WithContext(cfg, Evicted(cfg, v), ctx, LastN([] + [e], cfg.bufferSize));
    }
  }

  lemma WithContext(cfg: Config, w: View, ctx: string, buffer: seq<Event>)
    requires Consistent(cfg, w) && (ctx in w.buffers || cfg.maxContexts == 0 || |w.buffers| < cfg.maxContexts)
    ensures Consistent(cfg, w.(buffers := w.buffers[ctx := buffer], lastAccess := w.lastAccess[ctx := w.sequence + 1],
                               sequence := w.sequence + 1))
  {
    hide Stamped;
    NewStamp(w.lastAccess, w.sequence, ctx);
    KeyCount(w.buffers, ctx, buffer);
    KeyCount(w.lastAccess, ctx, w.sequence + 1);
  }

  /** The caches have no part in it. */
  lemma RecordedIsConsistent(cfg: Config, v: View, ctx: string, id: Id, score: int, kind: EventType, timestamp: nat, now: int)
    requires Consistent(cfg, v)
    ensures Consistent(cfg, Recorded(cfg, v, ctx, id, score, kind, timestamp, now))
  {
    hide Stamped, Seen;
  }

  lemma NoOldest(cfg: Config, v: View)
    requires v.lastAccess == map[]
    ensures Evicted(cfg, v) == v
  {
  }

  lemma EvictedStillLacks(cfg: Config, v: View, ctx: string)
    requires ctx !in v.buffers
    ensures ctx !in Evicted(cfg, v).buffers
  {
  }

  lemma EmptyIsConsistent(cfg: Config)
    ensures Consistent(cfg, EMPTY_VIEW)
  {
  }

  lemma NewStamp(lastAccess: map<string, nat>, sequence: nat, ctx: string)
    requires Stamped(lastAccess, sequence)
    ensures Stamped(lastAccess[ctx := sequence + 1], sequence + 1)
  {
  }

  lemma KeyCount<V>(m: map<string, V>, k: string, v: V)
    ensures m[k := v].Keys == m.Keys + {k} && |m[k := v]| == |m| + (if k in m then 0 else 1)
  {
    assert m[k := v].Keys == m.Keys + {k};
    if k in m { assert m[k := v].Keys == m.Keys; }
    assert |m[k := v]| == |m[k := v].Keys| && |m| == |m.Keys|;
  }

  // ---------- The store ----------

  datatype IngestResult = IngestResult(deduped: bool, stored: Event, prior: seq<Event>)

  /** The ring buffers by context. */
  class ContextRings {
    const capacity: nat
    var rings: map<string, RingBuffer<Event>>
    ghost var repr: set<object>

    /** Every context has a ring and an array of its own. */
    ghost predicate Valid()
      reads this, repr
    {
      && this in repr && capacity > 0
      && (forall c :: c in rings ==>
            && rings[c] in repr && rings[c].buffer in repr
            && rings[c].Valid() && rings[c].capacity == capacity)
      && (forall c, d :: c in rings && d in rings && c != d ==> rings[c] != rings[d] && rings[c].buffer != rings[d].buffer)
    }

    ghost function Contents(): map<string, seq<Event>>
      requires Valid()
      reads this, repr
    {
      map c | c in rings :: rings[c].Contents()
    }

    constructor (capacity: nat)
      requires capacity > 0
      ensures Valid() && Contents() == map[] && this.capacity == capacity && fresh(repr)
    {
      this.capacity := capacity;
      rings, repr := map[], {this};
    }

    method Size() returns (n: nat)
      requires Valid()
      ensures n == |Contents()|
    {
      n := |rings|;
      assert |rings| == |rings.Keys| && |Contents()| == |Contents().Keys| && rings.Keys == Contents().Keys;
    }

    method Has(ctx: string) returns (r: bool)
      requires Valid()
      ensures r <==> ctx in Contents()
    {
      r := ctx in rings;
    }

    method Get(ctx: string) returns (events: seq<Event>)
      requires Valid() && ctx in Contents()
      ensures events == Contents()[ctx]
    {
      events := rings[ctx].GetAll();
    }

    method Drop(ctx: string)
      requires Valid()
      modifies this
      ensures Valid() && repr == old(repr) && Contents() == old(Contents()) - {ctx}
    {
      hide RingBuffer.Contents, RingBuffer.Valid;
      rings := rings - {ctx};
    }

    /** Gives a new context an empty ring. */
    method Add(ctx: string)
      requires Valid() && ctx !in Contents()
      modifies this
      ensures Valid() && fresh(repr - old(repr)) && Contents() == old(Contents())[ctx := []]
    {
      hide RingBuffer.Contents, RingBuffer.Valid;
      var ring := new RingBuffer<Event>(capacity);
      rings := rings[ctx := ring];
      repr := repr + {ring, ring.buffer};
    }

    /** Pushes an event into its context's ring; no other ring changes. */
    method Push(ctx: string, e: Event)
      requires Valid() && ctx in Contents()
      modifies repr
      ensures Valid() && repr == old(repr)
      ensures Contents() == old(Contents())[ctx := LastN(old(Contents())[ctx] + [e], capacity)]
    {
      hide LastN;
      rings[ctx].Push(e);
    }
  }

  /** The rings of all contexts, their access stamps, and the caches in front. */
  class EventStore {
    const cfg: Config
    const dedup: DedupCache?
    const state: StateCache?
    const buffers: ContextRings
    var lastAccess: map<string, nat>
    var sequence: nat

    ghost function Caches(): set<object> {
      (if dedup == null then {} else {dedup as object}) + (if state == null then {} else {state as object})
    }

    ghost predicate CachesOk()
      reads Caches()
    {
      && (dedup != null <==> HasDedup(cfg)) && (state != null <==> HasState(cfg))
      && (dedup != null ==> dedup.Valid() && dedup.maxSize == cfg.dedupCacheSize && dedup.window == cfg.dedupWindow)
      && (state != null ==> state.Valid() && state.maxSize == cfg.dedupCacheSize)
    }

    /** The rings belong to this store alone. */
    ghost predicate RingsOk()
      reads buffers, buffers.repr
    {
      buffers.Valid() && buffers.capacity == cfg.bufferSize && this !in buffers.repr && buffers.repr !! Caches()
    }

    ghost predicate Valid()
      reads this, buffers, buffers.repr, Caches()
    {
      RingsOk() && CachesOk() && Consistent(cfg, Contents())
    }

    /** What the caches hold. */
    ghost function Cached(): View
      reads Caches()
    {
      View(map[], map[], 0,
           if dedup == null then [] else dedup.Order(), if dedup == null then map[] else dedup.Stamps(),
           if state == null then [] else state.Order(), if state == null then map[] else state.States())
    }

    ghost function Contents(): View
      requires buffers.Valid()
      reads this, buffers, buffers.repr, Caches()
    {
      Cached().(buffers := buffers.Contents(), lastAccess := lastAccess, sequence := sequence)
    }

    constructor (cfg: Config)
      requires cfg.bufferSize > 0
      ensures Valid() && Contents() == EMPTY_VIEW && this.cfg == cfg && fresh(Caches()) && fresh(buffers.repr)
    {
      hide Consistent, ContextRings.Valid, ContextRings.Contents, DedupCache.Valid, DedupCache.Order, DedupCache.Stamps,
           StateCache.Valid, StateCache.Order, StateCache.States;
      this.cfg := cfg;
      buffers := new ContextRings(cfg.bufferSize);
      if cfg.dedupWindow > 0 && cfg.dedupCacheSize > 0 {
        var d := new DedupCache(cfg.dedupCacheSize, cfg.dedupWindow);
        dedup := d;
      } else {
        dedup := null;
      }
      if cfg.dedupCacheSize > 0 {
        var s := new StateCache(cfg.dedupCacheSize);
        state := s;
      } else {
        state := null;
      }
      lastAccess, sequence := map[], 0;
      new;
      EmptyIsConsistent(cfg);
    }

    /** Validates and previews an event without changing anything. */
    method PrepareEvent(ctx: string, id: Id, score: int, kind: EventType, timestamp: nat, clock: Clock)
      returns (r: Result<Prepared, EventError>)
      requires Valid()
      ensures r == Prepare(cfg, Contents(), ctx, id, score, kind, timestamp, clock)
    {
      hide Consistent;
      if ctx == "" { return Err(EmptyContext); }
      if id == "" { return Err(EmptyId); }
      if kind != DEL && (score < MIN_SCORE || score > MAX_SCORE) { return Err(InvalidScore(score)); }
      var ts := if timestamp != 0 then timestamp else clock.wall;
      var deduped := false;
      match kind {
        case ADD => if dedup != null { deduped := dedup.WouldDeduplicate(EventKey(ctx, id, score), ts, clock.now); }
        case SET => if state != null { deduped := state.WouldDeduplicateSet(StateKey(ctx, id), score); }
        case DEL => if state != null { deduped := state.WouldDeduplicateDel(StateKey(ctx, id)); }
      }
      r := Ok(Prepared(deduped, Event(id, if kind == DEL then 0 else score, ts, kind)));
    }

    /** Consults and updates the cache in charge of the event's kind. */
    method CheckDuplicate(ctx: string, id: Id, score: int, kind: EventType, ts: nat, now: int) returns (duplicate: bool)
      requires RingsOk() && CachesOk()
      modifies Caches()
      ensures RingsOk() && CachesOk()
      ensures duplicate <==> Seen(cfg, old(Contents()), ctx, id, score, kind, ts, now)
      ensures Contents() == Recorded(cfg, old(Contents()), ctx, id, score, kind, ts, now)
    {
      hide UseMap, LruList.Use, ContextRings.Valid, ContextRings.Contents, DedupCache.Valid, DedupCache.Order, DedupCache.Stamps,
           StateCache.Valid, StateCache.Order, StateCache.States;
      duplicate := false;
      match kind {
        case ADD => if dedup != null { duplicate := dedup.CheckAndInsert(EventKey(ctx, id, score), ts, now); }
        case SET => if state != null { duplicate := state.CheckAndUpdateSet(StateKey(ctx, id), score); }
        case DEL => if state != null { duplicate := state.CheckAndMarkDeleted(StateKey(ctx, id)); }
      }
    }

    /** The context written longest ago. */
    method OldestContext() returns (victim: string)
      requires lastAccess != map[]
      ensures IsOldest(lastAccess, victim)
    {
      var rest := lastAccess.Keys;
      victim :| victim in rest;
      rest := rest - {victim};
      while rest != {}
        invariant rest <= lastAccess.Keys && victim in lastAccess.Keys - rest
        invariant forall c :: c in lastAccess.Keys - rest ==> lastAccess[victim] <= lastAccess[c]
      {
        var c :| c in rest;
        rest := rest - {c};
        if lastAccess[c] < lastAccess[victim] { victim := c; }
      }
    }

    /** At the context limit, drops the context written longest ago. */
    method EvictLeastRecentlyUsedContext()
      requires RingsOk() && Consistent(cfg, Contents())
      modifies `lastAccess, buffers
      ensures RingsOk() && buffers.repr == old(buffers.repr) && Contents() == Evicted(cfg, old(Contents()))
    {
      hide Cached, Stamped, IsOldest, Consistent, ContextRings.Valid, ContextRings.Contents;
      var size := buffers.Size();
      if cfg.maxContexts == 0 || size < cfg.maxContexts { return; }
      if lastAccess == map[] { NoOldest(cfg, Contents()); return; }
      var victim := OldestContext();
      OldestIsUnique(cfg, Contents(), victim);
      buffers.Drop(victim);
      lastAccess := lastAccess - {victim};
    }

    /** Gives a context that is not there an empty ring, making room for it first. */
    method EnterContext(ctx: string)
      requires RingsOk() && Consistent(cfg, Contents())
      modifies `lastAccess, buffers
      ensures RingsOk() && fresh(buffers.repr - old(buffers.repr))
      ensures var v := old(Contents()); var w := Evicted(cfg, v);
        Contents() == if ctx in v.buffers then v else w.(buffers := w.buffers[ctx := []])
    {
      hide Cached, Consistent, Evicted, ContextRings.Valid, ContextRings.Contents;
      var known := buffers.Has(ctx);
      if !known {
        EvictedStillLacks(cfg, Contents(), ctx);
        EvictLeastRecentlyUsedContext();
        buffers.Add(ctx);
      }
    }

    /** Stores an event in its context's buffer and returns what the buffer held before. */
    method Append(ctx: string, e: Event) returns (prior: seq<Event>)
      requires RingsOk() && Consistent(cfg, Contents())
      modifies `lastAccess, `sequence, buffers, buffers.repr
      ensures RingsOk() && fresh(buffers.repr - old(buffers.repr))
      ensures Contents() == Appended(cfg, old(Contents()), ctx, e) && Consistent(cfg, Contents())
      ensures prior == (if ctx in old(buffers.Contents()) then old(buffers.Contents())[ctx] else [])
    {
      hide Cached, Consistent, Evicted, LastN, ContextRings.Valid, ContextRings.Contents;
      AppendedIsConsistent(cfg, Contents(), ctx, e);
      EnterContext(ctx);
      sequence := sequence + 1;
      lastAccess := lastAccess[ctx := sequence];
      prior := buffers.Get(ctx);
      buffers.Push(ctx, e);
    }

    /** Deduplicates an event and, if it is new, stores it; the heart of ingestion. */
    method AddEventAndGetPrior(ctx: string, id: Id, score: int, kind: EventType, timestamp: nat, clock: Clock)
      returns (r: Result<IngestResult, EventError>)
      requires Valid()
      modifies `lastAccess, `sequence, buffers, buffers.repr, Caches()
      ensures Valid() && fresh(buffers.repr - old(buffers.repr))
      ensures match Ingest(cfg, old(Contents()), ctx, id, score, kind, timestamp, clock)
        case Err(e) => r == Err(e) && Contents() == old(Contents())
        case Ok(Duplicate(after)) => r.Ok? && r.value.deduped && Contents() == after
        case Ok(Stored(e, prior, after)) => r == Ok(IngestResult(false, e, prior)) && Contents() == after
    {
      hide Seen, Appended, Consistent, ContextRings.Valid, ContextRings.Contents;
      if ctx == "" { return Err(EmptyContext); }
      if id == "" { return Err(EmptyId); }
      if kind != DEL && (score < MIN_SCORE || score > MAX_SCORE) { return Err(InvalidScore(score)); }
      var ts := if timestamp != 0 then timestamp else clock.wall;
      RecordedIsConsistent(cfg, Contents(), ctx, id, score, kind, ts, clock.now);
      var duplicate := CheckDuplicate(ctx, id, score, kind, ts, clock.now);
      if duplicate { return Ok(IngestResult(true, Event(id, 0, 0, ADD), [])); }
      var e := Event(id, if kind == DEL then 0 else score, ts, kind);
      var prior := Append(ctx, e);
      r := Ok(IngestResult(false, e, prior));
    }
  }

  // ---------- Which contexts a bounded store keeps ----------

  predicate ByStamp(order: seq<string>, lastAccess: map<string, nat>) {
    order == [] ||
      (&& order[0] in lastAccess
       && (forall c :: c in order[1..] ==> c in lastAccess && lastAccess[order[0]] > lastAccess[c])
       && ByStamp(order[1..], lastAccess))
  }

  /** `order` lists the stamped contexts, most recently written first. */
  ghost predicate Ranks(order: seq<string>, lastAccess: map<string, nat>) {
    && Distinct(order) && ByStamp(order, lastAccess)
    && (forall c :: c in order ==> c in lastAccess) && (forall c :: c in lastAccess ==> c in order)
  }

  lemma {:induction false} ByStampWithout(order: seq<string>, lastAccess: map<string, nat>, c: string, stamp: nat)
    requires ByStamp(order, lastAccess)
    ensures ByStamp(LruList.Without(order, c), lastAccess[c := stamp])
  {
    if order != [] {
      ByStampWithout(order[1..], lastAccess, c, stamp);
      LruList.WithoutMembers(order[1..], c);
      if order[0] != c {
        var w := LruList.Without(order, c);
        assert w[1..] == LruList.Without(order[1..], c);
        forall d | d in w[1..] ensures d in lastAccess[c := stamp] && lastAccess[c := stamp][w[0]] > lastAccess[c := stamp][d] {
          assert d in LruList.Without(order[1..], c);
          assert d in order[1..] && d != c;
        }
      }
    }
  }

  lemma {:induction false} LastIsOldest(order: seq<string>, lastAccess: map<string, nat>)
    requires ByStamp(order, lastAccess) && order != []
    ensures var last := order[|order| - 1];
      last in lastAccess && forall c :: c in order ==> c in lastAccess && lastAccess[last] <= lastAccess[c]
  {
    assert order == [order[0]] + order[1..];
    if |order| > 1 {
      LastIsOldest(order[1..], lastAccess);
      assert order[1..][|order| - 2] in order[1..];
    }
  }

  lemma {:induction false} ByStampFront(order: seq<string>, lastAccess: map<string, nat>, n: nat, gone: string)
    requires ByStamp(order, lastAccess) && n <= |order| && gone !in order[..n]
    ensures ByStamp(order[..n], lastAccess - {gone})
  {
    if n > 0 {
      assert order[..n] == [order[0]] + order[1..][..n - 1];
      assert order[..n][1..] == order[1..][..n - 1];
      ByStampFront(order[1..], lastAccess, n - 1, gone);
    }
  }

  lemma OrderSize(order: seq<string>, v: View, cfg: Config)
    requires Ranks(order, v.lastAccess) && Consistent(cfg, v)
    ensures |order| == |v.buffers|
  {
    LruList.DistinctCount(order, v.lastAccess.Keys);
    assert |v.buffers| == |v.buffers.Keys|;
  }

  /** Making room drops the last context of the ranking. */
  lemma EvictedRanks(cfg: Config, v: View, order: seq<string>)
    requires Consistent(cfg, v) && Ranks(order, v.lastAccess) && cfg.maxContexts >= 1
    ensures Ranks(if |order| >= cfg.maxContexts then order[..|order| - 1] else order, Evicted(cfg, v).lastAccess)
  {
    OrderSize(order, v, cfg);
    if |order| >= cfg.maxContexts {
      var n := |order| - 1;
      var last := order[n];
      LastIsOldest(order, v.lastAccess);
      assert IsOldest(v.lastAccess, last);
      OldestIsUnique(cfg, v, last);
      LruList.WithoutLast(order);
      LruList.WithoutMembers(order, last);
      ByStampFront(order, v.lastAccess, n, last);
    }
  }

  /** Writing to a context is a use of it in a recency list of capacity `maxContexts`. */
  lemma AppendedRanks(cfg: Config, v: View, ctx: string, e: Event, order: seq<string>)
    requires Consistent(cfg, v) && Ranks(order, v.lastAccess) && cfg.maxContexts >= 1
    ensures Ranks(LruList.Use(order, ctx, cfg.maxContexts), Appended(cfg, v, ctx, e).lastAccess)
  {
    hide Consistent, Evicted, LastN, Ranks, Stamped, LruList.Use, Distinct, LruList.Without;
    OrderSize(order, v, cfg);
    SizeBound(cfg, v);
    SameContexts(cfg, v);
    EvictedRanks(cfg, v, order);
    RankedKeys(order, v.lastAccess);
    LruList.UseCases(order, ctx, cfg.maxContexts);
    if ctx in v.buffers {
      NewestRanks(order, v.lastAccess, v.sequence, ctx);
    } else {
      var kept := if |order| >= cfg.maxContexts then order[..|order| - 1] else order;
      assert ctx !in kept;
      LruList.WithoutMembers(kept, ctx);
      NewestRanks(kept, Evicted(cfg, v).lastAccess, v.sequence, ctx);
    }
  }

  lemma RankedKeys(order: seq<string>, lastAccess: map<string, nat>)
    requires Ranks(order, lastAccess)
    ensures Distinct(order)
    ensures forall c :: c in order ==> c in lastAccess
    ensures forall c :: c in lastAccess ==> c in order
  {
  }

  lemma SizeBound(cfg: Config, v: View)
    requires Consistent(cfg, v) && cfg.maxContexts >= 1
    ensures |v.buffers| <= cfg.maxContexts
  {
  }

  lemma SameContexts(cfg: Config, v: View)
    requires Consistent(cfg, v)
    ensures v.lastAccess.Keys == v.buffers.Keys && Stamped(v.lastAccess, v.sequence)
    ensures Stamped(Evicted(cfg, v).lastAccess, v.sequence)
  {
    EvictedIsConsistent(cfg, v);
  }

  lemma NewestRanks(order: seq<string>, lastAccess: map<string, nat>, sequence: nat, ctx: string)
    requires Stamped(lastAccess, sequence) && Ranks(order, lastAccess)
    ensures Ranks([ctx] + LruList.Without(order, ctx), lastAccess[ctx := sequence + 1])
  {
    LruList.WithoutMembers(order, ctx);
    ByStampWithout(order, lastAccess, ctx, sequence + 1);
    var order' := [ctx] + LruList.Without(order, ctx);
    assert order'[1..] == LruList.Without(order, ctx);
    forall c | c in order'[1..] ensures c in lastAccess && lastAccess[c] < sequence + 1 {
      assert c in LruList.Without(order, ctx);
    }
  }

  /** Stores a sequence of events, each under its context. */
  ghost function AppendAll(cfg: Config, history: seq<Arrival>): View
    decreases |history|
  {
    if history == [] then EMPTY_VIEW
    else Appended(cfg, AppendAll(cfg, history[..|history| - 1]), history[|history| - 1].ctx, history[|history| - 1].ev)
  }

  function Contexts(history: seq<Arrival>): seq<string> {
    seq(|history|, i requires 0 <= i < |history| => history[i].ctx)
  }

  /** A bounded store holds exactly the `maxContexts` most recently written contexts. */
  lemma {:induction false} KeepsMostRecentContexts(cfg: Config, history: seq<Arrival>)
    requires cfg.maxContexts >= 1
    ensures Consistent(cfg, AppendAll(cfg, history))
    ensures Ranks(LruList.Take(LruList.Recency(Contexts(history)), cfg.maxContexts), AppendAll(cfg, history).lastAccess)
    decreases |history|
  {
    if history != [] {
      hide Consistent, Ranks, Appended, LruList.Use;
      var n := |history| - 1;
      var x := history[n];
      KeepsMostRecentContexts(cfg, history[..n]);
      AppendedIsConsistent(cfg, AppendAll(cfg, history[..n]), x.ctx, x.ev);
      AppendedRanks(cfg, AppendAll(cfg, history[..n]), x.ctx, x.ev,
                    LruList.Take(LruList.Recency(Contexts(history[..n])), cfg.maxContexts));
      assert Contexts(history)[..n] == Contexts(history[..n]);
      LruList.RecencyIsByLastUse(Contexts(history[..n]));
      LruList.UseOfTake(LruList.Recency(Contexts(history[..n])), x.ctx, cfg.maxContexts);
      RecencyStep(Contexts(history), cfg.maxContexts);
    }
  }

  lemma RecencyStep(h: seq<string>, n: nat)
    requires h != []
    ensures LruList.Use(LruList.Recency(h[..|h| - 1]), h[|h| - 1], n) == LruList.Take(LruList.Recency(h), n)
  {
  }
}
