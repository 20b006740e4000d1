/**
 WAL-before-apply and crash recovery.

 A write is validated, appended to the log, and only then applied, each step leaving a state a crash may
 expose.  Recovery replays the log, in order, through the same handlers.  The co-occurrence index is
 represented by the sequence of updates it receives: a deterministic index fed the same updates ends up
 the same.
 */
module Recovery {
  import opened Wrappers
  import opened Events
  import opened EventCaches
  import opened Numbers
  import opened EventStores
  import Co = CoOccurrence

  type Vector = seq<real>
  type Attributes = map<string, string>

  datatype Record =
    | EventRec(ctx: string, e: Event)
    | VecSetRec(id: Id, vec: Vector, given: Option<Attributes>)
    | VecDelRec(id: Id)
    | MetaSetRec(id: Id, meta: Attributes)
    | MaintenanceRec(alpha: real, prune: bool)

  datatype IndexOp = Ingested(prior: seq<Event>, e: Event) | Decayed(alpha: real) | Pruned

  datatype Data = Data(store: View, indexOps: seq<IndexOp>, vectors: map<Id, Vector>, metadata: map<Id, Attributes>)

  const NO_DATA := Data(EMPTY_VIEW, [], map[], map[])

  /** `validVector` is the vector store's own validation; the configuration allows a decay factor from 0 to 1. */
  datatype Settings = Settings(
    store: Config, includeVectors: bool, decayAlpha: real, validVector: (map<Id, Vector>, Id, Vector) -> bool)

  /** The preview and the commit of an event read the clocks separately. */
  datatype Clocks = Clocks(preview: Clock, commit: Clock)

  datatype ReplayError = BadEvent | BadVector | UnknownId | BadMaintenance | Diverged

  // ---------- The scores behind the updates ----------

  datatype Index = Index(cfg: Co.Config, options: Co.IngestOptions)

  /** The matrix of an index without limits after a sequence of updates; without limits, pruning changes nothing. */
  function MatrixOf(idx: Index, ops: seq<IndexOp>): Co.Matrix
    decreases |ops|
  {
    if ops == [] then map[]
    else
      var m := MatrixOf(idx, ops[..|ops| - 1]);
      match ops[|ops| - 1]
      case Ingested(prior, e) => Co.Signalled(Co.AddPairs(m, prior, e, idx.options.temporal), prior, e, idx.options, idx.cfg)
      case Decayed(alpha) => Co.Decayed(m, alpha, idx.cfg)
      case Pruned => m
  }

  // ---------- The effect of a record ----------

  /** The stores without the deduplication caches. */
  function Blank(v: View): View { v.(dedupOrder := [], stamps := map[], stateOrder := [], states := map[]) }

  function BlankData(d: Data): Data { d.(store := Blank(d.store)) }

  function EventPart(d: Data): (View, seq<IndexOp>) { (Blank(d.store), d.indexOps) }

  ghost function Effect(cfg: Settings, d: Data, r: Record): Data {
    match r
    case EventRec(ctx, e) =>
      d.(store := Appended(cfg.store, d.store, ctx, e),
         indexOps := d.indexOps + [Ingested(if ctx in d.store.buffers then d.store.buffers[ctx] else [], e)])
    case VecSetRec(id, vec, given) =>
      d.(vectors := d.vectors[id := vec], metadata := if given.Some? then d.metadata[id := given.value] else d.metadata)
    case VecDelRec(id) => d.(vectors := d.vectors - {id}, metadata := d.metadata - {id})
    case MetaSetRec(id, meta) => d.(metadata := d.metadata[id := meta])
    case MaintenanceRec(alpha, prune) => d.(indexOps := d.indexOps + [Decayed(alpha)] + if prune then [Pruned] else [])
  }

  ghost function Effects(cfg: Settings, log: seq<Record>): Data
    decreases |log|
  {
    if log == [] then NO_DATA else Effect(cfg, Effects(cfg, log[..|log| - 1]), log[|log| - 1])
  }

  // ---------- Replay ----------

  ghost predicate Dropped(cfg: Settings, d: Data, r: Record, c: Clocks) {
    r.EventRec? && Seen(cfg.store, d.store, r.ctx, r.e.id, r.e.score, r.e.kind, Resolve(r.e.timestamp, c.preview), c.preview.now)
  }

  ghost function Replay1(cfg: Settings, d: Data, r: Record, c: Clocks): Result<Data, ReplayError> {
    match r
    case EventRec(ctx, e) =>
      (match Prepare(cfg.store, d.store, ctx, e.id, e.score, e.kind, e.timestamp, c.preview)
       case Err(_) => Err(BadEvent)
       case Ok(p) =>
         match Ingest(cfg.store, d.store, ctx, e.id, e.score, e.kind, p.event.timestamp, c.commit)
         case Err(_) => Err(BadEvent)
         case Ok(Duplicate(after)) => if p.deduped then Ok(d.(store := after)) else Err(Diverged)
         case Ok(Stored(stored, prior, after)) =>
           if p.deduped then Err(Diverged)
           else Ok(d.(store := after, indexOps := d.indexOps + [Ingested(prior, stored)])))
    case VecSetRec(id, vec, _) => if cfg.validVector(d.vectors, id, vec) then Ok(Effect(cfg, d, r)) else Err(BadVector)
    case VecDelRec(id) => if id in d.vectors then Ok(Effect(cfg, d, r)) else Err(UnknownId)
    case MetaSetRec(id, _) => if id in d.vectors then Ok(Effect(cfg, d, r)) else Err(UnknownId)
    case MaintenanceRec(alpha, _) => if 0.0 < alpha <= 1.0 then Ok(Effect(cfg, d, r)) else Err(BadMaintenance)
  }

  ghost function Replay(cfg: Settings, log: seq<Record>, clocks: nat -> Clocks): Result<Data, ReplayError>
    decreases |log|
  {
    if log == [] then Ok(NO_DATA)
    else
      match Replay(cfg, log[..|log| - 1], clocks)
      case Err(e) => Err(e)
      case Ok(d) => Replay1(cfg, d, log[|log| - 1], clocks(|log| - 1))
  }

  ghost predicate NoneDropped(cfg: Settings, log: seq<Record>, clocks: nat -> Clocks)
    decreases |log|
  {
    log == [] ||
      (&& NoneDropped(cfg, log[..|log| - 1], clocks)
       && match Replay(cfg, log[..|log| - 1], clocks)
          case Err(_) => true
          case Ok(d) => !Dropped(cfg, d, log[|log| - 1], clocks(|log| - 1)))
  }

  /** What a replay from empty stores can work with: real decay, and no record about a vector it never saw. */
  ghost predicate Recoverable(cfg: Settings, log: seq<Record>) {
    forall r :: r in log ==>
      && (r.MaintenanceRec? ==> r.alpha > 0.0)
      && (!cfg.includeVectors ==> !r.VecDelRec? && !r.MetaSetRec?)
  }

  // ---------- The live server ----------

  datatype Command =
    | Event_(ctx: string, id: Id, score: int, kind: EventType, timestamp: nat)
    | VecSet(id: Id, vec: Vector, given: Option<Attributes>)
    | VecDel(id: Id)
    | MetaSet(id: Id, meta: Attributes)
    | Maintain(prune: bool)

  /** Where the command in flight stands; `since` is when it was previewed. */
  datatype Phase =
    | Idle
    | Accepted(r: Record, since: int)
    | EventStored(prior: seq<Event>, e: Event)
    | VectorStored(id: Id, meta: Attributes)

  datatype Server = Server(data: Data, log: seq<Record>, readOnly: bool, diverged: bool, phase: Phase)

  datatype Step =
    | Accept(cmd: Command, clocks: Clocks, walOk: bool)
    | Apply(clock: Clock)
    | Finish

  const FRESH := Server(NO_DATA, [], false, false, Idle)

  /** Appends a record, or turns read-only if the log cannot take it. */
  function Append(cfg: Settings, s: Server, r: Record, c: Clocks, walOk: bool): Server {
    if r.VecSetRec? && !cfg.includeVectors then s.(phase := Accepted(r, c.preview.now))
    else if walOk then s.(log := s.log + [r], phase := Accepted(r, c.preview.now))
    else s.(readOnly := true)
  }

  ghost function AcceptCommand(cfg: Settings, s: Server, cmd: Command, c: Clocks, walOk: bool): Server {
    match cmd
    case Event_(ctx, id, score, kind, timestamp) =>
      (match Prepare(cfg.store, s.data.store, ctx, id, score, kind, timestamp, c.preview)
       case Err(_) => s
       case Ok(p) =>
         if !p.deduped then Append(cfg, s, EventRec(ctx, p.event), c, walOk)
         else
           match Ingest(cfg.store, s.data.store, ctx, id, score, kind, p.event.timestamp, c.commit)
           case Err(_) => s.(readOnly := true, diverged := true)
           case Ok(Duplicate(after)) => s.(data := s.data.(store := after))
           case Ok(Stored(_, _, after)) => s.(data := s.data.(store := after), readOnly := true, diverged := true))
    case VecSet(id, vec, given) =>
      if cfg.validVector(s.data.vectors, id, vec) then Append(cfg, s, VecSetRec(id, vec, given), c, walOk) else s
    case VecDel(id) => if id in s.data.vectors then Append(cfg, s, VecDelRec(id), c, walOk) else s
    case MetaSet(id, meta) => if id in s.data.vectors then Append(cfg, s, MetaSetRec(id, meta), c, walOk) else s
    case Maintain(prune) => Append(cfg, s, MaintenanceRec(cfg.decayAlpha, prune), c, walOk)
  }

  ghost function ApplyRecord(cfg: Settings, s: Server, r: Record, clock: Clock): Server {
    match r
    case EventRec(ctx, e) =>
      (match Ingest(cfg.store, s.data.store, ctx, e.id, e.score, e.kind, e.timestamp, clock)
       case Err(_) => s.(readOnly := true, diverged := true, phase := Idle)
       case Ok(Duplicate(after)) => s.(data := s.data.(store := after), readOnly := true, diverged := true, phase := Idle)
       case Ok(Stored(stored, prior, after)) => s.(data := s.data.(store := after), phase := EventStored(prior, stored)))
    case VecSetRec(id, vec, given) =>
      s.(data := s.data.(vectors := s.data.vectors[id := vec]),
         phase := if given.Some? then VectorStored(id, given.value) else Idle)
    case _ => s.(data := Effect(cfg, s.data, r), phase := Idle)
  }

  /** The monotonic clock never runs backwards between preview and commit. */
  ghost function Next(cfg: Settings, s: Server, step: Step): Server {
    match step
    case Accept(cmd, c, walOk) =>
      if s.phase.Idle? && !s.readOnly && c.preview.now <= c.commit.now && c.preview.wall > 0
      then AcceptCommand(cfg, s, cmd, c, walOk) else s
    case Apply(clock) =>
      if s.phase.Accepted? && s.phase.since <= clock.now then ApplyRecord(cfg, s, s.phase.r, clock) else s
    case Finish =>
      match s.phase
      case EventStored(prior, e) => s.(data := s.data.(indexOps := s.data.indexOps + [Ingested(prior, e)]), phase := Idle)
      case VectorStored(id, meta) => s.(data := s.data.(metadata := s.data.metadata[id := meta]), phase := Idle)
      case _ => s
  }

  ghost function Run(cfg: Settings, steps: seq<Step>): Server
    decreases |steps|
  {
    if steps == [] then FRESH else Next(cfg, Run(cfg, steps[..|steps| - 1]), steps[|steps| - 1])
  }

  // ---------- Effects do not depend on the caches ----------

  lemma AppendedIgnoresCaches(cfg: Config, v: View, ctx: string, e: Event)
    requires Consistent(cfg, v)
    ensures Blank(Appended(cfg, v, ctx, e)) == Appended(cfg, Blank(v), ctx, e)
  {
    if cfg.maxContexts > 0 && |v.buffers| >= cfg.maxContexts {
      assert |v.lastAccess.Keys| == |v.buffers.Keys|;
      OldestExists(v.lastAccess);
      var c :| IsOldest(v.lastAccess, c);
      OldestIsUnique(cfg, v, c);
      OldestIsUnique(cfg, Blank(v), c);
    }
  }

  lemma SameContents(cfg: Config, v: View, w: View)
    requires Blank(v) == Blank(w)
    ensures Consistent(cfg, v) <==> Consistent(cfg, w)
    ensures v.buffers == w.buffers && v.lastAccess == w.lastAccess && v.sequence == w.sequence
  {
    assert v.buffers == Blank(v).buffers && w.buffers == Blank(w).buffers;
  }

  /** Ingesting an unseen event stores it, with the plain effect of its record. */
  lemma UnseenIsStored(cfg: Settings, d: Data, ctx: string, e: Event, clock: Clock)
    requires Consistent(cfg.store, d.store) && e.timestamp > 0 && (e.kind == DEL ==> e.score == 0)
    requires Validate(ctx, e.id, e.score, e.kind).None?
    requires !Seen(cfg.store, d.store, ctx, e.id, e.score, e.kind, e.timestamp, clock.now)
    ensures var r := Ingest(cfg.store, d.store, ctx, e.id, e.score, e.kind, e.timestamp, clock);
      && r.Ok? && r.value.Stored? && r.value.event == e
      && r.value.prior == (if ctx in d.store.buffers then d.store.buffers[ctx] else [])
      && Blank(r.value.after) == Effect(cfg, BlankData(d), EventRec(ctx, e)).store
      && Consistent(cfg.store, r.value.after)
  {
    hide Consistent, Appended, Seen;
    var w := Recorded(cfg.store, d.store, ctx, e.id, e.score, e.kind, e.timestamp, clock.now);
    assert Blank(w) == Blank(d.store);
    SameContents(cfg.store, w, d.store);
    AppendedIgnoresCaches(cfg.store, w, ctx, e);
    AppendedIsConsistent(cfg.store, w, ctx, e);
  }

  /** A seen event only touches the caches. */
  lemma SeenIsDropped(cfg: Settings, d: Data, ctx: string, id: Id, score: int, kind: EventType, timestamp: nat, clock: Clock)
    requires Consistent(cfg.store, d.store) && timestamp > 0 && Validate(ctx, id, score, kind).None?
    requires Seen(cfg.store, d.store, ctx, id, score, kind, timestamp, clock.now)
    ensures var r := Ingest(cfg.store, d.store, ctx, id, score, kind, timestamp, clock);
      r.Ok? && r.value.Duplicate? && Blank(r.value.after) == Blank(d.store) && Consistent(cfg.store, r.value.after)
  {
    hide Consistent, Seen;
    var w := Recorded(cfg.store, d.store, ctx, id, score, kind, timestamp, clock.now);
    SameContents(cfg.store, w, d.store);
  }

  /** Time passing cannot make an unseen event seen. */
  lemma UnseenStaysUnseen(cfg: Config, v: View, ctx: string, id: Id, score: int, kind: EventType, timestamp: nat, t0: int, t1: int)
    requires t0 <= t1 && !Seen(cfg, v, ctx, id, score, kind, timestamp, t0)
    ensures !Seen(cfg, v, ctx, id, score, kind, timestamp, t1)
  {
  }

  /**
   It can make a seen event unseen in exactly one way: its time lies before the recorded one by more than
   the window, and the arrival window closes between the two clock readings.
   */
  lemma SeenBecomesUnseen(cfg: Config, v: View, ctx: string, id: Id, score: int, kind: EventType, timestamp: nat, t0: int, t1: int)
    requires t0 <= t1 && Seen(cfg, v, ctx, id, score, kind, timestamp, t0)
    ensures !Seen(cfg, v, ctx, id, score, kind, timestamp, t1) <==>
      kind == ADD && var s := v.stamps[EventKey(ctx, id, score)];
        timestamp < s.timestamp && s.timestamp - timestamp > cfg.dedupWindow
        && t1 - s.lastSeen > cfg.dedupWindow * NANOS_PER_SECOND
  {
  }

  // ---------- What a log is worth ----------

  ghost predicate RecordValid(cfg: Settings, d: Data, r: Record) {
    match r
    case EventRec(ctx, e) =>
      Validate(ctx, e.id, e.score, e.kind).None? && e.timestamp > 0 && (e.kind == DEL ==> e.score == 0)
    case VecSetRec(id, vec, _) => cfg.includeVectors && cfg.validVector(d.vectors, id, vec)
    case VecDelRec(id) => cfg.includeVectors ==> id in d.vectors
    case MetaSetRec(id, _) => cfg.includeVectors ==> id in d.vectors
    case MaintenanceRec(alpha, _) => alpha == cfg.decayAlpha
  }

  ghost predicate LogValid(cfg: Settings, log: seq<Record>)
    decreases |log|
  {
    log == [] || (LogValid(cfg, log[..|log| - 1]) && RecordValid(cfg, Effects(cfg, log[..|log| - 1]), log[|log| - 1]))
  }

  /** Equal up to the caches; without vectors in the log, as far as events go. */
  ghost predicate Matches(cfg: Settings, d: Data, e: Data) {
    EventPart(d) == EventPart(e) && (cfg.includeVectors ==> d.vectors == e.vectors && d.metadata == e.metadata)
  }

  lemma {:induction false} EffectsAreConsistent(cfg: Settings, log: seq<Record>)
    ensures Consistent(cfg.store, Effects(cfg, log).store) && Blank(Effects(cfg, log).store) == Effects(cfg, log).store
    decreases |log|
  {
    if log != [] {
      var n := |log| - 1;
      EffectsAreConsistent(cfg, log[..n]);
      if log[n].EventRec? {
        AppendedIsConsistent(cfg.store, Effects(cfg, log[..n]).store, log[n].ctx, log[n].e);
        AppendedIgnoresCaches(cfg.store, Effects(cfg, log[..n]).store, log[n].ctx, log[n].e);
      }
    }
  }

  /** One replayed record, when the stores so far are right and nothing stands in its way. */
  lemma ReplayOne(cfg: Settings, d: Data, fx: Data, r: Record, c: Clocks)
    requires Consistent(cfg.store, d.store) && Matches(cfg, d, fx) && Blank(fx.store) == fx.store
    requires RecordValid(cfg, fx, r) && 0.0 <= cfg.decayAlpha <= 1.0 && c.preview.now <= c.commit.now
    requires !Dropped(cfg, d, r, c) && (r.MaintenanceRec? ==> r.alpha > 0.0)
    requires !cfg.includeVectors ==> !r.VecDelRec? && !r.MetaSetRec?
    ensures var x := Replay1(cfg, d, r, c);
      x.Ok? && Matches(cfg, x.value, Effect(cfg, fx, r)) && Consistent(cfg.store, x.value.store)
  {
    hide Consistent, Seen;
    if r.EventRec? {
      UnseenStaysUnseen(cfg.store, d.store, r.ctx, r.e.id, r.e.score, r.e.kind, r.e.timestamp, c.preview.now, c.commit.now);
      UnseenIsStored(cfg, d, r.ctx, r.e, c.commit);
      SameContents(cfg.store, d.store, fx.store);
      assert BlankData(d).store == BlankData(fx).store == fx.store;
    }
  }

  /** A log a replay can work with, none of whose records is dropped, rebuilds what it records. */
  lemma {:induction false} GoodReplay(cfg: Settings, log: seq<Record>, clocks: nat -> Clocks)
    requires LogValid(cfg, log) && 0.0 <= cfg.decayAlpha <= 1.0 && (forall i: nat :: clocks(i).preview.now <= clocks(i).commit.now)
    requires Recoverable(cfg, log) && NoneDropped(cfg, log, clocks)
    ensures var x := Replay(cfg, log, clocks);
      x.Ok? && Matches(cfg, x.value, Effects(cfg, log)) && Consistent(cfg.store, x.value.store)
    decreases |log|
  {
    hide Consistent, Replay1, Effect, Matches, Dropped, RecordValid, Recoverable;
    if log == [] {
      EmptyIsConsistent(cfg.store);
      MatchesItself(cfg, NO_DATA);
    } else {
      var n := |log| - 1;
      RecoverableMore(cfg, log);
      GoodReplay(cfg, log[..n], clocks);
      EffectsAreConsistent(cfg, log[..n]);
      ReplayOne(cfg, Replay(cfg, log[..n], clocks).value, Effects(cfg, log[..n]), log[n], clocks(n));
    }
  }

  lemma MatchesItself(cfg: Settings, d: Data)
    ensures Matches(cfg, d, d)
  {
  }

  lemma RecoverableMore(cfg: Settings, log: seq<Record>)
    requires log != []
    ensures var r := log[|log| - 1];
      Recoverable(cfg, log) <==>
        (&& Recoverable(cfg, log[..|log| - 1])
         && (r.MaintenanceRec? ==> r.alpha > 0.0) && (!cfg.includeVectors ==> !r.VecDelRec? && !r.MetaSetRec?))
  {
    var n := |log| - 1;
    assert forall i :: 0 <= i < n ==> log[..n][i] == log[i];
  }
}
