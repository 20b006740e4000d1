/** What a log means, record by record, and what each command comes to. */
module LogMeaning {
  import opened Wrappers
  import opened Events
  import opened EventStores
  import opened Recovery
  import opened Sequences
  import opened StoreStream
  import CrashSafety

  // ---------- Vectors and metadata ----------

  predicate VectorRecord(r: Record, id: Id) { (r.VecSetRec? || r.VecDelRec?) && r.id == id }

  /** A VECSET without metadata leaves what was there. */
  predicate MetadataRecord(r: Record, id: Id) {
    (r.MetaSetRec? || r.VecDelRec? || (r.VecSetRec? && r.given.Some?)) && r.id == id
  }

  /** The i-th record is the last one about the vector of `id`. */
  predicate LastVector(log: seq<Record>, id: Id, i: int) {
    0 <= i < |log| && VectorRecord(log[i], id) && forall j :: i < j < |log| ==> !VectorRecord(log[j], id)
  }

  predicate LastMetadata(log: seq<Record>, id: Id, i: int) {
    0 <= i < |log| && MetadataRecord(log[i], id) && forall j :: i < j < |log| ==> !MetadataRecord(log[j], id)
  }

  lemma LastVectorStep(log: seq<Record>, id: Id, i: int)
    requires log != []
    ensures var n := |log| - 1;
      LastVector(log, id, i) <==> if VectorRecord(log[n], id) then i == n else LastVector(log[..n], id, i)
  {
    var n := |log| - 1;
    assert forall j :: 0 <= j < n ==> log[..n][j] == log[j];
  }

  lemma LastMetadataStep(log: seq<Record>, id: Id, i: int)
    requires log != []
    ensures var n := |log| - 1;
      LastMetadata(log, id, i) <==> if MetadataRecord(log[n], id) then i == n else LastMetadata(log[..n], id, i)
  {
    var n := |log| - 1;
    assert forall j :: 0 <= j < n ==> log[..n][j] == log[j];
  }

  /** An id has a vector exactly when the last record about its vector sets one, and then it has that one. */
  ghost predicate VectorsOfLog(vectors: map<Id, Vector>, log: seq<Record>) {
    && (forall id :: id in vectors ==> exists i :: LastVector(log, id, i) && log[i].VecSetRec?)
    && (forall id, i :: LastVector(log, id, i) && log[i].VecSetRec? ==> id in vectors && vectors[id] == log[i].vec)
  }

  /** The same for metadata, which METASET gives and VECSET may, and VECDEL takes away. */
  ghost predicate MetadataOfLog(metadata: map<Id, Attributes>, log: seq<Record>) {
    && (forall id :: id in metadata ==> exists i :: LastMetadata(log, id, i) && !log[i].VecDelRec?)
    && (forall id, i :: LastMetadata(log, id, i) && !log[i].VecDelRec? ==>
          id in metadata && metadata[id] == if log[i].MetaSetRec? then log[i].meta else log[i].given.value)
  }

  lemma VectorsMore(before: map<Id, Vector>, after: map<Id, Vector>, log: seq<Record>)
    requires log != [] && VectorsOfLog(before, log[..|log| - 1])
    requires forall id :: var r := log[|log| - 1];
      if VectorRecord(r, id) then (id in after <==> r.VecSetRec?) && (r.VecSetRec? ==> after[id] == r.vec)
      else (id in after <==> id in before) && (id in after ==> after[id] == before[id])
    ensures VectorsOfLog(after, log)
  {
    var n := |log| - 1;
    forall id | id in after ensures exists i :: LastVector(log, id, i) && log[i].VecSetRec? {
      if VectorRecord(log[n], id) {
        LastVectorStep(log, id, n);
      } else {
        var i :| LastVector(log[..n], id, i) && log[..n][i].VecSetRec?;
        LastVectorStep(log, id, i);
      }
    }
    forall id, i | LastVector(log, id, i) && log[i].VecSetRec? ensures id in after && after[id] == log[i].vec {
      LastVectorStep(log, id, i);
    }
  }

  lemma MetadataMore(before: map<Id, Attributes>, after: map<Id, Attributes>, log: seq<Record>)
    requires log != [] && MetadataOfLog(before, log[..|log| - 1])
    requires forall id :: var r := log[|log| - 1];
      if MetadataRecord(r, id)
      then (id in after <==> !r.VecDelRec?) && (!r.VecDelRec? ==> after[id] == if r.MetaSetRec? then r.meta else r.given.value)
      else (id in after <==> id in before) && (id in after ==> after[id] == before[id])
    ensures MetadataOfLog(after, log)
  {
    var n := |log| - 1;
    forall id | id in after ensures exists i :: LastMetadata(log, id, i) && !log[i].VecDelRec? {
      if MetadataRecord(log[n], id) {
        LastMetadataStep(log, id, n);
      } else {
        var i :| LastMetadata(log[..n], id, i) && !log[..n][i].VecDelRec?;
        LastMetadataStep(log, id, i);
      }
    }
    forall id, i | LastMetadata(log, id, i) && !log[i].VecDelRec?
      ensures id in after && after[id] == if log[i].MetaSetRec? then log[i].meta else log[i].given.value
    {
      LastMetadataStep(log, id, i);
    }
  }

  lemma {:induction false} EffectsAreLastRecords(cfg: Settings, log: seq<Record>)
    ensures VectorsOfLog(Effects(cfg, log).vectors, log) && MetadataOfLog(Effects(cfg, log).metadata, log)
    decreases |log|
  {
    hide VectorsOfLog, MetadataOfLog, Effect;
    if log == [] {
      NothingLogged();
    } else {
      var n := |log| - 1;
      var before, after := Effects(cfg, log[..n]), Effects(cfg, log);
      EffectsAreLastRecords(cfg, log[..n]);
      EffectOnVectors(cfg, before, log[n]);
      VectorsMore(before.vectors, after.vectors, log);
      MetadataMore(before.metadata, after.metadata, log);
    }
  }

  lemma NothingLogged()
    ensures VectorsOfLog(map[], []) && MetadataOfLog(map[], [])
  {
  }

  lemma EffectOnVectors(cfg: Settings, d: Data, r: Record)
    ensures forall id :: var v, v' := d.vectors, Effect(cfg, d, r).vectors;
      if VectorRecord(r, id) then (id in v' <==> r.VecSetRec?) && (r.VecSetRec? ==> v'[id] == r.vec)
      else (id in v' <==> id in v) && (id in v' ==> v'[id] == v[id])
    ensures forall id :: var m, m' := d.metadata, Effect(cfg, d, r).metadata;
      if MetadataRecord(r, id)
      then (id in m' <==> !r.VecDelRec?) && (!r.VecDelRec? ==> m'[id] == if r.MetaSetRec? then r.meta else r.given.value)
      else (id in m' <==> id in m) && (id in m' ==> m'[id] == m[id])
  {
    hide Appended;
  }

  // ---------- Events and index updates ----------

  /** The index updates of the i-th record; an event is paired with what its context has buffered. */
  ghost function OpsAt(cfg: Settings, log: seq<Record>, i: nat): seq<IndexOp>
    requires i < |log|
  {
    match log[i]
    case EventRec(ctx, e) => [Ingested(BufferOf(AppendAll(cfg.store, Arrivals(log[..i])), ctx), e)]
    case MaintenanceRec(alpha, prune) => [Decayed(alpha)] + if prune then [Pruned] else []
    case _ => []
  }

  ghost function OpsOf(cfg: Settings, log: seq<Record>): seq<IndexOp> {
    Joined(seq(|log|, i requires 0 <= i < |log| => OpsAt(cfg, log, i)))
  }

  lemma OpsMore(cfg: Settings, log: seq<Record>)
    requires log != []
    ensures var n := |log| - 1; OpsOf(cfg, log) == OpsOf(cfg, log[..n]) + OpsAt(cfg, log, n)
  {
    hide OpsAt;
    var n := |log| - 1;
    var all := seq(|log|, i requires 0 <= i < |log| => OpsAt(cfg, log, i));
    var init := seq(n, i requires 0 <= i < n => OpsAt(cfg, log[..n], i));
    forall i | 0 <= i < n ensures all[i] == init[i] { SameOps(cfg, log, n, i); }
    assert all[..n] == init;
  }

  lemma SameOps(cfg: Settings, log: seq<Record>, n: nat, i: nat)
    requires i < n <= |log|
    ensures OpsAt(cfg, log[..n], i) == OpsAt(cfg, log, i)
  {
    assert log[..n][..i] == log[..i];
  }

  /** The store holds the logged events, and the index has received one update for each record that asks for it, in order. */
  lemma {:induction false} EffectsIngest(cfg: Settings, log: seq<Record>)
    ensures Effects(cfg, log).store == AppendAll(cfg.store, Arrivals(log))
    ensures Effects(cfg, log).indexOps == OpsOf(cfg, log)
    decreases |log|
  {
    hide OpsOf, AppendAll, Arrivals, Effect;
    if log == [] {
      NoOps(cfg);
    } else {
      var n := |log| - 1;
      EffectsIngest(cfg, log[..n]);
      OpsMore(cfg, log);
      ArrivalsMore(log);
      IngestOne(cfg, Effects(cfg, log[..n]), log, Arrivals(log[..n]));
    }
  }

  lemma ArrivalsMore(log: seq<Record>)
    ensures log == [] ==> Arrivals(log) == []
    ensures log != [] ==> var n := |log| - 1;
      Arrivals(log) == Arrivals(log[..n]) + if log[n].EventRec? then [Arrival(log[n].ctx, log[n].e)] else []
  {
  }

  lemma IngestOne(cfg: Settings, d: Data, log: seq<Record>, h: seq<Arrival>)
    requires log != [] && h == Arrivals(log[..|log| - 1]) && d.store == AppendAll(cfg.store, h)
    ensures var n := |log| - 1; var d' := Effect(cfg, d, log[n]);
      && d'.store == AppendAll(cfg.store, h + if log[n].EventRec? then [Arrival(log[n].ctx, log[n].e)] else [])
      && d'.indexOps == d.indexOps + OpsAt(cfg, log, n)
  {
    hide Appended, Arrivals, AppendAll;
    var r := log[|log| - 1];
    if r.EventRec? { AppendAllMore(cfg.store, h, Arrival(r.ctx, r.e)); } else { assert h + [] == h; }
  }

  lemma AppendAllMore(cfg: Config, h: seq<Arrival>, x: Arrival)
    ensures AppendAll(cfg, h + [x]) == Appended(cfg, AppendAll(cfg, h), x.ctx, x.ev)
  {
    hide Appended;
    assert (h + [x])[..|h + [x]| - 1] == h;
  }

  lemma NoOps(cfg: Settings)
    ensures OpsOf(cfg, []) == [] && Arrivals([]) == [] && AppendAll(cfg.store, []) == EMPTY_VIEW
  {
  }

  /**
   In every state of every run between commands, with vectors logged, each store is what the log says about it: the
   vectors and metadata of the last records about them, the buffers of the logged events, and their index updates.
   */
  lemma StoresAreLastRecords(cfg: Settings, steps: seq<Step>)
    requires var s := Run(cfg, steps); !s.diverged && s.phase.Idle?
    ensures var s := Run(cfg, steps);
      && (cfg.includeVectors ==> VectorsOfLog(s.data.vectors, s.log) && MetadataOfLog(s.data.metadata, s.log))
      && s.data.store.buffers == AppendAll(cfg.store, Arrivals(s.log)).buffers
      && s.data.indexOps == OpsOf(cfg, s.log)
  {
    var s := Run(cfg, steps);
    CrashSafety.StoresAreAtLog(cfg, steps);
    hide Run, Effects, OpsOf, VectorsOfLog, MetadataOfLog;
    EffectsAreLastRecords(cfg, s.log);
    EffectsIngest(cfg, s.log);
    assert Blank(s.data.store).buffers == s.data.store.buffers;
  }

  // ---------- Which records a replay takes ----------

  /** A replay refuses invalid vectors, records about vectors it does not have, and decay that is none or grows scores. */
  lemma ReplayTakes(cfg: Settings, d: Data, r: Record, c: Clocks)
    ensures r.VecSetRec? ==> (Replay1(cfg, d, r, c).Ok? <==> cfg.validVector(d.vectors, r.id, r.vec))
    ensures r.VecDelRec? || r.MetaSetRec? ==> (Replay1(cfg, d, r, c).Ok? <==> r.id in d.vectors)
    ensures r.MaintenanceRec? ==> (Replay1(cfg, d, r, c).Ok? <==> 0.0 < r.alpha <= 1.0)
    ensures r.EventRec? && c.preview == c.commit && r.e.timestamp > 0 ==>
      (Replay1(cfg, d, r, c).Ok? <==> r.ctx != "" && r.e.id != "" && (r.e.kind == DEL || 0 <= r.e.score <= 100))
  {
    hide Seen, Recorded, Appended;
  }

  // ---------- What a command comes to ----------

  /** A command from acceptance to its last step, with nothing in between; the write gate sees to that. */
  ghost function Served(cfg: Settings, s: Server, cmd: Command, c: Clocks, walOk: bool, clock: Clock): Server {
    Next(cfg, Next(cfg, Next(cfg, s, Accept(cmd, c, walOk)), Apply(clock)), Finish)
  }

  ghost predicate Ready(cfg: Settings, s: Server, c: Clocks, clock: Clock) {
    && CrashSafety.Live(cfg, s) && s.phase.Idle? && !s.readOnly
    && c.preview.now <= c.commit.now && c.preview.now <= clock.now && c.preview.wall > 0
  }

  /** A server that has turned read-only takes no command any more: nothing it holds ever changes. */
  lemma {:induction false} ReadOnlyIsFinal(cfg: Settings, steps: seq<Step>, more: seq<Step>)
    requires Run(cfg, steps).readOnly && Run(cfg, steps).phase.Idle?
    ensures Run(cfg, steps + more) == Run(cfg, steps)
    decreases |more|
  {
    if more == [] {
      assert steps + more == steps;
    } else {
      var n := |more| - 1;
      var all := steps + more;
      assert all[..|all| - 1] == steps + more[..n] && all[|all| - 1] == more[n];
      ReadOnlyIsFinal(cfg, steps, more[..n]);
      ReadOnlyTakesNothing(cfg, Run(cfg, steps), more[n]);
    }
  }

  lemma ReadOnlyTakesNothing(cfg: Settings, s: Server, step: Step)
    requires s.readOnly && s.phase.Idle?
    ensures Next(cfg, s, step) == s
  {
    hide AcceptCommand, ApplyRecord;
  }

  /** A valid VECSET that the log takes, if it is to, sets vector and metadata; an invalid one changes nothing. */
  lemma VecSetOutcome(cfg: Settings, s: Server, id: Id, vec: Vector, given: Option<Attributes>, c: Clocks, walOk: bool, clock: Clock)
    requires Ready(cfg, s, c, clock)
    ensures var s' := Served(cfg, s, VecSet(id, vec, given), c, walOk, clock); var d := s.data;
      s' == if !cfg.validVector(d.vectors, id, vec) then s
        else if cfg.includeVectors && !walOk then s.(readOnly := true)
        else s.(log := s.log + (if cfg.includeVectors then [VecSetRec(id, vec, given)] else []),
                data := d.(vectors := d.vectors[id := vec], metadata := if given.Some? then d.metadata[id := given.value] else d.metadata))
  {
    hide CrashSafety.Live;
  }

  /** VECDEL and METASET are for known vectors; if the log refuses, the server turns read-only with its stores as they were. */
  lemma VecDelOutcome(cfg: Settings, s: Server, id: Id, c: Clocks, walOk: bool, clock: Clock)
    requires Ready(cfg, s, c, clock)
    ensures var d := s.data;
      Served(cfg, s, VecDel(id), c, walOk, clock) == if id !in d.vectors then s
        else if !walOk then s.(readOnly := true)
        else s.(log := s.log + [VecDelRec(id)], data := d.(vectors := d.vectors - {id}, metadata := d.metadata - {id}))
  {
    hide CrashSafety.Live;
  }

  lemma MetaSetOutcome(cfg: Settings, s: Server, id: Id, meta: Attributes, c: Clocks, walOk: bool, clock: Clock)
    requires Ready(cfg, s, c, clock)
    ensures var d := s.data;
      Served(cfg, s, MetaSet(id, meta), c, walOk, clock) == if id !in d.vectors then s
        else if !walOk then s.(readOnly := true)
        else s.(log := s.log + [MetaSetRec(id, meta)], data := d.(metadata := d.metadata[id := meta]))
  {
    hide CrashSafety.Live;
  }

  lemma MaintainOutcome(cfg: Settings, s: Server, prune: bool, c: Clocks, walOk: bool, clock: Clock)
    requires Ready(cfg, s, c, clock)
    ensures var d := s.data;
      Served(cfg, s, Maintain(prune), c, walOk, clock) == if !walOk then s.(readOnly := true)
        else s.(log := s.log + [MaintenanceRec(cfg.decayAlpha, prune)],
                data := d.(indexOps := d.indexOps + [Decayed(cfg.decayAlpha)] + if prune then [Pruned] else []))
  {
    hide CrashSafety.Live;
  }

  lemma EventServed(cfg: Settings, s: Server, ctx: string, id: Id, score: int, kind: EventType, timestamp: nat,
                     c: Clocks, walOk: bool, clock: Clock)
    requires Ready(cfg, s, c, clock)
    ensures var s', v := Served(cfg, s, Event_(ctx, id, score, kind, timestamp), c, walOk, clock), s.data.store;
      var e := Event(id, if kind == DEL then 0 else score, Resolve(timestamp, c.preview), kind);
      var seen := Seen(cfg.store, v, ctx, id, score, kind, e.timestamp, c.preview.now);
      if Validate(ctx, id, score, kind).Some? then s' == s
      else if seen || !walOk then
        && s'.log == s.log && s'.data.indexOps == s.data.indexOps
        && (seen && Seen(cfg.store, v, ctx, id, score, kind, e.timestamp, c.commit.now) ==>
              s'.data.store.buffers == v.buffers && !s'.readOnly)
        && (!seen ==> s' == s.(readOnly := true))
      else
        && s'.phase.Idle? && !s'.readOnly && s'.log == s.log + [EventRec(ctx, e)]
        && BufferOf(s'.data.store, ctx) == LastN(BufferOf(v, ctx) + [e], cfg.store.bufferSize)
        && s'.data.indexOps == s.data.indexOps + [Ingested(BufferOf(v, ctx), e)]
        && s'.data.vectors == s.data.vectors && s'.data.metadata == s.data.metadata
  {
    hide CrashSafety.Live, Seen, ApplyRecord, Ingest, Recorded;
    var v := s.data.store;
    if Validate(ctx, id, score, kind).None? {
      var e := Event(id, if kind == DEL then 0 else score, Resolve(timestamp, c.preview), kind);
      if !Seen(cfg.store, v, ctx, id, score, kind, e.timestamp, c.preview.now) {
        if walOk {
          CrashSafety.PreviewedEvent(cfg, v, ctx, id, score, kind, e.timestamp, c.preview.now);
          NewEventOutcome(cfg, s, ctx, e, c.preview.now, clock);
        }
      } else if Seen(cfg.store, v, ctx, id, score, kind, e.timestamp, c.commit.now) {
        ReadyIsConsistent(cfg, s, c, clock);
        SeenIsDropped(cfg, s.data, ctx, id, score, kind, e.timestamp, c.commit);
        SameContents(cfg.store, Ingest(cfg.store, v, ctx, id, score, kind, e.timestamp, c.commit).value.after, v);
      }
    }
  }

  /**
   An event that is valid and new is logged, buffered in its context, and paired with what was buffered there; an
   invalid one changes nothing, and so does, caches aside, a duplicate or one the log refuses.
   */
  lemma EventOutcome(cfg: Settings, s: Server, ctx: string, id: Id, score: int, kind: EventType, timestamp: nat,
                     c: Clocks, walOk: bool, clock: Clock)
    requires Ready(cfg, s, c, clock)
    ensures var s', v := Served(cfg, s, Event_(ctx, id, score, kind, timestamp), c, walOk, clock), s.data.store;
      var e := Event(id, if kind == DEL then 0 else score, if timestamp != 0 then timestamp else c.preview.wall, kind);
      var seen := Seen(cfg.store, v, ctx, id, score, kind, e.timestamp, c.preview.now);
      if ctx == "" || id == "" || (kind != DEL && !(0 <= score <= 100)) then s' == s
      else if seen || !walOk then
        && s'.log == s.log && s'.data.indexOps == s.data.indexOps
        && (seen && Seen(cfg.store, v, ctx, id, score, kind, e.timestamp, c.commit.now) ==>
              s'.data.store.buffers == v.buffers && !s'.readOnly)
        && (!seen ==> s' == s.(readOnly := true))
      else
        && s'.phase.Idle? && !s'.readOnly && s'.log == s.log + [EventRec(ctx, e)]
        && BufferOf(s'.data.store, ctx) == LastN(BufferOf(v, ctx) + [e], cfg.store.bufferSize)
        && s'.data.indexOps == s.data.indexOps + [Ingested(BufferOf(v, ctx), e)]
        && s'.data.vectors == s.data.vectors && s'.data.metadata == s.data.metadata
  {
    hide Served, Ready, Seen;
    EventServed(cfg, s, ctx, id, score, kind, timestamp, c, walOk, clock);
  }

  lemma ReadyIsConsistent(cfg: Settings, s: Server, c: Clocks, clock: Clock)
    requires Ready(cfg, s, c, clock)
    ensures Consistent(cfg.store, s.data.store)
  {
  }

  lemma NewEventOutcome(cfg: Settings, s: Server, ctx: string, e: Event, since: int, clock: Clock)
    requires CrashSafety.Live(cfg, s) && s.phase.Idle? && !s.readOnly && since <= clock.now && e.timestamp > 0
    requires Validate(ctx, e.id, e.score, e.kind).None? && (e.kind == DEL ==> e.score == 0)
    requires !Seen(cfg.store, s.data.store, ctx, e.id, e.score, e.kind, e.timestamp, since)
    ensures var v := s.data.store;
      var s1 := s.(log := s.log + [EventRec(ctx, e)], phase := Accepted(EventRec(ctx, e), since));
      var s' := Next(cfg, Next(cfg, s1, Apply(clock)), Finish);
      && s'.phase.Idle? && !s'.readOnly && s'.log == s1.log
      && BufferOf(s'.data.store, ctx) == LastN(BufferOf(v, ctx) + [e], cfg.store.bufferSize)
      && s'.data.indexOps == s.data.indexOps + [Ingested(BufferOf(v, ctx), e)]
      && s'.data.vectors == s.data.vectors && s'.data.metadata == s.data.metadata
  {
    hide Consistent, Seen, Appended, Effects, LogValid, Ingest, LastN;
    var v := s.data.store;
    UnseenStaysUnseen(cfg.store, v, ctx, e.id, e.score, e.kind, e.timestamp, since, clock.now);
    UnseenIsStored(cfg, s.data, ctx, e, clock);
    BufferAppended(cfg.store, Blank(v), ctx, e);
  }

  lemma BufferAppended(cfg: Config, v: View, ctx: string, e: Event)
    ensures BufferOf(Appended(cfg, v, ctx, e), ctx) == LastN(BufferOf(v, ctx) + [e], cfg.bufferSize)
  {
    hide LastN, Evicted;
  }
}
