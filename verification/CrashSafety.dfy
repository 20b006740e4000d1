/** What a crash can expose, and when replaying the log gives the stores back. */
module CrashSafety {
  import opened Wrappers
  import opened Events
  import opened Sequences
  import opened EventCaches
  import opened EventStores
  import opened Recovery

  ghost predicate ClocksForward(clocks: nat -> Clocks) {
    forall i: nat :: clocks(i).preview.now <= clocks(i).commit.now
  }

  // ---------- Exactly which logs replay ----------

  /** One replayed record counts for at most one event, and for none if it is dropped. */
  lemma ReplayCounts(cfg: Settings, d: Data, r: Record, c: Clocks)
    requires Replay1(cfg, d, r, c).Ok?
    ensures var d' := Replay1(cfg, d, r, c).value;
      && d'.store.sequence == d.store.sequence + (if r.EventRec? && !Dropped(cfg, d, r, c) then 1 else 0)
      && (!r.VecSetRec? && d.vectors == map[] ==> d'.vectors == map[] && !r.VecDelRec? && !r.MetaSetRec?)
      && (r.MaintenanceRec? ==> r.alpha > 0.0)
  {
    hide Seen, Consistent, Evicted, Validate, LastN, UseMap;
  }

  /** A replay that gets through stores no more events than were logged, and as many only if nothing stood in its way. */
  lemma {:induction false} ReplayIsNoBetter(cfg: Settings, log: seq<Record>, clocks: nat -> Clocks)
    requires LogValid(cfg, log) && Replay(cfg, log, clocks).Ok?
    ensures var d, fx := Replay(cfg, log, clocks).value, Effects(cfg, log);
      && d.store.sequence <= fx.store.sequence
      && (!cfg.includeVectors ==> d.vectors == map[])
      && (d.store.sequence == fx.store.sequence ==> Recoverable(cfg, log) && NoneDropped(cfg, log, clocks))
    decreases |log|
  {
    if log != [] {
      hide Dropped, Replay1, Effect, Validate, Recoverable;
      var n := |log| - 1;
      RecoverableMore(cfg, log);
      ReplayIsNoBetter(cfg, log[..n], clocks);
      ReplayCounts(cfg, Replay(cfg, log[..n], clocks).value, log[n], clocks(n));
      EffectCounts(cfg, Effects(cfg, log[..n]), log[n]);
    }
  }

  lemma EffectCounts(cfg: Settings, d: Data, r: Record)
    ensures Effect(cfg, d, r).store.sequence == d.store.sequence + (if r.EventRec? then 1 else 0)
  {
    hide Evicted;
  }

  /**
   Recovery rebuilds what was logged exactly when the log holds no zero decay, no record about vectors that
   are not logged, and no event that the caches rebuilt so far take for a duplicate.
   */
  lemma RecoveryIsExact(cfg: Settings, log: seq<Record>, clocks: nat -> Clocks)
    requires LogValid(cfg, log) && 0.0 <= cfg.decayAlpha <= 1.0 && ClocksForward(clocks)
    ensures (Replay(cfg, log, clocks).Ok? && Matches(cfg, Replay(cfg, log, clocks).value, Effects(cfg, log)))
      <==> (Recoverable(cfg, log) && NoneDropped(cfg, log, clocks))
  {
    if Recoverable(cfg, log) && NoneDropped(cfg, log, clocks) { GoodReplay(cfg, log, clocks); }
    if Replay(cfg, log, clocks).Ok? { ReplayIsNoBetter(cfg, log, clocks); }
  }

  // ---------- What a crash can expose ----------

  predicate Logged(cfg: Settings, r: Record) { r.VecSetRec? ==> cfg.includeVectors }

  ghost predicate Unseen(cfg: Settings, v: View, r: Record, now: int) {
    r.EventRec? ==>
      && Validate(r.ctx, r.e.id, r.e.score, r.e.kind).None? && r.e.timestamp > 0 && (r.e.kind == DEL ==> r.e.score == 0)
      && !Seen(cfg.store, v, r.ctx, r.e.id, r.e.score, r.e.kind, r.e.timestamp, now)
  }

  /** Where the stores stand relative to the log, phase by phase. */
  ghost predicate AtLog(cfg: Settings, s: Server) {
    var now, before := Effects(cfg, s.log), Effects(cfg, Front(s.log));
    match s.phase
    case Idle => Matches(cfg, s.data, now)
    case Accepted(r, since) =>
      && Unseen(cfg, s.data.store, r, since)
      && if Logged(cfg, r) then s.log != [] && s.log[|s.log| - 1] == r && Matches(cfg, s.data, before) else Matches(cfg, s.data, now)
    case EventStored(prior, e) =>
      && Blank(s.data.store) == Blank(now.store)
      && s.data.indexOps == before.indexOps && s.data.indexOps + [Ingested(prior, e)] == now.indexOps
      && (cfg.includeVectors ==> s.data.vectors == now.vectors && s.data.metadata == now.metadata)
    case VectorStored(id, meta) =>
      && EventPart(s.data) == EventPart(now)
      && (cfg.includeVectors ==>
            s.data.vectors == now.vectors && s.data.metadata == before.metadata && s.data.metadata[id := meta] == now.metadata)
  }

  ghost predicate Live(cfg: Settings, s: Server) {
    && Consistent(cfg.store, s.data.store) && LogValid(cfg, s.log)
    && if s.diverged then s.phase.Idle? && s.readOnly else AtLog(cfg, s)
  }

  lemma LogGrows(cfg: Settings, log: seq<Record>, r: Record)
    ensures Front(log + [r]) == log
    ensures Effects(cfg, log + [r]) == Effect(cfg, Effects(cfg, log), r)
    ensures LogValid(cfg, log + [r]) <==> LogValid(cfg, log) && RecordValid(cfg, Effects(cfg, log), r)
  {
    assert (log + [r])[..|log + [r]| - 1] == log;
  }

  lemma AppendIsLive(cfg: Settings, s: Server, r: Record, c: Clocks, walOk: bool)
    requires Live(cfg, s) && s.phase.Idle? && !s.diverged
    requires Unseen(cfg, s.data.store, r, c.preview.now)
    requires Logged(cfg, r) ==> RecordValid(cfg, s.data, r)
    ensures Live(cfg, Append(cfg, s, r, c, walOk))
  {
    hide Consistent, Seen, Effect;
    LogGrows(cfg, s.log, r);
  }

  lemma EventIsLive(cfg: Settings, s: Server, ctx: string, id: Id, score: int, kind: EventType, timestamp: nat, c: Clocks, walOk: bool)
    requires Live(cfg, s) && s.phase.Idle? && !s.diverged && c.preview.now <= c.commit.now && c.preview.wall > 0
    ensures Live(cfg, AcceptCommand(cfg, s, Event_(ctx, id, score, kind, timestamp), c, walOk))
  {
    hide Consistent, Effect, Effects, LogValid, Append, Seen;
    var v := s.data.store;
    if Validate(ctx, id, score, kind).None? {
      var ts := Resolve(timestamp, c.preview);
      PreviewedEvent(cfg, v, ctx, id, score, kind, ts, c.preview.now);
      if !Seen(cfg.store, v, ctx, id, score, kind, ts, c.preview.now) {
        AppendIsLive(cfg, s, EventRec(ctx, Event(id, if kind == DEL then 0 else score, ts, kind)), c, walOk);
      } else if Seen(cfg.store, v, ctx, id, score, kind, ts, c.commit.now) {
        SeenIsDropped(cfg, s.data, ctx, id, score, kind, ts, c.commit);
      } else {
        IngestIsConsistent(cfg, v, ctx, id, score, kind, ts, c.commit);
      }
    }
  }

  /** The record written for an event is as unseen as the command it came from. */
  lemma PreviewedEvent(cfg: Settings, v: View, ctx: string, id: Id, score: int, kind: EventType, ts: nat, now: int)
    requires Validate(ctx, id, score, kind).None?
    ensures var score' := if kind == DEL then 0 else score;
      && Validate(ctx, id, score', kind).None?
      && (Seen(cfg.store, v, ctx, id, score', kind, ts, now) <==> Seen(cfg.store, v, ctx, id, score, kind, ts, now))
  {
  }

  lemma IngestIsConsistent(cfg: Settings, v: View, ctx: string, id: Id, score: int, kind: EventType, ts: nat, clock: Clock)
    requires Consistent(cfg.store, v)
    ensures var r := Ingest(cfg.store, v, ctx, id, score, kind, ts, clock); r.Ok? ==> Consistent(cfg.store, r.value.after)
  {
    hide Consistent, Seen, Evicted;
    var t := Resolve(ts, clock);
    var w := Recorded(cfg.store, v, ctx, id, score, kind, t, clock.now);
    SameContents(cfg.store, w, v);
    AppendedIsConsistent(cfg.store, w, ctx, Event(id, if kind == DEL then 0 else score, t, kind));
  }

  lemma AcceptIsLive(cfg: Settings, s: Server, cmd: Command, c: Clocks, walOk: bool)
    requires Live(cfg, s) && s.phase.Idle? && !s.readOnly && c.preview.now <= c.commit.now && c.preview.wall > 0
    ensures Live(cfg, AcceptCommand(cfg, s, cmd, c, walOk))
  {
    hide Consistent, Seen, Effect, Append, Effects, LogValid, Ingest, Prepare;
    match cmd {
      case Event_(ctx, id, score, kind, timestamp) => EventIsLive(cfg, s, ctx, id, score, kind, timestamp, c, walOk);
      case VecSet(id, vec, given) =>
        if cfg.validVector(s.data.vectors, id, vec) { AppendIsLive(cfg, s, VecSetRec(id, vec, given), c, walOk); }
      case VecDel(id) => if id in s.data.vectors { AppendIsLive(cfg, s, VecDelRec(id), c, walOk); }
      case MetaSet(id, meta) => if id in s.data.vectors { AppendIsLive(cfg, s, MetaSetRec(id, meta), c, walOk); }
      case Maintain(prune) => AppendIsLive(cfg, s, MaintenanceRec(cfg.decayAlpha, prune), c, walOk);
    }
  }

  /** A record is one more effect on the log. */
  lemma LastEffect(cfg: Settings, log: seq<Record>)
    requires log != []
    ensures Effects(cfg, log) == Effect(cfg, Effects(cfg, Front(log)), log[|log| - 1])
    ensures var fx := Effects(cfg, Front(log)); Consistent(cfg.store, fx.store) && Blank(fx.store) == fx.store
  {
    EffectsAreConsistent(cfg, Front(log));
  }

  lemma ApplyIsLive(cfg: Settings, s: Server, clock: Clock)
    requires Live(cfg, s) && s.phase.Accepted? && s.phase.since <= clock.now
    ensures Live(cfg, ApplyRecord(cfg, s, s.phase.r, clock))
    ensures !s.diverged && !ApplyRecord(cfg, s, s.phase.r, clock).diverged
  {
    hide Consistent, Effects, LogValid, Seen, Appended, Ingest;
    var r := s.phase.r;
    if Logged(cfg, r) { LastEffect(cfg, s.log); }
    if r.EventRec? {
      var d, fx, e := s.data, Effects(cfg, Front(s.log)), r.e;
      UnseenStaysUnseen(cfg.store, d.store, r.ctx, e.id, e.score, e.kind, e.timestamp, s.phase.since, clock.now);
      UnseenIsStored(cfg, d, r.ctx, e, clock);
      assert Blank(d.store) == fx.store;
      assert BlankData(d).store == BlankData(fx).store;
      AppendedIgnoresCaches(cfg.store, fx.store, r.ctx, e);
    }
  }

  lemma NextIsLive(cfg: Settings, s: Server, step: Step)
    requires Live(cfg, s)
    ensures Live(cfg, Next(cfg, s, step))
    ensures s.diverged ==> Next(cfg, s, step).diverged
    ensures !s.diverged && Next(cfg, s, step).diverged ==> step.Accept?
  {
    hide Consistent, Effects, LogValid, AcceptCommand, ApplyRecord;
    if step.Accept? && s.phase.Idle? && !s.readOnly && step.clocks.preview.now <= step.clocks.commit.now && step.clocks.preview.wall > 0 {
      AcceptIsLive(cfg, s, step.cmd, step.clocks, step.walOk);
    }
    if step.Apply? && s.phase.Accepted? && s.phase.since <= step.clock.now { ApplyIsLive(cfg, s, step.clock); }
  }

  lemma {:induction false} RunIsLive(cfg: Settings, steps: seq<Step>)
    ensures Live(cfg, Run(cfg, steps))
    decreases |steps|
  {
    if steps == [] {
      assert Effects(cfg, []) == NO_DATA;
    } else {
      RunIsLive(cfg, steps[..|steps| - 1]);
      hide Live, Next;
      NextIsLive(cfg, Run(cfg, steps[..|steps| - 1]), steps[|steps| - 1]);
    }
  }

  /**
   Write-ahead logging is crash-safe: whenever the server stops, each of its stores is what the log records or what
   the log without its last record does, and between commands it is what the log records.
   */
  lemma StoresAreAtLog(cfg: Settings, steps: seq<Step>)
    ensures var s := Run(cfg, steps);
      !s.diverged ==>
        var now, before := Effects(cfg, s.log), Effects(cfg, Front(s.log));
        && LogValid(cfg, s.log)
        && (s.phase.Idle? ==> Matches(cfg, s.data, now))
        && (Blank(s.data.store) == now.store || Blank(s.data.store) == before.store)
        && (s.data.indexOps == now.indexOps || s.data.indexOps == before.indexOps)
        && (cfg.includeVectors ==>
              && (s.data.vectors == now.vectors || s.data.vectors == before.vectors)
              && (s.data.metadata == now.metadata || s.data.metadata == before.metadata))
  {
    hide Consistent, Effects, LogValid, Seen;
    var s := Run(cfg, steps);
    RunIsLive(cfg, steps);
    EffectsAreConsistent(cfg, s.log);
    EffectsAreConsistent(cfg, Front(s.log));
  }

  /** A record that was accepted is never refused afterwards: the branch that handles it is unreachable. */
  lemma AcceptedRecordsApply(cfg: Settings, steps: seq<Step>, clock: Clock)
    ensures var s := Run(cfg, steps);
      s.phase.Accepted? && s.phase.since <= clock.now && s.phase.r.EventRec? ==>
        Next(cfg, s, Apply(clock)) == ApplyRecord(cfg, s, s.phase.r, clock)
        && Next(cfg, s, Apply(clock)).phase.EventStored? && Next(cfg, s, Apply(clock)).readOnly == s.readOnly
  {
    var s := Run(cfg, steps);
    RunIsLive(cfg, steps);
    if s.phase.Accepted? && s.phase.since <= clock.now && s.phase.r.EventRec? {
      hide Consistent, Effects, LogValid, Seen, Appended, Run;
      var r, d := s.phase.r, s.data;
      UnseenStaysUnseen(cfg.store, d.store, r.ctx, r.e.id, r.e.score, r.e.kind, r.e.timestamp, s.phase.since, clock.now);
      UnseenIsStored(cfg, d, r.ctx, r.e, clock);
    }
  }
}
