/** From the buffers of the event store to the scores of the index. */
module StoreStream {
  import opened Events
  import opened EventStores
  import Co = CoOccurrence
  import Log = Recovery
  import CrashSafety
  import LruList
  import RingBuffers
  import opened Sequences

  /** What a context has buffered; nothing for one that is not in the store. */
  function BufferOf(v: View, ctx: string): seq<Event> { if ctx in v.buffers then v.buffers[ctx] else [] }

  /** Whether a context is still in the store, by the order of writes alone. */
  predicate InStore(cfg: Config, history: seq<Arrival>, ctx: string) {
    if cfg.maxContexts == 0 then ctx in Contexts(history)
    else ctx in LruList.Take(LruList.Recency(Contexts(history)), cfg.maxContexts)
  }

  /** The events of a context since it last entered the store. */
  function Stay(cfg: Config, history: seq<Arrival>, ctx: string): seq<Event>
    decreases |history|
  {
    if history == [] then []
    else
      var init, x := history[..|history| - 1], history[|history| - 1];
      if x.ctx != ctx then Stay(cfg, init, ctx)
      else (if InStore(cfg, init, ctx) then Stay(cfg, init, ctx) else []) + [x.ev]
  }

  /** A context that comes back does so while it is still in the store. */
  predicate ReturnsInTime(cfg: Config, history: seq<Arrival>) {
    forall n :: 0 <= n < |history| && history[n].ctx in Contexts(history[..n]) ==> InStore(cfg, history[..n], history[n].ctx)
  }

  // ---------- What the store buffers ----------

  lemma InStoreMeansWritten(cfg: Config, history: seq<Arrival>, ctx: string)
    requires InStore(cfg, history, ctx)
    ensures ctx in Contexts(history)
  {
    LruList.RecencyIsByLastUse(Contexts(history));
  }

  /** The store holds exactly the contexts that the order of writes says. */
  lemma {:induction false} StoreHolds(cfg: Config, history: seq<Arrival>, ctx: string)
    ensures ctx in AppendAll(cfg, history).buffers <==> InStore(cfg, history, ctx)
    decreases |history|
  {
    if cfg.maxContexts > 0 {
      KeepsMostRecentContexts(cfg, history);
    } else if history != [] {
      var n := |history| - 1;
      StoreHolds(cfg, history[..n], ctx);
      assert Contexts(history) == Contexts(history[..n]) + [history[n].ctx];
    }
  }

  /** One write: the written context gets the event, the others keep their buffers or go. */
  lemma AppendedBuffers(cfg: Config, v: View, ctx: string, e: Event, c: string)
    requires c in Appended(cfg, v, ctx, e).buffers
    ensures c == ctx ==> BufferOf(Appended(cfg, v, ctx, e), c) == LastN(BufferOf(v, ctx) + [e], cfg.bufferSize)
    ensures c != ctx ==> c in v.buffers && BufferOf(Appended(cfg, v, ctx, e), c) == BufferOf(v, c)
  {
    hide LastN;
  }

  /** Every buffer holds the last events of its context's present stay in the store. */
  lemma {:induction false} BuffersAreStays(cfg: Config, history: seq<Arrival>, ctx: string)
    requires cfg.bufferSize > 0
    ensures BufferOf(AppendAll(cfg, history), ctx) ==
      if InStore(cfg, history, ctx) then LastN(Stay(cfg, history, ctx), cfg.bufferSize) else []
    decreases |history|
  {
    hide InStore, Appended;
    StoreHolds(cfg, history, ctx);
    if history != [] && InStore(cfg, history, ctx) {
      var n := |history| - 1;
      var init, x := history[..n], history[n];
      BuffersAreStays(cfg, init, ctx);
      StoreHolds(cfg, init, ctx);
      AppendedBuffers(cfg, AppendAll(cfg, init), x.ctx, x.ev, ctx);
      RingBuffers.LastNAbsorbs(Stay(cfg, init, ctx), x.ev, cfg.bufferSize);
      assert LastN<Event>([], cfg.bufferSize) == [];
    }
    if history == [] && InStore(cfg, history, ctx) { InStoreMeansWritten(cfg, history, ctx); }
  }

  lemma {:induction false} InContextMore(history: seq<Arrival>, ctx: string)
    requires history != []
    ensures var n := |history| - 1;
      InContext(history, ctx) == InContext(history[..n], ctx) + if history[n].ctx == ctx then [history[n].ev] else []
  {
    var n := |history| - 1;
    if n > 0 {
      InContextMore(history[1..], ctx);
      assert history[1..][..n - 1] == history[..n][1..];
    }
  }

  lemma {:induction false} WrittenIsInContext(history: seq<Arrival>, ctx: string)
    ensures ctx in Contexts(history) <==> InContext(history, ctx) != []
  {
    if history != [] {
      WrittenIsInContext(history[1..], ctx);
      assert Contexts(history) == [history[0].ctx] + Contexts(history[1..]);
    }
  }

  lemma InTimeBefore(cfg: Config, history: seq<Arrival>, n: nat)
    requires ReturnsInTime(cfg, history) && n <= |history|
    ensures ReturnsInTime(cfg, history[..n])
  {
    hide InStore, Contexts;
    forall k | 0 <= k < n && history[..n][k].ctx in Contexts(history[..n][..k])
      ensures InStore(cfg, history[..n][..k], history[..n][k].ctx)
    {
      assert history[..n][..k] == history[..k];
    }
  }

  /** If every context comes back in time, a stay is all there ever was in the context. */
  lemma {:induction false} StayIsAll(cfg: Config, history: seq<Arrival>, ctx: string)
    requires ReturnsInTime(cfg, history)
    ensures Stay(cfg, history, ctx) == InContext(history, ctx)
    decreases |history|
  {
    if history != [] {
      hide InStore, Contexts;
      var n := |history| - 1;
      InTimeBefore(cfg, history, n);
      StayIsAll(cfg, history[..n], ctx);
      InContextMore(history, ctx);
      WrittenIsInContext(history[..n], ctx);
    }
  }

  /** What the n-th arrival is paired with. */
  ghost function PriorAt(cfg: Config, history: seq<Arrival>, n: nat): seq<Event>
    requires n < |history|
  {
    BufferOf(AppendAll(cfg, history[..n]), history[n].ctx)
  }

  /** What it would be paired with if no context were ever evicted. */
  function WindowAt(cfg: Config, history: seq<Arrival>, n: nat): seq<Event>
    requires n < |history|
  {
    LastN(InContext(history[..n], history[n].ctx), cfg.bufferSize)
  }

  /** The store hands out the last events of the context, for every arrival, exactly when contexts come back in time. */
  lemma PriorsAreWindows(cfg: Config, history: seq<Arrival>)
    requires cfg.bufferSize > 0
    ensures (forall n :: 0 <= n < |history| ==> PriorAt(cfg, history, n) == WindowAt(cfg, history, n)) <==> ReturnsInTime(cfg, history)
  {
    forall n | 0 <= n < |history|
      ensures ReturnsInTime(cfg, history) ==> PriorAt(cfg, history, n) == WindowAt(cfg, history, n)
      ensures PriorAt(cfg, history, n) == WindowAt(cfg, history, n) && history[n].ctx in Contexts(history[..n])
        ==> InStore(cfg, history[..n], history[n].ctx)
    {
      hide InStore, Contexts;
      var c := history[n].ctx;
      BuffersAreStays(cfg, history[..n], c);
      WrittenIsInContext(history[..n], c);
      if ReturnsInTime(cfg, history) {
        InTimeBefore(cfg, history, n);
        StayIsAll(cfg, history[..n], c);
      }
    }
  }

  /** Contexts come back in time whenever there are at most as many as the store holds, or it is not limited. */
  lemma RoomForAll(cfg: Config, history: seq<Arrival>, all: set<string>)
    requires cfg.maxContexts == 0 || |all| <= cfg.maxContexts
    requires forall c :: c in Contexts(history) ==> c in all
    ensures ReturnsInTime(cfg, history)
  {
    forall n | 0 <= n < |history| && history[n].ctx in Contexts(history[..n]) ensures InStore(cfg, history[..n], history[n].ctx) {
      var h := Contexts(history[..n]);
      LruList.RecencyIsByLastUse(h);
      forall c | c in h ensures c in all {
        var i :| 0 <= i < |h| && h[i] == c;
        assert Contexts(history)[i] == c;
      }
      FewKeys(LruList.Recency(h), all);
    }
  }

  lemma {:induction false} FewKeys(s: seq<string>, all: set<string>)
    requires Distinct(s) && forall c :: c in s ==> c in all
    ensures |s| <= |all|
  {
    if s != [] {
      assert s == [s[0]] + s[1..];
      FewKeys(s[1..], all - {s[0]});
    }
  }

  // ---------- The scores ----------

  /** Unpruned streaming ingestion with the buffers of the store. */
  ghost function StoredStream(cfg: Config, history: seq<Arrival>, t: Temporal): Co.Matrix
    decreases |history|
  {
    if history == [] then map[]
    else
      var n := |history| - 1;
      Co.AddPairs(StoredStream(cfg, history[..n], t), PriorAt(cfg, history, n), history[n].ev, t)
  }

  /** When contexts come back in time, every score is the sum over pairs of one context at most a buffer apart. */
  lemma {:induction false} StoredStreamIsWindowSum(cfg: Config, history: seq<Arrival>, t: Temporal)
    requires cfg.bufferSize > 0 && ReturnsInTime(cfg, history)
    ensures StoredStream(cfg, history, t) == Co.Stream(history, cfg.bufferSize, t)
    ensures Co.Symmetric(StoredStream(cfg, history, t))
    ensures forall a, b :: Co.Score(StoredStream(cfg, history, t), a, b) == WindowSum(history, cfg.bufferSize, a, b, t)
    decreases |history|
  {
    Co.StreamIsWindowSum(history, cfg.bufferSize, t);
    if history != [] {
      hide Co.Symmetric, Co.Clean, Co.Score, Co.AddPairs, ReturnsInTime;
      var n := |history| - 1;
      InTimeBefore(cfg, history, n);
      StoredStreamIsWindowSum(cfg, history[..n], t);
      PriorsAreWindows(cfg, history);
      assert PriorAt(cfg, history, n) == WindowAt(cfg, history, n);
    }
  }

  /** One context, at most one event more than its buffer holds: the store's stream is a batch rebuild in any order. */
  lemma StoredStreamEqualsBatch(cfg: Config, history: seq<Arrival>, ctx: string, r: seq<Event>, t: Temporal)
    requires forall i :: 0 <= i < |history| ==> history[i].ctx == ctx
    requires 0 < cfg.bufferSize && |history| <= cfg.bufferSize + 1
    requires multiset(r) == multiset(InContext(history, ctx))
    ensures forall a, b :: Co.Score(StoredStream(cfg, history, t), a, b) == Co.Score(Co.Batch(map[], r, t), a, b)
  {
    RoomForAll(cfg, history, {ctx});
    StoredStreamIsWindowSum(cfg, history, t);
    Co.StreamEqualsBatch(history, ctx, cfg.bufferSize, r, t);
  }

  // ---------- The server ----------

  /** The events of a log, in order. */
  function Arrivals(log: seq<Log.Record>): seq<Arrival>
    decreases |log|
  {
    if log == [] then []
    else
      var r := log[|log| - 1];
      Arrivals(log[..|log| - 1]) + if r.EventRec? then [Arrival(r.ctx, r.e)] else []
  }

  /** Nothing but ingestion has changed the scores. */
  predicate OnlyAdds(idx: Log.Index, log: seq<Log.Record>) {
    forall r :: r in log ==> !r.MaintenanceRec? && (r.EventRec? && r.e.kind == DEL ==> !idx.options.negativeSignals)
  }

  /** The effects of a log on store and scores are those of its events. */
  lemma {:induction false} LogIsStoredStream(cfg: Log.Settings, idx: Log.Index, log: seq<Log.Record>)
    requires OnlyAdds(idx, log)
    ensures var fx := Log.Effects(cfg, log);
      && fx.store == AppendAll(cfg.store, Arrivals(log))
      && Log.MatrixOf(idx, fx.indexOps) == StoredStream(cfg.store, Arrivals(log), idx.options.temporal)
    decreases |log|
  {
    if log != [] {
      hide Appended, Co.AddPairs, Log.MatrixOf, StoredStream, AppendAll, Log.Effect;
      var n := |log| - 1;
      assert log == log[..n] + [log[n]];
      assert OnlyAdds(idx, log[..n]) && log[n] in log;
      LogIsStoredStream(cfg, idx, log[..n]);
      OneMoreRecord(cfg, idx, Arrivals(log[..n]), Log.Effects(cfg, log[..n]), log[n]);
    } else {
      hide Appended, Co.AddPairs;
    }
  }

  lemma OneMoreRecord(cfg: Log.Settings, idx: Log.Index, history: seq<Arrival>, fx: Log.Data, r: Log.Record)
    requires fx.store == AppendAll(cfg.store, history) && !r.MaintenanceRec?
    requires r.EventRec? && r.e.kind == DEL ==> !idx.options.negativeSignals
    requires Log.MatrixOf(idx, fx.indexOps) == StoredStream(cfg.store, history, idx.options.temporal)
    ensures var fx', h := Log.Effect(cfg, fx, r), history + if r.EventRec? then [Arrival(r.ctx, r.e)] else [];
      && fx'.store == AppendAll(cfg.store, h)
      && Log.MatrixOf(idx, fx'.indexOps) == StoredStream(cfg.store, h, idx.options.temporal)
  {
    hide Appended, AppendAll, StoredStream, Log.MatrixOf;
    if r.EventRec? {
      OneMoreEvent(cfg.store, idx, history, fx.store, fx.indexOps, r.ctx, r.e);
    } else {
      assert history + [] == history;
    }
  }

  lemma OneMoreEvent(cfg: Config, idx: Log.Index, history: seq<Arrival>, v: View, ops: seq<Log.IndexOp>, ctx: string, e: Event)
    requires v == AppendAll(cfg, history) && (e.kind == DEL ==> !idx.options.negativeSignals)
    requires Log.MatrixOf(idx, ops) == StoredStream(cfg, history, idx.options.temporal)
    ensures AppendAll(cfg, history + [Arrival(ctx, e)]) == Appended(cfg, v, ctx, e)
    ensures Log.MatrixOf(idx, ops + [Log.Ingested(BufferOf(v, ctx), e)])
      == StoredStream(cfg, history + [Arrival(ctx, e)], idx.options.temporal)
  {
    hide Appended, Co.AddPairs, Log.MatrixOf, StoredStream;
    var h := history + [Arrival(ctx, e)];
    assert h[..|h| - 1] == history;
    StreamMore(cfg, history, Arrival(ctx, e), idx.options.temporal);
    MatrixMore(idx, ops, BufferOf(v, ctx), e);
  }

  lemma StreamMore(cfg: Config, history: seq<Arrival>, x: Arrival, t: Temporal)
    ensures StoredStream(cfg, history + [x], t)
      == Co.AddPairs(StoredStream(cfg, history, t), BufferOf(AppendAll(cfg, history), x.ctx), x.ev, t)
  {
    hide AppendAll, Co.AddPairs;
    assert (history + [x])[..|history|] == history;
  }

  lemma MatrixMore(idx: Log.Index, ops: seq<Log.IndexOp>, prior: seq<Event>, e: Event)
    requires e.kind == DEL ==> !idx.options.negativeSignals
    ensures Log.MatrixOf(idx, ops + [Log.Ingested(prior, e)]) == Co.AddPairs(Log.MatrixOf(idx, ops), prior, e, idx.options.temporal)
  {
    hide Co.AddPairs, Co.Dampen, Co.Decayed;
    var more := ops + [Log.Ingested(prior, e)];
    assert more[..|more| - 1] == ops;
  }

  /**
   In every state a run of the server can be in between commands, while nothing but ingestion has changed the scores
   and contexts came back in time, an index without limits scores any two items with the sum over their logged pairs of
   one context at most a buffer apart.
   */
  lemma ServerScoresAreWindowSums(cfg: Log.Settings, idx: Log.Index, steps: seq<Log.Step>)
    requires var s := Log.Run(cfg, steps); !s.diverged && s.phase.Idle? && OnlyAdds(idx, s.log)
    requires cfg.store.bufferSize > 0 && ReturnsInTime(cfg.store, Arrivals(Log.Run(cfg, steps).log))
    ensures var s := Log.Run(cfg, steps);
      forall a, b :: Co.Score(Log.MatrixOf(idx, s.data.indexOps), a, b) ==
        WindowSum(Arrivals(s.log), cfg.store.bufferSize, a, b, idx.options.temporal)
  {
    var s := Log.Run(cfg, steps);
    CrashSafety.StoresAreAtLog(cfg, steps);
    hide Log.Run, Log.Effects, OnlyAdds, ReturnsInTime, Log.MatrixOf, Co.Score;
    LogIsStoredStream(cfg, idx, s.log);
    StoredStreamIsWindowSum(cfg.store, Arrivals(s.log), idx.options.temporal);
  }
}
