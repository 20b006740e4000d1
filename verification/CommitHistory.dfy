/** What a run of the server commits, and that the cache answers when it can. */
module CommitHistory {
  import opened Wrappers
  import opened CacheProtocol

  datatype Command = Wrote(w: Write) | Loaded(staged: Stores, coGen: nat)

  function Bump(n: nat, yes: bool): nat { if yes then n + 1 else n }

  /** What a command makes of the committed stores and counters. */
  function Outcome(c: Commit, cmd: Command): Commit {
    var st, g := c.stores, c.gens;
    match cmd
    case Wrote(Event(pairs, dampened)) =>
      Commit(g.(co := Bump(Bump(g.co, pairs.Some?), dampened.Some?)),
             st.(co := if dampened.Some? then dampened.value else if pairs.Some? then pairs.value.1 else st.co))
    case Wrote(VecSet(id, vector, attributes)) =>
      Commit(g.(vec := g.vec + 1, meta := Bump(g.meta, attributes.Some?)),
             st.(vec := st.vec[id := vector], meta := if attributes.Some? then st.meta[id := attributes.value] else st.meta))
    case Wrote(VecDel(id)) =>
      if id !in st.vec then c else Commit(g.(vec := g.vec + 1, meta := g.meta + 1), st.(vec := st.vec - {id}, meta := st.meta - {id}))
    case Wrote(MetaSet(id, given)) =>
      if id !in st.vec then c else Commit(g.(meta := g.meta + 1), st.(meta := st.meta[id := given]))
    case Wrote(Maintain(decayed, pruned)) =>
      Commit(g.(co := Bump(g.co + 1, pruned.Some?)), st.(co := if pruned.Some? then pruned.value else decayed))
    case Loaded(staged, coGen) =>
      Commit(Gens(coGen, g.vec + 1, g.meta + 1, g.dataset + 1), staged)
  }

  /** The command a step begins; none if it has to wait. */
  function Begun(s: State, step: Step): seq<Command> {
    match step
    case BeginWrite(w) => if s.writer.None? then [Wrote(w)] else []
    case BeginLoad(staged, coGen) =>
      if s.writer.None? && forall id | id in s.readers :: !Active(s.readers[id]) then [Loaded(staged, coGen)] else []
    case _ => []
  }

  /** The commands of a run, in the order they got hold of the write gate. */
  function Commands(engine: Engine, s: State, steps: seq<Step>): seq<Command>
    decreases |steps|
  {
    if steps == [] then [] else Begun(s, steps[0]) + Commands(engine, Next(engine, s, steps[0]), steps[1..])
  }

  // ---------- What is still to be done ----------

  /** Stores and counters once the operations left are done. */
  function Finished(s: State, todo: seq<Op>): Commit
    decreases |todo|
  {
    if todo == [] then Commit(s.gens, s.stores) else Finished(Exec(s, todo[0]), todo[1..])
  }

  lemma {:induction false} FinishedFrame(s: State, s': State, todo: seq<Op>)
    requires s.stores == s'.stores && s.gens == s'.gens
    ensures Finished(s, todo) == Finished(s', todo)
    decreases |todo|
  {
    hide Exec;
    if todo != [] {
      ExecFrame(s, s', todo[0]);
      FinishedFrame(Exec(s, todo[0]), Exec(s', todo[0]), todo[1..]);
    }
  }

  lemma ExecFrame(s: State, s': State, op: Op)
    requires s.stores == s'.stores && s.gens == s'.gens
    ensures Exec(s, op).stores == Exec(s', op).stores && Exec(s, op).gens == Exec(s', op).gens
    ensures var e := Exec(s, op); e.writer == s.writer && e.readers == s.readers && e.history == s.history && e.cache == s.cache
  {
  }

  lemma {:induction false} FinishedConcat(s: State, xs: seq<Op>, ys: seq<Op>, mid: Commit)
    requires Finished(s, xs) == mid
    ensures Finished(s, xs + ys) == Finished(s.(stores := mid.stores, gens := mid.gens), ys)
    decreases |xs|
  {
    if xs == [] {
      assert xs + ys == ys;
      FinishedFrame(s, s.(stores := mid.stores, gens := mid.gens), ys);
    } else {
      assert (xs + ys)[1..] == xs[1..] + ys;
      var s' := Exec(s, xs[0]);
      FinishedConcat(s', xs[1..], ys, mid);
      FinishedFrame(s'.(stores := mid.stores, gens := mid.gens), s.(stores := mid.stores, gens := mid.gens), ys);
    }
  }

  lemma FinishedOne(s: State, a: Op)
    ensures Finished(s, [a]) == Commit(Exec(s, a).gens, Exec(s, a).stores)
  {
    assert [a][1..] == [];
  }

  lemma FinishedTwo(s: State, a: Op, b: Op)
    ensures Finished(s, [a, b]) == Commit(Exec(Exec(s, a), b).gens, Exec(Exec(s, a), b).stores)
  {
    assert [a, b][1..] == [b];
    FinishedOne(Exec(s, a), b);
  }

  /** A section that writes the index and counts it leads to the matrix written last. */
  lemma IndexSection(s: State, xs: seq<Op>, co: Matrix)
    requires xs == [CoWrite(co), CoBump] || xs == [CoLock, CoWrite(co), CoBump, CoUnlock]
    ensures Finished(s, xs) == Commit(s.gens.(co := s.gens.co + 1), s.stores.(co := co))
  {
    if xs == [CoWrite(co), CoBump] {
      FinishedTwo(s, CoWrite(co), CoBump);
    } else {
      assert xs[1..] == [CoWrite(co), CoBump, CoUnlock] && xs[1..][1..] == [CoBump, CoUnlock];
      FinishedTwo(Exec(Exec(s, CoLock), CoWrite(co)), CoBump, CoUnlock);
    }
  }

  lemma EventOutcome(s: State, pairs: Option<(Matrix, Matrix)>, dampened: Option<Matrix>)
    ensures Finished(s, Plan(Event(pairs, dampened), s.stores)) == Outcome(Commit(s.gens, s.stores), Wrote(Event(pairs, dampened)))
  {
    var lock: seq<Op>, unlock: seq<Op> := [CoLock], [CoUnlock];
    var p: seq<Op> := if pairs.Some? then [CoWrite(pairs.value.0), CoBump, CoWrite(pairs.value.1)] else [];
    var d: seq<Op> := if dampened.Some? then [CoWrite(dampened.value), CoBump] else [];
    assert Plan(Event(pairs, dampened), s.stores) == ((lock + p) + d) + unlock;
    var c0 := Commit(s.gens, s.stores);
    FinishedOne(s, CoLock);
    FinishedConcat(s, lock, p, c0);
    var c1 := if pairs.Some? then Commit(s.gens.(co := s.gens.co + 1), s.stores.(co := pairs.value.1)) else c0;
    if pairs.Some? {
      var two: seq<Op>, one: seq<Op> := [CoWrite(pairs.value.0), CoBump], [CoWrite(pairs.value.1)];
      assert p == two + one;
      IndexSection(s, two, pairs.value.0);
      FinishedConcat(s, two, one, Commit(s.gens.(co := s.gens.co + 1), s.stores.(co := pairs.value.0)));
      FinishedOne(s.(gens := s.gens.(co := s.gens.co + 1), stores := s.stores.(co := pairs.value.0)), one[0]);
    }
    FinishedConcat(s, lock + p, d, c1);
    var s1 := s.(gens := c1.gens, stores := c1.stores);
    var c2 := if dampened.Some? then Commit(c1.gens.(co := c1.gens.co + 1), c1.stores.(co := dampened.value)) else c1;
    if dampened.Some? { IndexSection(s1, d, dampened.value); }
    FinishedConcat(s, (lock + p) + d, unlock, c2);
    FinishedOne(s.(gens := c2.gens, stores := c2.stores), CoUnlock);
  }

  lemma MaintainOutcome(s: State, decayed: Matrix, pruned: Option<Matrix>)
    ensures Finished(s, Plan(Maintain(decayed, pruned), s.stores)) == Outcome(Commit(s.gens, s.stores), Wrote(Maintain(decayed, pruned)))
  {
    var first: seq<Op> := [CoLock, CoWrite(decayed), CoBump, CoUnlock];
    IndexSection(s, first, decayed);
    if pruned.Some? {
      var second: seq<Op> := [CoLock, CoWrite(pruned.value), CoBump, CoUnlock];
      var mid := Commit(s.gens.(co := s.gens.co + 1), s.stores.(co := decayed));
      FinishedConcat(s, first, second, mid);
      IndexSection(s.(stores := mid.stores, gens := mid.gens), second, pruned.value);
    } else {
      assert first + [] == first;
    }
  }

  lemma VectorOutcome(s: State, w: Write)
    requires w.VecSet? || w.VecDel? || w.MetaSet?
    ensures Finished(s, Plan(w, s.stores)) == Outcome(Commit(s.gens, s.stores), Wrote(w))
  {
    var st := s.stores;
    match w
    case VecSet(id, vector, attributes) =>
      var write := VecWrite(st.vec[id := vector]);
      if attributes.Some? {
        FinishedFour(s, write, MetaWrite(st.meta[id := attributes.value]), VecBump, MetaBump);
      } else {
        FinishedTwo(s, write, VecBump);
      }
    case VecDel(id) =>
      if id in st.vec {
        var drop, also := VecWrite(st.vec - {id}), MetaWrite(st.meta - {id});
        var s1 := Exec(s, drop);
        assert [drop, drop, also, VecBump, MetaBump][1..] == [drop, also, VecBump, MetaBump];
        FinishedFour(s1, drop, also, VecBump, MetaBump);
      }
    case MetaSet(id, given) =>
      if id in st.vec { FinishedTwo(s, MetaWrite(st.meta[id := given]), MetaBump); }
  }

  lemma FinishedFour(s: State, a: Op, b: Op, c: Op, d: Op)
    ensures var e := Exec(Exec(Exec(Exec(s, a), b), c), d); Finished(s, [a, b, c, d]) == Commit(e.gens, e.stores)
  {
    hide Exec;
    assert [a, b, c, d][1..] == [b, c, d] && [b, c, d][1..] == [c, d];
    FinishedTwo(Exec(Exec(s, a), b), c, d);
  }

  lemma LoadOutcome(s: State, staged: Stores, coGen: nat)
    ensures Finished(s, LoadPlan(staged, coGen)) == Outcome(Commit(s.gens, s.stores), Loaded(staged, coGen))
  {
    var todo := LoadPlan(staged, coGen);
    assert todo == ([todo[0], todo[1]] + [todo[2], todo[3]]) + [todo[4], todo[5]];
    FinishedTwo(s, todo[0], todo[1]);
    var c1 := Finished(s, [todo[0], todo[1]]);
    FinishedConcat(s, [todo[0], todo[1]], [todo[2], todo[3]], c1);
    FinishedTwo(s.(stores := c1.stores, gens := c1.gens), todo[2], todo[3]);
    var c2 := Finished(s, [todo[0], todo[1]] + [todo[2], todo[3]]);
    FinishedConcat(s, [todo[0], todo[1]] + [todo[2], todo[3]], [todo[4], todo[5]], c2);
    FinishedTwo(s.(stores := c2.stores, gens := c2.gens), todo[4], todo[5]);
  }

  // ---------- The history of a run ----------

  /** Every commit is the outcome of its command on the commit before; a command under way leads to its outcome. */
  ghost predicate Tracks(s: State, cmds: seq<Command>) {
    var n := |s.history| - 1;
    && n >= 0 && |cmds| == (if s.writer.Some? then n + 1 else n)
    && (forall i :: 0 <= i < n ==> s.history[i + 1] == Outcome(s.history[i], cmds[i]))
    && (if s.writer.Some? then Finished(s, s.writer.value) == Outcome(s.history[n], cmds[n])
        else s.history[n] == Commit(s.gens, s.stores))
  }

  lemma BeginTracks(engine: Engine, s: State, step: Step, cmds: seq<Command>)
    requires Tracks(s, cmds) && Begun(s, step) != []
    ensures Tracks(Next(engine, s, step), cmds + Begun(s, step))
  {
    hide Plan, LoadPlan, Outcome, Exec, Finished;
    var s' := Next(engine, s, step);
    FinishedFrame(s, s', s'.writer.value);
    if step.BeginLoad? {
      LoadOutcome(s, step.staged, step.coGen);
    } else {
      match step.w {
        case Event(pairs, dampened) => EventOutcome(s, pairs, dampened);
        case Maintain(decayed, pruned) => MaintainOutcome(s, decayed, pruned);
        case _ => VectorOutcome(s, step.w);
      }
    }
  }

  lemma NextTracks(engine: Engine, s: State, step: Step, cmds: seq<Command>)
    requires Tracks(s, cmds)
    ensures Tracks(Next(engine, s, step), cmds + Begun(s, step))
  {
    hide Plan, LoadPlan, Outcome, Advance, Exec;
    var s' := Next(engine, s, step);
    if Begun(s, step) != [] {
      BeginTracks(engine, s, step, cmds);
    } else {
      assert cmds + [] == cmds;
      if step.WriterStep? && s.writer.Some? && s.writer.value != [] {
        var s1 := s.(writer := Some(s.writer.value[1..]));
        ExecFrame(s, s1, s.writer.value[0]);
        ExecFrame(s1, s1, s.writer.value[0]);
        FinishedFrame(Exec(s, s.writer.value[0]), s', s'.writer.value);
      } else if s'.writer.Some? {
        FinishedFrame(s, s', s'.writer.value);
      }
    }
  }

  lemma {:induction false} RunTracks(engine: Engine, s: State, steps: seq<Step>, cmds: seq<Command>)
    requires Tracks(s, cmds)
    ensures Tracks(Run(engine, s, steps), cmds + Commands(engine, s, steps))
    decreases |steps|
  {
    hide Tracks, Next, Begun;
    if steps == [] {
      assert cmds + [] == cmds;
    } else {
      NextTracks(engine, s, steps[0], cmds);
      var s' := Next(engine, s, steps[0]);
      RunTracks(engine, s', steps[1..], cmds + Begun(s, steps[0]));
      assert (cmds + Begun(s, steps[0])) + Commands(engine, s', steps[1..]) == cmds + (Begun(s, steps[0]) + Commands(engine, s', steps[1..]));
    }
  }

  /**
   Whatever readers, evictions and waiting writers do in between, a run commits exactly its commands, one after the
   other, each with its whole outcome; between commands the stores are as committed.
   */
  lemma HistoryIsCommands(engine: Engine, stores: Stores, steps: seq<Step>)
    ensures var s, cmds := Run(engine, Init(stores), steps), Commands(engine, Init(stores), steps);
      var n := |s.history| - 1;
      && n >= 0 && s.history[0] == Commit(Gens(0, 0, 0, 0), stores)
      && |cmds| == (if s.writer.Some? then n + 1 else n)
      && (forall i :: 0 <= i < n ==> s.history[i + 1] == Outcome(s.history[i], cmds[i]))
      && (s.writer.None? ==> s.history[n] == Commit(s.gens, s.stores))
  {
    var s0 := Init(stores);
    RunTracks(engine, s0, steps, []);
    assert [] + Commands(engine, s0, steps) == Commands(engine, s0, steps);
    FirstCommit(engine, s0, steps);
  }

  lemma {:induction false} FirstCommit(engine: Engine, s: State, steps: seq<Step>)
    requires |s.history| > 0
    ensures |Run(engine, s, steps).history| > 0 && Run(engine, s, steps).history[0] == s.history[0]
    decreases |steps|
  {
    if steps != [] {
      hide Plan, Advance, Exec;
      HistoryOnlyGrows(engine, s, steps[0]);
      FirstCommit(engine, Next(engine, s, steps[0]), steps[1..]);
    }
  }

  lemma HistoryOnlyGrows(engine: Engine, s: State, step: Step)
    ensures s.history <= Next(engine, s, step).history
  {
    hide Plan, Advance;
  }

  function WriterSteps(n: nat): seq<Step> { if n == 0 then [EndWrite] else [WriterStep] + WriterSteps(n - 1) }

  /** Nothing can hold a writer up: it commits with its next steps. */
  lemma {:induction false} WritersFinish(engine: Engine, s: State)
    requires s.writer.Some?
    ensures var s' := Run(engine, s, WriterSteps(|s.writer.value|));
      s'.writer.None? && s'.history == s.history + [Finished(s, s.writer.value)] && s'.readers == s.readers
    decreases |s.writer.value|
  {
    hide Exec;
    var todo := s.writer.value;
    if todo == [] {
      assert [EndWrite][1..] == [];
      assert Run(engine, Next(engine, s, EndWrite), []) == Next(engine, s, EndWrite);
    } else {
      var s1, s2 := s.(writer := Some(todo[1..])), Next(engine, s, WriterStep);
      ExecFrame(s, s1, todo[0]);
      ExecFrame(s1, s1, todo[0]);
      WritersFinish(engine, s2);
      assert WriterSteps(|todo|)[1..] == WriterSteps(|todo| - 1);
      FinishedFrame(Exec(s, todo[0]), s2, todo[1..]);
    }
  }

  // ---------- Hits ----------

  function Reads(id: nat, n: nat): seq<Step> { if n == 0 then [] else [ReaderStep(id, true)] + Reads(id, n - 1) }

  lemma {:induction false} ReadsCompose(engine: Engine, s: State, id: nat, n: nat, m: nat)
    ensures Run(engine, s, Reads(id, n + m)) == Run(engine, Run(engine, s, Reads(id, n)), Reads(id, m))
    decreases n
  {
    if n > 0 {
      var s' := Next(engine, s, ReaderStep(id, true));
      assert Reads(id, n + m)[1..] == Reads(id, n + m - 1) && Reads(id, n)[1..] == Reads(id, n - 1);
      ReadsCompose(engine, s', id, n - 1, m);
    }
  }

  lemma OneRead(engine: Engine, s: State, id: nat, r: Reader)
    requires id in s.readers && !s.readers[id].phase.Check? && r == Advance(engine, s, s.readers[id])
    ensures Run(engine, s, Reads(id, 1)) == With(s, id, r)
  {
    hide Advance;
    var read := ReaderStep(id, true);
    assert Reads(id, 1) == [read] + Reads(id, 0) && Reads(id, 0) == [];
    assert [read][1..] == [];
    assert Run(engine, Next(engine, s, read), []) == Next(engine, s, read);
  }

  /** A reader that finds its key in the cache returns what is there. */
  lemma LookupHits(engine: Engine, s: State, id: nat, q: Query)
    requires id in s.readers && s.readers[id].phase == (if q.Sim? then LoadCo else LoadVec) && s.readers[id].q == q
    requires s.readers[id].g.co == 0 && KeyFor(q, s.gens) in s.cache
    ensures var s' := Run(engine, s, Reads(id, if q.Sim? then 5 else 4));
      id in s'.readers && s'.readers[id].phase == Done(s.cache[KeyFor(q, s.gens)], true, true) && s'.cache == s.cache
  {
    hide Run;
    var r0, s0 := s.readers[id], s;
    if q.Sim? {
      r0 := r0.(phase := LoadVec, g := r0.g.(co := s.gens.co));
      s0 := With(s, id, r0);
      OneRead(engine, s, id, r0);
      ReadsCompose(engine, s, id, 1, 4);
    }
    var r1 := r0.(phase := LoadMeta, g := r0.g.(vec := s.gens.vec));
    OneRead(engine, s0, id, r1);
    ReadsCompose(engine, s0, id, 1, 3);
    var s1 := With(s0, id, r1);
    var r2 := r1.(phase := LoadDataset, g := r1.g.(meta := s.gens.meta));
    OneRead(engine, s1, id, r2);
    ReadsCompose(engine, s1, id, 1, 2);
    var s2 := With(s1, id, r2);
    var r3 := r2.(phase := Lookup, g := r2.g.(dataset := s.gens.dataset));
    OneRead(engine, s2, id, r3);
    ReadsCompose(engine, s2, id, 1, 1);
    var s3 := With(s2, id, r3);
    assert KeyFor(q, r3.g) == KeyFor(q, s.gens);
    OneRead(engine, s3, id, Advance(engine, s3, r3));
  }

  function With(s: State, id: nat, r: Reader): State { s.(readers := s.readers[id := r]) }

  /**
   A result whose counters still hold when the gate is free is current; if the cache takes it, the same query by any
   other reader, before anything else happens, is a hit with the same answer.
   */
  lemma RepeatIsHit(engine: Engine, s: State, id: nat, again: nat)
    requires s.writer.None? && !s.exclusive && |s.history| > 0
    requires id in s.readers && again !in s.readers && s.readers[id].phase.Check?
    requires KeyFor(s.readers[id].q, s.readers[id].g) == KeyFor(s.readers[id].q, s.gens)
    requires KeyFor(s.readers[id].q, s.gens) !in s.cache
    ensures var q, found := s.readers[id].q, s.readers[id].phase.found;
      var s1 := Next(engine, s, ReaderStep(id, true));
      var s2 := Run(engine, Next(engine, s1, StartReader(again, q)), Reads(again, if q.Sim? then 5 else 4));
      && s1.readers[id].phase == Done(found, false, true)
      && again in s2.readers && s2.readers[again].phase == Done(found, true, true)
  {
    var q := s.readers[id].q;
    var s1 := Next(engine, s, ReaderStep(id, true));
    assert s1.cache == s.cache[KeyFor(q, s.gens) := s.readers[id].phase.found];
    hide Run;
    LookupHits(engine, Next(engine, s1, StartReader(again, q)), again, q);
  }
}
