/**
 The generation-keyed result cache as a machine of small interleaved steps.

 Any number of SIM/SIMV readers run against one writer at a time.  A reader loads the four
 generation counters one by one, looks its key up, reads the stores piecemeal while writers are at
 work, and offers its result to the cache only if the counters it captured are still current once it
 holds the write gate.  A writer holds the gate while it performs its micro-operations: store
 mutations, counter bumps, and for the co-occurrence index the lock around both.  A snapshot load
 additionally excludes the readers, because swapping the index may move its counter backwards.
 */
module CacheProtocol {
  import opened Wrappers

  type Matrix = map<string, map<string, real>>
  type Vectors = map<string, seq<real>>
  type Attributes = map<string, map<string, string>>
  type Results = seq<(string, real)>

  datatype Stores = Stores(co: Matrix, vec: Vectors, meta: Attributes)
  datatype Gens = Gens(co: nat, vec: nat, meta: nat, dataset: nat)

  datatype Query =
    | Sim(id: string, topK: nat, mode: string, adaptive: Option<bool>, filter: string)
    | Simv(vector: seq<real>, topK: nat, filter: string)

  /** The fields a cache key is built from; a SIMV key leaves the co-occurrence counter out. */
  datatype Key = Key(query: Query, gens: Gens)

  function KeyFor(q: Query, g: Gens): Key {
    Key(q, if q.Simv? then g.(co := 0) else g)
  }

  /** Keys agree exactly when the queries do and the counters of the stores the query reads. */
  lemma KeysAgree(q: Query, g: Gens, r: Query, h: Gens)
    ensures KeyFor(q, g) == KeyFor(r, h) <==>
      q == r && g.vec == h.vec && g.meta == h.meta && g.dataset == h.dataset && (q.Sim? ==> g.co == h.co)
  {
  }

  // ---------- Searching ----------

  datatype Action = ReadCo | ReadVec | ReadMeta | Return(results: Results)
  datatype Obs = CoSeen(co: Matrix) | VecSeen(vec: Vectors) | MetaSeen(meta: Attributes)

  /** A search engine decides from the query and what it has read so far what to do next. */
  type Engine = (Query, seq<Obs>) -> Action

  /** SIMV searches never consult the co-occurrence index. */
  ghost predicate IgnoresMatrix(engine: Engine) {
    forall q: Query, obs: seq<Obs> :: q.Simv? ==> !engine(q, obs).ReadCo?
  }

  function Look(a: Action, s: Stores): Obs
    requires !a.Return?
  {
    match a
    case ReadCo => CoSeen(s.co)
    case ReadVec => VecSeen(s.vec)
    case ReadMeta => MetaSeen(s.meta)
  }

  /** `obs` is what the engine reads when the stores stay at `s` throughout. */
  ghost predicate Undisturbed(engine: Engine, q: Query, s: Stores, obs: seq<Obs>) {
    forall k :: 0 <= k < |obs| ==>
      var a := engine(q, obs[..k]);
      !a.Return? && obs[k] == Look(a, s)
  }

  /** `r` is the answer of a search that has the stores `s` to itself. */
  ghost predicate Answers(engine: Engine, q: Query, s: Stores, r: Results) {
    exists obs :: Undisturbed(engine, q, s, obs) && engine(q, obs) == Return(r)
  }

  lemma UndisturbedPrefix(engine: Engine, q: Query, s: Stores, x: seq<Obs>, y: seq<Obs>, n: nat)
    requires Undisturbed(engine, q, s, x) && Undisturbed(engine, q, s, y)
    requires n <= |x| && n <= |y|
    ensures x[..n] == y[..n]
  {
    if n > 0 {
      UndisturbedPrefix(engine, q, s, x, y, n - 1);
      assert x[..n] == x[..n - 1] + [x[n - 1]] && y[..n] == y[..n - 1] + [y[n - 1]];
    }
  }

  /** An undisturbed search has one answer. */
  lemma AnswerIsUnique(engine: Engine, q: Query, s: Stores, r1: Results, r2: Results)
    requires Answers(engine, q, s, r1) && Answers(engine, q, s, r2)
    ensures r1 == r2
  {
    var x :| Undisturbed(engine, q, s, x) && engine(q, x) == Return(r1);
    var y :| Undisturbed(engine, q, s, y) && engine(q, y) == Return(r2);
    var n := if |x| <= |y| then |x| else |y|;
    UndisturbedPrefix(engine, q, s, x, y, n);
    assert x[..|x|] == x && y[..|y|] == y;
  }

  // ---------- Writers ----------

  datatype Op =
    | CoLock | CoWrite(co: Matrix) | CoBump | CoUnlock
    | CoSwap(swapped: Matrix, gen: nat)
    | VecWrite(vec: Vectors) | VecBump
    | MetaWrite(meta: Attributes) | MetaBump
    | DatasetBump

  /**
   The write commands, once validated.  What the index makes of an event or of maintenance is given with the command:
   the matrix before and after pruning, after a negative signal, after decay.
   */
  datatype Write =
    | Event(pairs: Option<(Matrix, Matrix)>, dampened: Option<Matrix>)
    | VecSet(id: string, vector: seq<real>, attributes: Option<map<string, string>>)
    | VecDel(id: string)
    | MetaSet(id: string, given: map<string, string>)
    | Maintain(decayed: Matrix, pruned: Option<Matrix>)

  /** The micro-operations of a command, in the order the handlers perform them; one about an unknown vector is refused. */
  function Plan(w: Write, st: Stores): seq<Op> {
    match w
    case Event(pairs, dampened) =>
      [CoLock]
      // The counter moves before the affected rows are pruned; only the index lock hides that.
      + (if pairs.Some? then [CoWrite(pairs.value.0), CoBump, CoWrite(pairs.value.1)] else [])
      + (if dampened.Some? then [CoWrite(dampened.value), CoBump] else [])
      + [CoUnlock]
    case VecSet(id, vector, attributes) =>
      if attributes.Some? then [VecWrite(st.vec[id := vector]), MetaWrite(st.meta[id := attributes.value]), VecBump, MetaBump]
      else [VecWrite(st.vec[id := vector]), VecBump]
    case VecDel(id) =>
      // Deletion leaves a tombstone, and compaction removes it.
      if id !in st.vec then [] else [VecWrite(st.vec - {id}), VecWrite(st.vec - {id}), MetaWrite(st.meta - {id}), VecBump, MetaBump]
    case MetaSet(id, given) =>
      if id !in st.vec then [] else [MetaWrite(st.meta[id := given]), MetaBump]
    case Maintain(decayed, pruned) =>
      [CoLock, CoWrite(decayed), CoBump, CoUnlock]
      + (if pruned.Some? then [CoLock, CoWrite(pruned.value), CoBump, CoUnlock] else [])
  }

  /** A snapshot load installs every store, adopting the counter of the staged index. */
  function LoadPlan(staged: Stores, coGen: nat): seq<Op> {
    [CoSwap(staged.co, coGen), VecWrite(staged.vec), MetaWrite(staged.meta), VecBump, MetaBump, DatasetBump]
  }

  // ---------- The machine ----------

  datatype Phase =
    | LoadCo | LoadVec | LoadMeta | LoadDataset | Lookup | Searching
    | Check(found: Results)
    | Done(answer: Results, hit: bool, current: bool)

  /**
   `start` is the index of the last commit when the reader began.  A reader is done with a cache hit or
   a result of its own, which is `current` if the counters it captured still held at the final check.
   */
  datatype Reader = Reader(q: Query, phase: Phase, g: Gens, obs: seq<Obs>, start: nat)

  datatype Commit = Commit(gens: Gens, stores: Stores)

  /** `history` records the stores and counters whenever the write gate is released. */
  datatype State = State(
    stores: Stores, gens: Gens, coLocked: bool, exclusive: bool, writer: Option<seq<Op>>,
    readers: map<nat, Reader>, cache: map<Key, Results>, history: seq<Commit>)

  datatype Step =
    | BeginWrite(w: Write)
    | BeginLoad(staged: Stores, coGen: nat)
    | WriterStep
    | EndWrite
    | StartReader(id: nat, q: Query)
    | ReaderStep(id: nat, admit: bool)
    | Evict(keys: set<Key>)

  function Init(stores: Stores): State {
    var g := Gens(0, 0, 0, 0);
    State(stores, g, false, false, None, map[], map[], [Commit(g, stores)])
  }

  predicate Active(r: Reader) {
    !r.phase.Done?
  }

  function Exec(s: State, op: Op): State {
    match op
    case CoLock => s.(coLocked := true)
    case CoUnlock => s.(coLocked := false)
    case CoWrite(co) => s.(stores := s.stores.(co := co))
    case CoBump => s.(gens := s.gens.(co := s.gens.co + 1))
    case CoSwap(co, gen) => s.(stores := s.stores.(co := co), gens := s.gens.(co := gen))
    case VecWrite(vec) => s.(stores := s.stores.(vec := vec))
    case VecBump => s.(gens := s.gens.(vec := s.gens.vec + 1))
    case MetaWrite(meta) => s.(stores := s.stores.(meta := meta))
    case MetaBump => s.(gens := s.gens.(meta := s.gens.meta + 1))
    case DatasetBump => s.(gens := s.gens.(dataset := s.gens.dataset + 1))
  }

  /** One reader step; a reader that must wait for a lock stays as it is. */
  function Advance(engine: Engine, s: State, r: Reader): Reader {
    match r.phase
    case LoadCo => r.(phase := LoadVec, g := r.g.(co := s.gens.co))
    case LoadVec => r.(phase := LoadMeta, g := r.g.(vec := s.gens.vec))
    case LoadMeta => r.(phase := LoadDataset, g := r.g.(meta := s.gens.meta))
    case LoadDataset => r.(phase := Lookup, g := r.g.(dataset := s.gens.dataset))
    case Lookup =>
      var key := KeyFor(r.q, r.g);
      if key in s.cache then r.(phase := Done(s.cache[key], true, true)) else r.(phase := Searching)
    case Searching =>
      var a := engine(r.q, r.obs);
      if a.Return? then r.(phase := Check(a.results))
      else if a.ReadCo? && s.coLocked then r
      else r.(obs := r.obs + [Look(a, s.stores)])
    case Check(found) => if s.writer.Some? then r else r.(phase := Done(found, false, KeyFor(r.q, r.g) == KeyFor(r.q, s.gens)))
    case Done(_, _, _) => r
  }

  /** The result is offered to the cache with the gate held and the captured counters still current. */
  predicate Admits(s: State, r: Reader, admit: bool) {
    && r.phase.Check? && s.writer.None? && admit
    && KeyFor(r.q, r.g) == KeyFor(r.q, s.gens)
    && KeyFor(r.q, r.g) !in s.cache
  }

  /** `admit` stands for the cache's own admission policy. */
  function Read(engine: Engine, s: State, id: nat, admit: bool): State
    requires id in s.readers
  {
    var r := s.readers[id];
    s.(readers := s.readers[id := Advance(engine, s, r)],
       cache := if Admits(s, r, admit) then s.cache[KeyFor(r.q, r.g) := r.phase.found] else s.cache)
  }

  /** A step that is not enabled leaves the state alone. */
  function Next(engine: Engine, s: State, step: Step): State {
    match step
    case BeginWrite(w) =>
      if s.writer.None? then s.(writer := Some(Plan(w, s.stores))) else s
    case BeginLoad(staged, coGen) =>
      if s.writer.None? && forall id | id in s.readers :: !Active(s.readers[id])
      then s.(writer := Some(LoadPlan(staged, coGen)), exclusive := true) else s
    case WriterStep =>
      if s.writer.Some? && s.writer.value != []
      then Exec(s.(writer := Some(s.writer.value[1..])), s.writer.value[0]) else s
    case EndWrite =>
      if s.writer == Some([])
      then s.(writer := None, exclusive := false, history := s.history + [Commit(s.gens, s.stores)]) else s
    case StartReader(id, q) =>
      if id !in s.readers && !s.exclusive && |s.history| > 0
      then s.(readers := s.readers[id := Reader(q, if q.Sim? then LoadCo else LoadVec, Gens(0, 0, 0, 0), [], |s.history| - 1)])
      else s
    case ReaderStep(id, admit) =>
      if id in s.readers then Read(engine, s, id, admit) else s
    case Evict(keys) => s.(cache := s.cache - keys)
  }

  function Run(engine: Engine, s: State, steps: seq<Step>): State
    decreases |steps|
  {
    if steps == [] then s else Run(engine, Next(engine, s, steps[0]), steps[1..])
  }

  // ---------- Invariant ----------

  /** Within one dataset the counters only grow, and an unmoved counter means an unchanged store. */
  predicate Precedes(a: Commit, b: Commit) {
    || a.gens.dataset < b.gens.dataset
    || (&& a.gens.dataset == b.gens.dataset
        && a.gens.co <= b.gens.co && (a.gens.co == b.gens.co ==> a.stores.co == b.stores.co)
        && a.gens.vec <= b.gens.vec && (a.gens.vec == b.gens.vec ==> a.stores.vec == b.stores.vec)
        && a.gens.meta <= b.gens.meta && (a.gens.meta == b.gens.meta ==> a.stores.meta == b.stores.meta))
  }

  ghost predicate Ordered(history: seq<Commit>) {
    forall i, j :: 0 <= i < j < |history| ==> Precedes(history[i], history[j])
  }

  predicate WillWriteCo(todo: seq<Op>) {
    todo != [] && (todo[0].CoWrite? || WillWriteCo(todo[1..]))
  }

  predicate WillBumpCo(todo: seq<Op>) {
    todo != [] && (todo[0].CoBump? || WillBumpCo(todo[1..]))
  }

  predicate WillBumpVec(todo: seq<Op>) {
    todo != [] && (todo[0].VecBump? || WillBumpVec(todo[1..]))
  }

  predicate WillBumpMeta(todo: seq<Op>) {
    todo != [] && (todo[0].MetaBump? || WillBumpMeta(todo[1..]))
  }

  predicate WillBumpDataset(todo: seq<Op>) {
    todo != [] && (todo[0].DatasetBump? || WillBumpDataset(todo[1..]))
  }

  /** Index writes happen under the index lock, and every store write has a bump to come or behind it. */
  predicate Disciplined(todo: seq<Op>, locked: bool) {
    if todo == [] then !locked
    else
      var rest := todo[1..];
      match todo[0]
      case CoLock => !locked && (WillWriteCo(rest) ==> WillBumpCo(rest)) && Disciplined(rest, true)
      case CoUnlock => locked && Disciplined(rest, false)
      case CoWrite(_) => locked && Disciplined(rest, true)
      case CoBump => locked && Disciplined(rest, true)
      case VecWrite(_) => WillBumpVec(rest) && Disciplined(rest, locked)
      case MetaWrite(_) => WillBumpMeta(rest) && Disciplined(rest, locked)
      case VecBump => Disciplined(rest, locked)
      case MetaBump => Disciplined(rest, locked)
      case CoSwap(_, _) => false
      case DatasetBump => false
  }

  /** Where a writer stands relative to the last commit. */
  predicate InProgress(base: Commit, s: State, todo: seq<Op>) {
    && Disciplined(todo, s.coLocked)
    && s.gens.dataset == base.gens.dataset
    && base.gens.co <= s.gens.co && base.gens.vec <= s.gens.vec && base.gens.meta <= s.gens.meta
    && (s.gens.co == base.gens.co ==> WillBumpCo(todo) || (s.stores.co == base.stores.co && !WillWriteCo(todo)))
    && (s.gens.vec == base.gens.vec ==> WillBumpVec(todo) || s.stores.vec == base.stores.vec)
    && (s.gens.meta == base.gens.meta ==> WillBumpMeta(todo) || s.stores.meta == base.stores.meta)
  }

  ghost predicate WriterOk(s: State)
    requires |s.history| > 0
  {
    var base := s.history[|s.history| - 1];
    match s.writer
    case None => !s.coLocked && !s.exclusive && base == Commit(s.gens, s.stores)
    case Some(todo) =>
      if s.exclusive then
        && !s.coLocked
        && (forall op | op in todo :: !op.CoLock? && !op.CoUnlock?)
        && base.gens.dataset <= s.gens.dataset
        && (base.gens.dataset < s.gens.dataset || WillBumpDataset(todo))
      else InProgress(base, s, todo)
  }

  /** Some commit from index `from` on carries this key and answers its query with `r`. */
  ghost predicate Backed(engine: Engine, history: seq<Commit>, key: Key, r: Results, from: nat) {
    exists i :: from <= i < |history| && KeyFor(key.query, history[i].gens) == key
      && Answers(engine, key.query, history[i].stores, r)
  }

  function Todo(s: State): seq<Op> {
    if s.writer.Some? then s.writer.value else []
  }

  ghost predicate SawCo(obs: seq<Obs>) {
    exists k :: 0 <= k < |obs| && obs[k].CoSeen?
  }

  /** Either the index counter has left or will leave the captured value, or what was read is current. */
  ghost predicate CoFresh(r: Reader, s: State) {
    || r.g.co < s.gens.co
    || WillBumpCo(Todo(s))
    || !SawCo(r.obs)
    || ((forall k :: 0 <= k < |r.obs| && r.obs[k].CoSeen? ==> r.obs[k].co == s.stores.co)
        && (s.coLocked ==> !WillWriteCo(Todo(s))))
  }

  ghost predicate VecFresh(r: Reader, s: State) {
    || r.g.vec < s.gens.vec
    || WillBumpVec(Todo(s))
    || (forall k :: 0 <= k < |r.obs| && r.obs[k].VecSeen? ==> r.obs[k].vec == s.stores.vec)
  }

  ghost predicate MetaFresh(r: Reader, s: State) {
    || r.g.meta < s.gens.meta
    || WillBumpMeta(Todo(s))
    || (forall k :: 0 <= k < |r.obs| && r.obs[k].MetaSeen? ==> r.obs[k].meta == s.stores.meta)
  }

  predicate Fits(a: Action, o: Obs) {
    match a
    case ReadCo => o.CoSeen?
    case ReadVec => o.VecSeen?
    case ReadMeta => o.MetaSeen?
    case Return(_) => false
  }

  /** The reads are the ones the engine asked for, whatever they showed. */
  ghost predicate Traced(engine: Engine, q: Query, obs: seq<Obs>) {
    forall k :: 0 <= k < |obs| ==> Fits(engine(q, obs[..k]), obs[k])
  }

  predicate Captured(base: Gens, r: Reader, now: Gens) {
    && (r.q.Sim? && !r.phase.LoadCo? ==> base.co <= r.g.co <= now.co)
    && (!r.phase.LoadCo? && !r.phase.LoadVec? ==> base.vec <= r.g.vec <= now.vec)
    && (!r.phase.LoadCo? && !r.phase.LoadVec? && !r.phase.LoadMeta? ==> base.meta <= r.g.meta <= now.meta)
    && (r.phase.Lookup? || r.phase.Searching? || r.phase.Check? ==> r.g.dataset == now.dataset)
  }

  ghost predicate ReaderOk(engine: Engine, s: State, r: Reader) {
    && r.start < |s.history|
    && (if r.phase.Done? then
          && (r.phase.hit ==> r.phase.current)
          && (r.phase.current ==> Backed(engine, s.history, KeyFor(r.q, r.g), r.phase.answer, r.start))
        else
          && !s.exclusive
          && s.history[r.start].gens.dataset == s.gens.dataset
          && Captured(s.history[r.start].gens, r, s.gens)
          && Traced(engine, r.q, r.obs)
          && (!r.phase.Searching? && !r.phase.Check? ==> r.obs == [])
          && (r.q.Sim? ==> CoFresh(r, s)) && VecFresh(r, s) && MetaFresh(r, s)
          && (r.phase.Check? ==> engine(r.q, r.obs) == Return(r.phase.found)))
  }

  ghost predicate Inv(engine: Engine, s: State) {
    && |s.history| > 0 && Ordered(s.history) && WriterOk(s)
    && (forall key :: key in s.cache ==> Backed(engine, s.history, key, s.cache[key], 0))
    && (forall id :: id in s.readers ==> ReaderOk(engine, s, s.readers[id]))
  }

  // ---------- Preservation ----------

  /** Peeling the first operation off a plan. */
  lemma Unfold(op: Op, rest: seq<Op>)
    ensures ([op] + rest)[0] == op && ([op] + rest)[1..] == rest
    ensures WillWriteCo([op] + rest) <==> op.CoWrite? || WillWriteCo(rest)
    ensures WillBumpCo([op] + rest) <==> op.CoBump? || WillBumpCo(rest)
    ensures WillBumpVec([op] + rest) <==> op.VecBump? || WillBumpVec(rest)
    ensures WillBumpMeta([op] + rest) <==> op.MetaBump? || WillBumpMeta(rest)
    ensures WillBumpDataset([op] + rest) <==> op.DatasetBump? || WillBumpDataset(rest)
  {
    assert ([op] + rest)[1..] == rest;
  }

  /** One write to the index and its bump, in front of a plan that holds the index lock. */
  lemma WriteAndBump(co: Matrix, rest: seq<Op>)
    requires Disciplined(rest, true)
    ensures var todo := [CoWrite(co), CoBump] + rest; Disciplined(todo, true) && WillBumpCo(todo)
  {
    Unfold(CoBump, rest);
    Unfold(CoWrite(co), [CoBump] + rest);
    assert [CoWrite(co)] + ([CoBump] + rest) == [CoWrite(co), CoBump] + rest;
  }

  /** A whole locked section that writes the index and bumps its counter. */
  lemma LockedSection(co: Matrix, rest: seq<Op>)
    requires Disciplined(rest, false)
    ensures Disciplined([CoLock, CoWrite(co), CoBump, CoUnlock] + rest, false)
  {
    Unfold(CoUnlock, rest);
    var inner := [CoWrite(co), CoBump] + ([CoUnlock] + rest);
    WriteAndBump(co, [CoUnlock] + rest);
    Unfold(CoLock, inner);
    assert [CoLock] + inner == [CoLock, CoWrite(co), CoBump, CoUnlock] + rest;
  }

  lemma EventPlanIsDisciplined(pairs: Option<(Matrix, Matrix)>, dampened: Option<Matrix>, st: Stores)
    ensures Disciplined(Plan(Event(pairs, dampened), st), false)
  {
    var unlock: seq<Op> := [CoUnlock];
    Unfold(CoUnlock, []);
    assert unlock == [CoUnlock] + [];
    var tail := if dampened.Some? then [CoWrite(dampened.value), CoBump] + unlock else unlock;
    if dampened.Some? { WriteAndBump(dampened.value, unlock); }
    var body := tail;
    if pairs.Some? {
      Unfold(CoWrite(pairs.value.1), tail);
      WriteAndBump(pairs.value.0, [CoWrite(pairs.value.1)] + tail);
      body := [CoWrite(pairs.value.0), CoBump] + ([CoWrite(pairs.value.1)] + tail);
    }
    Unfold(CoLock, body);
    assert Plan(Event(pairs, dampened), st) == [CoLock] + body;
  }

  lemma VectorPlanIsDisciplined(w: Write, st: Stores)
    requires w.VecSet? || w.VecDel? || w.MetaSet?
    ensures Disciplined(Plan(w, st), false)
  {
    var bumps: seq<Op> := [VecBump, MetaBump];
    Unfold(MetaBump, []);
    Unfold(VecBump, [MetaBump]);
    Unfold(VecBump, []);
    assert [MetaBump] + [] == [MetaBump] && [VecBump] + [MetaBump] == bumps && [VecBump] + [] == [VecBump];
    match w
    case VecSet(id, vector, attributes) =>
      var write := VecWrite(st.vec[id := vector]);
      if attributes.Some? {
        var also := MetaWrite(st.meta[id := attributes.value]);
        Unfold(also, bumps);
        Unfold(write, [also] + bumps);
        assert Plan(w, st) == [write] + ([also] + bumps);
      } else {
        Unfold(write, [VecBump]);
        assert Plan(w, st) == [write] + [VecBump];
      }
    case VecDel(id) =>
      if id in st.vec {
        var drop, also := VecWrite(st.vec - {id}), MetaWrite(st.meta - {id});
        Unfold(also, bumps);
        assert Disciplined([also] + bumps, false);
        Unfold(drop, [also] + bumps);
        assert Disciplined([drop] + ([also] + bumps), false);
        Unfold(drop, [drop] + ([also] + bumps));
        assert Plan(w, st) == [drop] + ([drop] + ([also] + bumps));
      }
    case MetaSet(id, given) =>
      if id in st.vec {
        Unfold(MetaWrite(st.meta[id := given]), [MetaBump]);
        assert Plan(w, st) == [MetaWrite(st.meta[id := given])] + [MetaBump];
      }
  }

  lemma PlanIsDisciplined(w: Write, st: Stores)
    ensures Disciplined(Plan(w, st), false)
  {
    match w
    case Event(pairs, dampened) => EventPlanIsDisciplined(pairs, dampened, st);
    case Maintain(decayed, pruned) =>
      if pruned.Some? {
        LockedSection(pruned.value, []);
        assert [CoLock, CoWrite(pruned.value), CoBump, CoUnlock] + [] == [CoLock, CoWrite(pruned.value), CoBump, CoUnlock];
        LockedSection(decayed, [CoLock, CoWrite(pruned.value), CoBump, CoUnlock]);
      } else {
        LockedSection(decayed, []);
      }
    case _ => VectorPlanIsDisciplined(w, st);
  }

  /** Outside the index lock, a plan that will write the index will also bump its counter. */
  lemma {:induction false} WritesAreBumped(todo: seq<Op>)
    requires Disciplined(todo, false) && WillWriteCo(todo)
    ensures WillBumpCo(todo)
  {
    if !todo[0].CoLock? { WritesAreBumped(todo[1..]); }
  }

  lemma BackedLater(engine: Engine, history: seq<Commit>, more: seq<Commit>)
    ensures forall key, r, from: nat :: Backed(engine, history, key, r, from) ==> Backed(engine, history + more, key, r, from)
  {
    forall key, r, from: nat | Backed(engine, history, key, r, from)
      ensures Backed(engine, history + more, key, r, from)
    {
      var i :| from <= i < |history| && KeyFor(key.query, history[i].gens) == key
               && Answers(engine, key.query, history[i].stores, r);
      assert (history + more)[i] == history[i];
    }
  }

  lemma WriterStepKeepsWriterOk(s: State, op: Op, rest: seq<Op>)
    requires |s.history| > 0 && WriterOk(s) && s.writer == Some([op] + rest)
    ensures WriterOk(Exec(s.(writer := Some(rest)), op))
  {
    Unfold(op, rest);
    assert op in [op] + rest;
    assert forall o :: o in rest ==> o in [op] + rest;
  }

  lemma WriterStepKeepsReader(engine: Engine, s: State, op: Op, rest: seq<Op>, r: Reader)
    requires |s.history| > 0 && WriterOk(s) && s.writer == Some([op] + rest) && ReaderOk(engine, s, r)
    ensures ReaderOk(engine, Exec(s.(writer := Some(rest)), op), r)
  {
    hide Traced, Backed;
    if Active(r) {
      var s' := Exec(s.(writer := Some(rest)), op);
      Unfold(op, rest);
      assert Todo(s) == [op] + rest && Todo(s') == rest;
      if r.q.Sim? {
        assert CoFresh(r, s);
        assert CoFresh(r, s');
      }
      assert VecFresh(r, s');
      assert MetaFresh(r, s');
    }
  }

  lemma WriterStepKeepsInv(engine: Engine, s: State)
    requires Inv(engine, s) && s.writer.Some? && s.writer.value != []
    ensures Inv(engine, Next(engine, s, WriterStep))
  {
    hide Ordered, WriterOk, Backed, ReaderOk;
    var s' := Next(engine, s, WriterStep);
    var op, rest := s.writer.value[0], s.writer.value[1..];
    assert s.writer.value == [op] + rest;
    WriterStepKeepsWriterOk(s, op, rest);
    forall id | id in s'.readers
      ensures ReaderOk(engine, s', s'.readers[id])
    {
      WriterStepKeepsReader(engine, s, op, rest, s.readers[id]);
    }
  }

  lemma EndWriteKeepsReader(engine: Engine, s: State, r: Reader)
    requires |s.history| > 0 && WriterOk(s) && s.writer == Some([]) && ReaderOk(engine, s, r)
    ensures ReaderOk(engine, Next(engine, s, EndWrite), r)
  {
    hide Backed, Traced, Captured;
    BackedLater(engine, s.history, [Commit(s.gens, s.stores)]);
  }

  lemma EndWriteExtends(engine: Engine, s: State)
    requires |s.history| > 0 && Ordered(s.history) && WriterOk(s) && s.writer == Some([])
    ensures Ordered(s.history + [Commit(s.gens, s.stores)]) && WriterOk(Next(engine, s, EndWrite))
  {
    assert Precedes(s.history[|s.history| - 1], Commit(s.gens, s.stores));
  }

  lemma EndWriteKeepsInv(engine: Engine, s: State)
    requires Inv(engine, s) && s.writer == Some([])
    ensures Inv(engine, Next(engine, s, EndWrite))
  {
    hide Ordered, WriterOk, Backed, ReaderOk;
    EndWriteExtends(engine, s);
    BackedLater(engine, s.history, [Commit(s.gens, s.stores)]);
    var s' := Next(engine, s, EndWrite);
    forall id | id in s'.readers
      ensures ReaderOk(engine, s', s'.readers[id])
    {
      EndWriteKeepsReader(engine, s, s.readers[id]);
    }
  }

  lemma BeginWriteKeepsInv(engine: Engine, s: State, w: Write)
    requires Inv(engine, s) && s.writer.None?
    ensures Inv(engine, Next(engine, s, BeginWrite(w)))
  {
    hide Plan, Disciplined, Backed, Ordered;
    var todo := Plan(w, s.stores);
    var s' := s.(writer := Some(todo));
    PlanIsDisciplined(w, s.stores);
    if WillWriteCo(todo) { WritesAreBumped(todo); }
    assert InProgress(s.history[|s.history| - 1], s', todo);
    forall id | id in s'.readers
      ensures ReaderOk(engine, s', s'.readers[id])
    {
      hide Traced, Captured;
      assert ReaderOk(engine, s, s.readers[id]);
    }
  }

  lemma BeginLoadKeepsInv(engine: Engine, s: State, staged: Stores, coGen: nat)
    requires Inv(engine, s) && s.writer.None? && forall id | id in s.readers :: !Active(s.readers[id])
    ensures Inv(engine, Next(engine, s, BeginLoad(staged, coGen)))
  {
    hide Backed, Ordered, Traced, Captured, CoFresh, VecFresh, MetaFresh;
    var plan := LoadPlan(staged, coGen);
    Unfold(DatasetBump, []);
    Unfold(MetaBump, [DatasetBump]);
    Unfold(VecBump, [MetaBump, DatasetBump]);
    Unfold(MetaWrite(staged.meta), [VecBump, MetaBump, DatasetBump]);
    Unfold(VecWrite(staged.vec), plan[2..]);
    assert plan == [plan[0]] + ([plan[1]] + plan[2..]);
    assert WillBumpDataset(plan);
  }

  /** A key that matches an older commit matches the reader's first commit as well. */
  lemma HitIsRecent(engine: Engine, s: State, r: Reader)
    requires Inv(engine, s) && IgnoresMatrix(engine) && ReaderOk(engine, s, r) && r.phase.Lookup?
    requires KeyFor(r.q, r.g) in s.cache
    ensures Backed(engine, s.history, KeyFor(r.q, r.g), s.cache[KeyFor(r.q, r.g)], r.start)
  {
    var key := KeyFor(r.q, r.g);
    var result := s.cache[key];
    var i :| 0 <= i < |s.history| && KeyFor(key.query, s.history[i].gens) == key
             && Answers(engine, key.query, s.history[i].stores, result);
    if i < r.start {
      var a, b := s.history[i], s.history[r.start];
      assert Precedes(a, b);
      assert KeyFor(r.q, b.gens) == key;
      var obs :| Undisturbed(engine, r.q, a.stores, obs) && engine(r.q, obs) == Return(result);
      assert Undisturbed(engine, r.q, b.stores, obs);
    }
  }

  /** With the gate held and the captured counters current, what was read is the store as it is. */
  lemma AdmittedIsAnswer(engine: Engine, s: State, r: Reader)
    requires Inv(engine, s) && IgnoresMatrix(engine) && ReaderOk(engine, s, r) && r.phase.Check?
    requires s.writer.None? && KeyFor(r.q, r.g) == KeyFor(r.q, s.gens)
    ensures Backed(engine, s.history, KeyFor(r.q, r.g), r.phase.found, r.start)
  {
    assert Undisturbed(engine, r.q, s.stores, r.obs);
    assert s.history[|s.history| - 1] == Commit(s.gens, s.stores);
  }

  lemma ReadingKeepsReader(engine: Engine, s: State, r: Reader, o: Obs)
    requires Inv(engine, s) && ReaderOk(engine, s, r) && r.phase.Searching?
    requires var a := engine(r.q, r.obs); !a.Return? && !(a.ReadCo? && s.coLocked) && o == Look(a, s.stores)
    ensures ReaderOk(engine, s, r.(obs := r.obs + [o]))
  {
    var r' := r.(obs := r.obs + [o]);
    assert r'.obs[..|r.obs|] == r.obs;
    forall k | 0 <= k < |r'.obs| ensures Fits(engine(r.q, r'.obs[..k]), r'.obs[k]) {
      if k < |r.obs| { assert r'.obs[..k] == r.obs[..k]; }
    }
    if r.q.Sim? {
      if !SawCo(r.obs) && o.CoSeen? { assert CoFresh(r', s); }
      assert CoFresh(r', s);
    }
  }

  /** A reader's invariant depends on the shared part of the state only. */
  lemma ReaderFrame(engine: Engine, s: State, s': State, r: Reader)
    requires ReaderOk(engine, s, r)
    requires s' == s.(readers := s'.readers, cache := s'.cache)
    ensures ReaderOk(engine, s', r)
  {
  }

  /** What one reader step does to the reader itself. */
  lemma AdvanceKeepsReader(engine: Engine, s: State, r: Reader)
    requires Inv(engine, s) && IgnoresMatrix(engine) && ReaderOk(engine, s, r)
    ensures ReaderOk(engine, s, Advance(engine, s, r))
  {
    match r.phase
    case Lookup => if KeyFor(r.q, r.g) in s.cache { HitIsRecent(engine, s, r); }
    case Searching =>
      var a := engine(r.q, r.obs);
      if !a.Return? && !(a.ReadCo? && s.coLocked) { ReadingKeepsReader(engine, s, r, Look(a, s.stores)); }
    case Check(_) =>
      if s.writer.None? && KeyFor(r.q, r.g) == KeyFor(r.q, s.gens) { AdmittedIsAnswer(engine, s, r); }
    case Done(_, _, _) =>
    case _ => LoadingKeepsReader(engine, s, r);
  }

  /** The counters never fall below those of a commit in the current dataset. */
  lemma CountersOnlyGrow(s: State, i: nat)
    requires |s.history| > 0 && Ordered(s.history) && WriterOk(s) && !s.exclusive && i < |s.history|
    requires s.history[i].gens.dataset == s.gens.dataset
    ensures var g := s.history[i].gens; g.co <= s.gens.co && g.vec <= s.gens.vec && g.meta <= s.gens.meta
  {
    assert i == |s.history| - 1 || Precedes(s.history[i], s.history[|s.history| - 1]);
  }

  lemma LoadingKeepsReader(engine: Engine, s: State, r: Reader)
    requires Inv(engine, s) && ReaderOk(engine, s, r)
    requires r.phase.LoadCo? || r.phase.LoadVec? || r.phase.LoadMeta? || r.phase.LoadDataset?
    ensures ReaderOk(engine, s, Advance(engine, s, r))
  {
    CountersOnlyGrow(s, r.start);
  }

  /** So does the writer's. */
  lemma WriterFrame(s: State, s': State)
    requires |s.history| > 0 && WriterOk(s) && s' == s.(readers := s'.readers, cache := s'.cache)
    ensures WriterOk(s')
  {
    hide Disciplined;
  }

  lemma BackedEarlier(engine: Engine, history: seq<Commit>, key: Key, r: Results, from: nat)
    requires Backed(engine, history, key, r, from)
    ensures Backed(engine, history, key, r, 0)
  {
  }

  lemma ReaderStepKeepsInv(engine: Engine, s: State, id: nat, admit: bool)
    requires Inv(engine, s) && IgnoresMatrix(engine) && id in s.readers
    ensures Inv(engine, Read(engine, s, id, admit))
  {
    hide Ordered, WriterOk, Backed, ReaderOk, Advance;
    var s' := Read(engine, s, id, admit);
    var r := s.readers[id];
    WriterFrame(s, s');
    AdvanceKeepsReader(engine, s, r);
    if Admits(s, r, admit) {
      AdmittedIsAnswer(engine, s, r);
      BackedEarlier(engine, s.history, KeyFor(r.q, r.g), r.phase.found, r.start);
    }
    forall other | other in s'.readers
      ensures ReaderOk(engine, s', s'.readers[other])
    {
      ReaderFrame(engine, s, s', s'.readers[other]);
    }
  }

  lemma NewReader(engine: Engine, s: State, q: Query)
    requires |s.history| > 0 && WriterOk(s) && !s.exclusive
    ensures ReaderOk(engine, s, Reader(q, if q.Sim? then LoadCo else LoadVec, Gens(0, 0, 0, 0), [], |s.history| - 1))
  {
    hide Disciplined, Backed;
  }

  lemma StartReaderKeepsInv(engine: Engine, s: State, id: nat, q: Query)
    requires Inv(engine, s)
    ensures Inv(engine, Next(engine, s, StartReader(id, q)))
  {
    hide Ordered, WriterOk, Backed, ReaderOk;
    var s' := Next(engine, s, StartReader(id, q));
    WriterFrame(s, s');
    forall other | other in s'.readers
      ensures ReaderOk(engine, s', s'.readers[other])
    {
      if other !in s.readers { NewReader(engine, s, q); }
      ReaderFrame(engine, s, s', s'.readers[other]);
    }
  }

  lemma EvictKeepsInv(engine: Engine, s: State, keys: set<Key>)
    requires Inv(engine, s)
    ensures Inv(engine, Next(engine, s, Evict(keys)))
  {
    hide Ordered, WriterOk, Backed, ReaderOk;
    var s' := Next(engine, s, Evict(keys));
    WriterFrame(s, s');
    forall id | id in s'.readers
      ensures ReaderOk(engine, s', s'.readers[id])
    {
      ReaderFrame(engine, s, s', s.readers[id]);
    }
  }

  lemma StepKeepsInv(engine: Engine, s: State, step: Step)
    requires Inv(engine, s) && IgnoresMatrix(engine)
    ensures Inv(engine, Next(engine, s, step))
  {
    hide Inv;
    match step
    case BeginWrite(w) => if s.writer.None? { BeginWriteKeepsInv(engine, s, w); }
    case BeginLoad(staged, coGen) =>
      if s.writer.None? && forall id | id in s.readers :: !Active(s.readers[id]) {
        BeginLoadKeepsInv(engine, s, staged, coGen);
      }
    case WriterStep => if s.writer.Some? && s.writer.value != [] { WriterStepKeepsInv(engine, s); }
    case EndWrite => if s.writer == Some([]) { EndWriteKeepsInv(engine, s); }
    case StartReader(id, q) => StartReaderKeepsInv(engine, s, id, q);
    case ReaderStep(id, admit) => if id in s.readers { ReaderStepKeepsInv(engine, s, id, admit); }
    case Evict(keys) => EvictKeepsInv(engine, s, keys);
  }

  lemma {:induction false} RunKeepsInv(engine: Engine, s: State, steps: seq<Step>)
    requires Inv(engine, s) && IgnoresMatrix(engine)
    ensures Inv(engine, Run(engine, s, steps))
    decreases |steps|
  {
    if steps != [] {
      StepKeepsInv(engine, s, steps[0]);
      RunKeepsInv(engine, Next(engine, s, steps[0]), steps[1..]);
    }
  }

  // ---------- What every run guarantees ----------

  /** Every cached entry is the undisturbed answer on a committed state that its key names. */
  lemma CachedEntriesAreAnswers(engine: Engine, stores: Stores, steps: seq<Step>, key: Key)
    requires IgnoresMatrix(engine)
    requires key in Run(engine, Init(stores), steps).cache
    ensures var s := Run(engine, Init(stores), steps);
      exists i :: 0 <= i < |s.history| && KeyFor(key.query, s.history[i].gens) == key
        && Answers(engine, key.query, s.history[i].stores, s.cache[key])
  {
    RunKeepsInv(engine, Init(stores), steps);
    var s := Run(engine, Init(stores), steps);
    assert Backed(engine, s.history, key, s.cache[key], 0);
  }

  lemma CurrentSinceStart(engine: Engine, stores: Stores, steps: seq<Step>, id: nat)
    requires IgnoresMatrix(engine)
    requires var s := Run(engine, Init(stores), steps);
      id in s.readers && s.readers[id].phase.Done? && (s.readers[id].phase.hit || s.readers[id].phase.current)
    ensures var s := Run(engine, Init(stores), steps);
      var r := s.readers[id];
      exists i :: r.start <= i < |s.history| && KeyFor(r.q, s.history[i].gens) == KeyFor(r.q, r.g)
        && Answers(engine, r.q, s.history[i].stores, r.phase.answer)
  {
    RunKeepsInv(engine, Init(stores), steps);
    var s := Run(engine, Init(stores), steps);
    var r := s.readers[id];
    assert ReaderOk(engine, s, r);
    assert Backed(engine, s.history, KeyFor(r.q, r.g), r.phase.answer, r.start);
  }

  lemma {:induction false} RunAppend(engine: Engine, s: State, xs: seq<Step>, ys: seq<Step>)
    ensures Run(engine, s, xs + ys) == Run(engine, Run(engine, s, xs), ys)
    decreases |xs|
  {
    hide Next;
    if xs == [] {
      assert xs + ys == ys;
    } else {
      assert (xs + ys)[1..] == xs[1..] + ys;
      RunAppend(engine, Next(engine, s, xs[0]), xs[1..], ys);
    }
  }

  /** A reader keeps its query and the commit it began with. */
  lemma {:induction false} ReaderStays(engine: Engine, s: State, steps: seq<Step>, id: nat)
    requires id in s.readers
    ensures var s' := Run(engine, s, steps);
      id in s'.readers && s'.readers[id].q == s.readers[id].q && s'.readers[id].start == s.readers[id].start
    decreases |steps|
  {
    if steps != [] {
      ReaderStaysOnce(engine, s, steps[0], id);
      ReaderStays(engine, Next(engine, s, steps[0]), steps[1..], id);
    }
  }

  lemma ReaderStaysOnce(engine: Engine, s: State, step: Step, id: nat)
    requires id in s.readers
    ensures var s' := Next(engine, s, step);
      id in s'.readers && s'.readers[id].q == s.readers[id].q && s'.readers[id].start == s.readers[id].start
  {
    hide Plan;
  }

  /** A reader that the k-th step starts begins with the last commit there is. */
  lemma ReaderBegins(engine: Engine, s: State, steps: seq<Step>, k: nat, id: nat)
    requires k < |steps| && id !in Run(engine, s, steps[..k]).readers && id in Run(engine, s, steps[..k + 1]).readers
    ensures var s', before := Run(engine, s, steps), Run(engine, s, steps[..k]);
      && steps[k].StartReader? && id in s'.readers
      && s'.readers[id].q == steps[k].q && s'.readers[id].start == |before.history| - 1
  {
    assert steps[..k + 1] == steps[..k] + [steps[k]] && steps == steps[..k + 1] + steps[k + 1..];
    RunAppend(engine, s, steps[..k], [steps[k]]);
    RunAppend(engine, s, steps[..k + 1], steps[k + 1..]);
    var before, now := Run(engine, s, steps[..k]), Run(engine, s, steps[..k + 1]);
    assert [steps[k]][1..] == [];
    assert now == Next(engine, before, steps[k]);
    hide Run;
    StartsOne(engine, before, steps[k], id);
    ReaderStays(engine, now, steps[k + 1..], id);
  }

  lemma StartsOne(engine: Engine, s: State, step: Step, id: nat)
    requires id !in s.readers && id in Next(engine, s, step).readers
    ensures step.StartReader? && var r := Next(engine, s, step).readers[id]; r.q == step.q && r.start == |s.history| - 1
  {
    hide Plan;
  }

  /**
   A cache hit, and equally a fresh result whose captured counters still hold at the end, answers for a
   state that was current at some moment of the request serving it.
   */
  lemma CurrentResultsAreLinearizable(engine: Engine, stores: Stores, steps: seq<Step>, k: nat, id: nat)
    requires IgnoresMatrix(engine) && k < |steps|
    requires id !in Run(engine, Init(stores), steps[..k]).readers && id in Run(engine, Init(stores), steps[..k + 1]).readers
    requires var s := Run(engine, Init(stores), steps);
      id in s.readers && s.readers[id].phase.Done? && (s.readers[id].phase.hit || s.readers[id].phase.current)
    ensures var s, before := Run(engine, Init(stores), steps), Run(engine, Init(stores), steps[..k]);
      && steps[k].StartReader?
      && exists i :: 0 <= i < |s.history| && i >= |before.history| - 1
           && Answers(engine, steps[k].q, s.history[i].stores, s.readers[id].phase.answer)
  {
    hide Run, Next;
    ReaderBegins(engine, Init(stores), steps, k, id);
    CurrentSinceStart(engine, stores, steps, id);
  }

  /** Counters never come back for different stores, although a load may move the index counter back. */
  lemma GenerationsNameOneState(engine: Engine, stores: Stores, steps: seq<Step>, i: nat, j: nat, q: Query)
    requires IgnoresMatrix(engine)
    requires var h := Run(engine, Init(stores), steps).history;
      i < j < |h| && KeyFor(q, h[i].gens) == KeyFor(q, h[j].gens)
    ensures var h := Run(engine, Init(stores), steps).history;
      && h[i].stores.vec == h[j].stores.vec && h[i].stores.meta == h[j].stores.meta
      && (q.Sim? ==> h[i].stores == h[j].stores)
  {
    RunKeepsInv(engine, Init(stores), steps);
    var h := Run(engine, Init(stores), steps).history;
    assert Precedes(h[i], h[j]);
  }
}
