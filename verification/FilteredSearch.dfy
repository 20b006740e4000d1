/**
 The filtered vector search as a client of the result cache.  It reads the vectors once, then the metadata once for
 every candidate, and once more for every result it selected, each under a lock of its own.
 */
module FilteredSearch {
  import opened Wrappers
  import opened CacheProtocol

  /** `layout` is the order of the vector matrix, `matches` the filter, and `select` the choice of the best `topK`. */
  datatype Searcher = Searcher(
    layout: Vectors -> seq<string>, score: (Query, Vectors, string) -> real,
    matches: (string, map<string, string>) -> bool, select: (Query, Results) -> Results)

  /** A selection takes from what it is given, and takes something if there is anything. */
  ghost predicate Selects(s: Searcher) {
    forall q: Query, found: Results ::
      (forall r :: r in s.select(q, found) ==> r in found) && (found != [] && q.topK > 0 ==> s.select(q, found) != [])
  }

  predicate Passes(s: Searcher, q: Query, id: string, meta: Attributes) { id in meta && s.matches(q.filter, meta[id]) }

  predicate SeenToPass(s: Searcher, q: Query, id: string, o: Obs) { o.MetaSeen? && Passes(s, q, id, o.meta) }

  /** The candidates that passed, each by the metadata read for it. */
  function Found(s: Searcher, q: Query, vec: Vectors, ids: seq<string>, seen: seq<Obs>): Results
    requires |seen| == |ids|
  {
    if ids == [] then []
    else
      (if SeenToPass(s, q, ids[0], seen[0]) then [(ids[0], s.score(q, vec, ids[0]))] else [])
      + Found(s, q, vec, ids[1..], seen[1..])
  }

  /** The selected results that pass again. */
  function Kept(s: Searcher, q: Query, selected: Results, seen: seq<Obs>): Results
    requires |seen| == |selected|
  {
    if selected == [] then []
    else (if SeenToPass(s, q, selected[0].0, seen[0]) then [selected[0]] else []) + Kept(s, q, selected[1..], seen[1..])
  }

  function ScanStep(s: Searcher, q: Query, obs: seq<Obs>): Action {
    if obs == [] then ReadVec
    else if !obs[0].VecSeen? then Return([])
    else
      var vec := obs[0].vec;
      var n := |s.layout(vec)|;
      if |obs| <= n then ReadMeta
      else
        var selected := s.select(q, Found(s, q, vec, s.layout(vec), obs[1..n + 1]));
        var m := n + |selected|;
        if |obs| <= m then ReadMeta else Return(Kept(s, q, selected, obs[n + 1..m + 1]))
  }

  function Scan(s: Searcher): Engine { (q: Query, obs: seq<Obs>) => ScanStep(s, q, obs) }

  /** Whatever was going on, every result has passed the filter again after it was selected, by metadata read for it then. */
  lemma ResultsPassAgain(s: Searcher, q: Query, obs: seq<Obs>, results: Results)
    requires obs != [] && obs[0].VecSeen? && ScanStep(s, q, obs) == Return(results)
    ensures var n := |s.layout(obs[0].vec)|;
      forall r :: r in results ==> exists j :: n < j < |obs| && SeenToPass(s, q, r.0, obs[j])
  {
    hide SeenToPass, Found;
    var n := |s.layout(obs[0].vec)|;
    var selected := s.select(q, Found(s, q, obs[0].vec, s.layout(obs[0].vec), obs[1..n + 1]));
    var seen := obs[n + 1..n + |selected| + 1];
    KeptPass(s, q, selected, seen);
    forall r | r in results ensures exists j :: n < j < |obs| && SeenToPass(s, q, r.0, obs[j]) {
      var i :| 0 <= i < |seen| && SeenToPass(s, q, r.0, seen[i]);
      assert obs[n + 1 + i] == seen[i];
    }
  }

  lemma {:induction false} KeptPass(s: Searcher, q: Query, selected: Results, seen: seq<Obs>)
    requires |seen| == |selected|
    ensures forall r :: r in Kept(s, q, selected, seen) ==> exists i :: 0 <= i < |seen| && SeenToPass(s, q, r.0, seen[i])
  {
    hide SeenToPass;
    if selected != [] {
      KeptPass(s, q, selected[1..], seen[1..]);
      forall r | r in Kept(s, q, selected, seen) ensures exists i :: 0 <= i < |seen| && SeenToPass(s, q, r.0, seen[i]) {
        if r in Kept(s, q, selected[1..], seen[1..]) {
          var i :| 0 <= i < |seen| - 1 && SeenToPass(s, q, r.0, seen[1..][i]);
          assert seen[i + 1] == seen[1..][i];
        } else {
          assert SeenToPass(s, q, r.0, seen[0]);
        }
      }
    }
  }

  // ---------- What an undisturbed search answers ----------

  function Matching(s: Searcher, q: Query, st: Stores, ids: seq<string>): Results {
    if ids == [] then []
    else
      (if Passes(s, q, ids[0], st.meta) then [(ids[0], s.score(q, st.vec, ids[0]))] else []) + Matching(s, q, st, ids[1..])
  }

  /** The best matching items of one state of the stores. */
  function Best(s: Searcher, q: Query, st: Stores): Results { s.select(q, Matching(s, q, st, s.layout(st.vec))) }

  predicate Same(seen: seq<Obs>, meta: Attributes) { forall i :: 0 <= i < |seen| ==> seen[i] == MetaSeen(meta) }

  lemma {:induction false} FoundIsMatching(s: Searcher, q: Query, st: Stores, ids: seq<string>, seen: seq<Obs>)
    requires |seen| == |ids| && Same(seen, st.meta)
    ensures Found(s, q, st.vec, ids, seen) == Matching(s, q, st, ids)
  {
    if ids != [] { FoundIsMatching(s, q, st, ids[1..], seen[1..]); }
  }

  lemma {:induction false} MatchingPasses(s: Searcher, q: Query, st: Stores, ids: seq<string>)
    ensures forall r :: r in Matching(s, q, st, ids) ==> Passes(s, q, r.0, st.meta)
  {
    if ids != [] { MatchingPasses(s, q, st, ids[1..]); }
  }

  lemma {:induction false} AllKept(s: Searcher, q: Query, selected: Results, seen: seq<Obs>, meta: Attributes)
    requires |seen| == |selected| && Same(seen, meta)
    requires forall r :: r in selected ==> Passes(s, q, r.0, meta)
    ensures Kept(s, q, selected, seen) == selected
  {
    if selected != [] { AllKept(s, q, selected[1..], seen[1..], meta); }
  }

  /** What the search does when all metadata it has read so far is the same. */
  lemma ScanOfSame(s: Searcher, q: Query, st: Stores, obs: seq<Obs>)
    requires Selects(s) && obs != [] && obs[0] == VecSeen(st.vec) && Same(obs[1..], st.meta)
    ensures var m := |s.layout(st.vec)| + |Best(s, q, st)|;
      && (|obs| <= m ==> ScanStep(s, q, obs) == ReadMeta)
      && (|obs| == m + 1 ==> ScanStep(s, q, obs) == Return(Best(s, q, st)))
  {
    hide Found, Kept, Matching, Passes;
    var ids, n := s.layout(st.vec), |s.layout(st.vec)|;
    if |obs| > n {
      assert Same(obs[1..n + 1], st.meta);
      FoundIsMatching(s, q, st, ids, obs[1..n + 1]);
      MatchingPasses(s, q, st, ids);
      var m := n + |Best(s, q, st)|;
      if |obs| > m {
        assert Same(obs[n + 1..m + 1], st.meta);
        AllKept(s, q, Best(s, q, st), obs[n + 1..m + 1], st.meta);
      }
    }
  }

  /** A filtered search that has the stores to itself answers with the best matching items, and with nothing else. */
  lemma AnswersAreBest(s: Searcher, q: Query, st: Stores, r: Results)
    requires Selects(s)
    ensures Answers(Scan(s), q, st, r) <==> r == Best(s, q, st)
  {
    hide ScanStep, Selects, Best;
    var m := |s.layout(st.vec)| + |Best(s, q, st)|;
    var obs := [VecSeen(st.vec)] + seq(m, i => MetaSeen(st.meta));
    forall k | 0 <= k < |obs| ensures !Scan(s)(q, obs[..k]).Return? && obs[k] == Look(Scan(s)(q, obs[..k]), st) {
      if k == 0 {
        ScanBegins(s, q, obs[..0]);
      } else {
        assert Same(obs[..k][1..], st.meta);
        ScanOfSame(s, q, st, obs[..k]);
      }
    }
    assert obs[..|obs|] == obs && Same(obs[1..], st.meta);
    ScanOfSame(s, q, st, obs);
    assert Undisturbed(Scan(s), q, st, obs) && Scan(s)(q, obs) == Return(Best(s, q, st));
    if Answers(Scan(s), q, st, r) { AnswerIsUnique(Scan(s), q, st, r, Best(s, q, st)); }
  }

  lemma ScanBegins(s: Searcher, q: Query, obs: seq<Obs>)
    requires obs == []
    ensures ScanStep(s, q, obs) == ReadVec
  {
  }

  // ---------- What a miss does not guarantee ----------

  /** Two items of which a filter lets some attributes pass and others not. */
  datatype Torn = Torn(s: Searcher, q: Query, vec: Vectors, x: string, y: string, yes: map<string, string>, no: map<string, string>)

  ghost predicate Suits(c: Torn) {
    && Selects(c.s) && c.q.Simv? && c.q.topK > 0
    && c.s.layout(c.vec) == [c.x, c.y] && c.x != c.y && c.x in c.vec && c.y in c.vec
    && c.s.matches(c.q.filter, c.yes) && !c.s.matches(c.q.filter, c.no)
  }

  /** For one: two vectors, a filter on one attribute, and the first `topK` of what is found. */
  lemma SomethingSuits() returns (c: Torn)
    ensures Suits(c)
  {
    var s := Searcher(
      (vec: Vectors) => if "a" in vec && "b" in vec then ["a", "b"] else [], (q: Query, vec: Vectors, id: string) => 1.0,
      (filter: string, meta: map<string, string>) => "status" in meta && meta["status"] == filter,
      (q: Query, found: Results) => if |found| <= q.topK then found else found[..q.topK]);
    c := Torn(s, Simv([1.0], 10, "on"), map["a" := [1.0], "b" := [1.0]], "a", "b", map["status" := "on"], map["status" := "off"]);
    var ids := c.s.layout(c.vec);
    assert ids == ["a", "b"] && ids[0] != ids[1];
  }

  function MetaOf(c: Torn, x: bool, y: bool): Attributes {
    map[c.x := if x then c.yes else c.no][c.y := if y then c.yes else c.no]
  }

  function StoresOf(c: Torn, x: bool, y: bool): Stores { Stores(map[], c.vec, MetaOf(c, x, y)) }

  /** The first item comes to match after it was read, the second ceases to before it is. */
  function TornRun(c: Torn): seq<Step> {
    var read := ReaderStep(0, true);
    ([StartReader(0, c.q), read, read, read] + [read, read, read])
    + (SetMeta(c.x, c.yes) + SetMeta(c.y, c.no))
    + [read, read, read]
  }

  function SetMeta(id: string, given: map<string, string>): seq<Step> {
    [BeginWrite(MetaSet(id, given)), WriterStep, WriterStep, EndWrite]
  }

  lemma RunThree(engine: Engine, s: State, a: Step, b: Step, c: Step)
    ensures Run(engine, s, [a, b, c]) == Next(engine, Next(engine, Next(engine, s, a), b), c)
  {
    assert [a, b, c][1..] == [b, c] && [b, c][1..] == [c] && [c][1..] == [];
    var s1 := Next(engine, s, a);
    var s2 := Next(engine, s1, b);
    assert Run(engine, s2, [c]) == Next(engine, s2, c);
    assert Run(engine, s1, [b, c]) == Run(engine, s2, [c]);
  }

  lemma RunFour(engine: Engine, s: State, a: Step, b: Step, c: Step, d: Step)
    ensures Run(engine, s, [a, b, c, d]) == Next(engine, Next(engine, Next(engine, Next(engine, s, a), b), c), d)
  {
    assert [a, b, c, d][1..] == [b, c, d];
    RunThree(engine, Next(engine, s, a), b, c, d);
  }

  /** A METASET from beginning to end. */
  lemma MetaSetRuns(engine: Engine, s: State, id: string, given: map<string, string>)
    requires s.writer.None? && !s.exclusive && id in s.stores.vec
    ensures var st, g := s.stores.(meta := s.stores.meta[id := given]), s.gens.(meta := s.gens.meta + 1);
      Run(engine, s, SetMeta(id, given)) == s.(stores := st, gens := g, history := s.history + [Commit(g, st)])
  {
    RunFour(engine, s, BeginWrite(MetaSet(id, given)), WriterStep, WriterStep, EndWrite);
    hide Run;
    var meta := s.stores.meta[id := given];
    var st, g := s.stores.(meta := meta), s.gens.(meta := s.gens.meta + 1);
    var s1 := s.(writer := Some([MetaWrite(meta), MetaBump]));
    var s2 := s.(stores := st, writer := Some([MetaBump]));
    var s3 := s.(stores := st, gens := g, writer := Some([]));
    assert Next(engine, s, BeginWrite(MetaSet(id, given))) == s1;
    hide Plan;
    assert [MetaWrite(meta), MetaBump][1..] == [MetaBump] && [MetaBump][1..] == [];
    assert Next(engine, s1, WriterStep) == s2;
    assert Next(engine, s2, WriterStep) == s3;
  }

  const NO_GENS := Gens(0, 0, 0, 0)

  function HalfWay(c: Torn): Reader {
    Reader(c.q, Searching, NO_GENS, [VecSeen(c.vec), MetaSeen(MetaOf(c, false, true))], 0)
  }

  lemma TornReadBegins(c: Torn)
    requires Suits(c)
    ensures var s, read := Init(StoresOf(c, false, true)), ReaderStep(0, true);
      Run(Scan(c.s), s, [StartReader(0, c.q), read, read, read] + [read, read, read]) == s.(readers := map[0 := HalfWay(c)])
  {
    hide Found, Kept, Selects;
    var s, e, read := Init(StoresOf(c, false, true)), Scan(c.s), ReaderStep(0, true);
    RunFour(e, s, StartReader(0, c.q), read, read, read);
    var mid := s.(readers := map[0 := Reader(c.q, Lookup, NO_GENS, [], 0)]);
    assert Run(e, s, [StartReader(0, c.q), read, read, read]) == mid;
    RunThree(e, mid, read, read, read);
    var first := mid.(readers := map[0 := Reader(c.q, Searching, NO_GENS, [], 0)]);
    var second := mid.(readers := map[0 := Reader(c.q, Searching, NO_GENS, [VecSeen(c.vec)], 0)]);
    assert Next(e, mid, read) == first;
    assert [] + [VecSeen(c.vec)] == [VecSeen(c.vec)];
    assert Next(e, first, read) == second;
    assert ScanStep(c.s, c.q, [VecSeen(c.vec)]) == ReadMeta;
    assert [VecSeen(c.vec)] + [MetaSeen(s.stores.meta)] == HalfWay(c).obs;
    assert Next(e, second, read) == s.(readers := map[0 := HalfWay(c)]);
    RunAppend(e, s, [StartReader(0, c.q), read, read, read], [read, read, read]);
  }

  function AfterWrites(c: Torn): State {
    var g1, g2 := Gens(0, 0, 1, 0), Gens(0, 0, 2, 0);
    State(StoresOf(c, true, false), g2, false, false, None, map[0 := HalfWay(c)], map[],
          [Commit(NO_GENS, StoresOf(c, false, true)), Commit(g1, StoresOf(c, true, true)), Commit(g2, StoresOf(c, true, false))])
  }

  lemma TornWritesRun(c: Torn)
    requires Suits(c)
    ensures Run(Scan(c.s), Init(StoresOf(c, false, true)).(readers := map[0 := HalfWay(c)]),
                SetMeta(c.x, c.yes) + SetMeta(c.y, c.no)) == AfterWrites(c)
  {
    hide Run, SetMeta;
    var s, e := Init(StoresOf(c, false, true)).(readers := map[0 := HalfWay(c)]), Scan(c.s);
    MetaSetRuns(e, s, c.x, c.yes);
    assert MetaOf(c, false, true)[c.x := c.yes] == MetaOf(c, true, true);
    var mid := Run(e, s, SetMeta(c.x, c.yes));
    MetaSetRuns(e, mid, c.y, c.no);
    assert MetaOf(c, true, true)[c.y := c.no] == MetaOf(c, true, false);
    RunAppend(e, s, SetMeta(c.x, c.yes), SetMeta(c.y, c.no));
  }

  /** The reader found neither item to match. */
  lemma TornReadEnds(c: Torn)
    requires Suits(c)
    ensures var read := ReaderStep(0, true); var s := Run(Scan(c.s), AfterWrites(c), [read, read, read]);
      && s.cache == map[] && s.history == AfterWrites(c).history
      && 0 in s.readers && s.readers[0].q == c.q && s.readers[0].phase == Done([], false, false)
  {
    hide Selects;
    var e, s, read := Scan(c.s), AfterWrites(c), ReaderStep(0, true);
    RunThree(e, s, read, read, read);
    assert ScanStep(c.s, c.q, HalfWay(c).obs) == ReadMeta;
    var obs := [VecSeen(c.vec), MetaSeen(MetaOf(c, false, true)), MetaSeen(MetaOf(c, true, false))];
    assert HalfWay(c).obs + [MetaSeen(s.stores.meta)] == obs;
    var s1 := s.(readers := map[0 := HalfWay(c).(obs := obs)]);
    assert Next(e, s, read) == s1;
    NothingFound(c, obs);
    assert Next(e, s1, read) == s.(readers := map[0 := HalfWay(c).(obs := obs, phase := Check([]))]);
  }

  lemma NothingFound(c: Torn, obs: seq<Obs>)
    requires Suits(c) && obs == [VecSeen(c.vec), MetaSeen(MetaOf(c, false, true)), MetaSeen(MetaOf(c, true, false))]
    ensures ScanStep(c.s, c.q, obs) == Return([])
  {
    var ids, seen := [c.x, c.y], obs[1..3];
    assert ids[1..] == [c.y] && [c.y][1..] == [] && seen[1..] == [obs[2]] && [obs[2]][1..] == [];
    assert Found(c.s, c.q, c.vec, [c.y], [obs[2]]) == [];
    assert Found(c.s, c.q, c.vec, ids, seen) == [];
    var selected := c.s.select(c.q, []);
    EmptyOrNot(selected);
  }

  lemma EmptyOrNot(found: Results)
    ensures found == [] || exists r :: r in found
  {
    if found != [] { assert found[0] in found; }
  }

  /** As long as one item matches, a search by itself finds something. */
  lemma BestIsSomething(c: Torn, x: bool, y: bool)
    requires Suits(c) && (x || y)
    ensures Best(c.s, c.q, StoresOf(c, x, y)) != []
  {
    var st := StoresOf(c, x, y);
    assert [c.x, c.y][1..] == [c.y];
    assert Matching(c.s, c.q, st, [c.x, c.y]) == Matching(c.s, c.q, st, [c.x, c.y][..1]) + Matching(c.s, c.q, st, [c.y]);
  }

  /**
   A filtered search that misses the cache may mix states of the metadata.  Whatever the filter, the similarity and the
   selection: with two METASETs at the wrong moments it returns nothing, although every committed state holds a match.
   The result is returned to its client, but it is not current and never reaches the cache.
   */
  lemma MissesMayBeTorn(c: Torn)
    requires Suits(c)
    ensures IgnoresMatrix(Scan(c.s))
    ensures var s := Run(Scan(c.s), Init(StoresOf(c, false, true)), TornRun(c));
      && 0 in s.readers && s.readers[0].phase == Done([], false, false)
      && s.cache == map[] && |s.history| == 3
      && forall i :: 0 <= i < |s.history| ==>
           Best(c.s, c.q, s.history[i].stores) != [] && !Answers(Scan(c.s), c.q, s.history[i].stores, [])
  {
    hide Run, Best, ScanStep, Suits, SetMeta;
    ScanIgnoresMatrix(c.s);
    var read := ReaderStep(0, true);
    var s0, e := Init(StoresOf(c, false, true)), Scan(c.s);
    var begin := [StartReader(0, c.q), read, read, read] + [read, read, read];
    var writes := SetMeta(c.x, c.yes) + SetMeta(c.y, c.no);
    TornReadBegins(c);
    TornWritesRun(c);
    RunAppend(e, s0, begin, writes);
    RunAppend(e, s0, begin + writes, [read, read, read]);
    TornReadEnds(c);
    BestIsSomething(c, false, true);
    BestIsSomething(c, true, true);
    BestIsSomething(c, true, false);
    var s := Run(e, s0, TornRun(c));
    forall i | 0 <= i < |s.history| ensures !Answers(e, c.q, s.history[i].stores, []) {
      assert Selects(c.s) by { SuitsSelects(c); }
      AnswersAreBest(c.s, c.q, s.history[i].stores, []);
    }
  }

  lemma SuitsSelects(c: Torn)
    requires Suits(c)
    ensures Selects(c.s)
  {
  }

  lemma ScanIgnoresMatrix(s: Searcher)
    ensures IgnoresMatrix(Scan(s))
  {
  }
}
