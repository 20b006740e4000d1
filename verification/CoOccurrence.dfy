/**
 The co-occurrence index: a symmetric sparse matrix of scores that ingestion adds to, deletions dampen,
 maintenance decays, and pruning keeps sparse.
 */
module CoOccurrence {
  import opened Events
  import opened Sequences
  import Sets
  import StringOrder

  type Row = map<Id, real>
  type Matrix = map<Id, Row>

  datatype Config = Config(maxNeighbors: nat, minSupport: real, negativeMaxPropagation: nat)

  const DECAY_THRESHOLD: real := 0.000001

  function Abs(x: real): real { if x < 0.0 then -x else x }

  predicate Has(m: Matrix, a: Id, b: Id) { a in m && b in m[a] }

  function Score(m: Matrix, a: Id, b: Id): real { if Has(m, a, b) then m[a][b] else 0.0 }

  ghost predicate Symmetric(m: Matrix) {
    forall a, b :: Has(m, a, b) ==> Has(m, b, a) && m[a][b] == m[b][a]
  }

  /** No item is its own neighbour, and no row is empty. */
  ghost predicate Clean(m: Matrix) {
    forall a :: a in m ==> m[a] != map[] && a !in m[a]
  }

  // ---------- Adding pairs ----------

  /** `co_scores_[a][b] += w`, creating row and entry as needed. */
  function AddTo(m: Matrix, a: Id, b: Id, w: real): Matrix {
    var row := if a in m then m[a] else map[];
    m[a := row[b := (if b in row then row[b] else 0.0) + w]]
  }

  function AddPair(m: Matrix, a: Id, b: Id, w: real): Matrix {
    AddTo(AddTo(m, a, b, w), b, a, w)
  }

  function AddWeighted(m: Matrix, x: Event, y: Event, t: Temporal): Matrix {
    if x.id == y.id || Weight(x, y, t) == 0.0 then m else AddPair(m, x.id, y.id, Weight(x, y, t))
  }

  /** Pairs `x` with every event of `s`, in order. */
  function AddPairs(m: Matrix, s: seq<Event>, x: Event, t: Temporal): Matrix
    decreases |s|
  {
    if s == [] then m else AddWeighted(AddPairs(m, s[..|s| - 1], x, t), x, s[|s| - 1], t)
  }

  lemma AddPairKeeps(m: Matrix, a: Id, b: Id, w: real)
    requires Symmetric(m) && Clean(m) && a != b
    ensures Symmetric(AddPair(m, a, b, w)) && Clean(AddPair(m, a, b, w))
    ensures forall c, d ::
      (Score(AddPair(m, a, b, w), c, d) == Score(m, c, d) + (if (c == a && d == b) || (c == b && d == a) then w else 0.0))
    ensures forall c :: c != a && c != b ==> (c in AddPair(m, a, b, w) <==> c in m) && (c in m ==> AddPair(m, a, b, w)[c] == m[c])
  {
    hide AddPair, Symmetric, Clean;
    var m' := AddPair(m, a, b, w);
    forall c, d
      ensures Has(m', c, d) <==> Has(m, c, d) || (c == a && d == b) || (c == b && d == a)
      ensures Score(m', c, d) == Score(m, c, d) + (if (c == a && d == b) || (c == b && d == a) then w else 0.0)
    {
      AddPairAt(m, a, b, w, c, d);
    }
    AddPairRows(m, a, b, w);
    AddPairSymmetric(m, m', a, b, w);
  }

  lemma AddPairAt(m: Matrix, a: Id, b: Id, w: real, c: Id, d: Id)
    requires a != b
    ensures Has(AddPair(m, a, b, w), c, d) <==> Has(m, c, d) || (c == a && d == b) || (c == b && d == a)
    ensures Score(AddPair(m, a, b, w), c, d) == Score(m, c, d) + (if (c == a && d == b) || (c == b && d == a) then w else 0.0)
  {
  }

  lemma AddPairRows(m: Matrix, a: Id, b: Id, w: real)
    requires Clean(m) && a != b
    ensures Clean(AddPair(m, a, b, w))
    ensures forall c :: c != a && c != b ==> (c in AddPair(m, a, b, w) <==> c in m) && (c in m ==> AddPair(m, a, b, w)[c] == m[c])
  {
    var m' := AddPair(m, a, b, w);
    assert b in m'[a] && a in m'[b];
  }

  lemma AddPairSymmetric(m: Matrix, m': Matrix, a: Id, b: Id, w: real)
    requires Symmetric(m) && a != b
    requires forall c, d :: Has(m', c, d) <==> Has(m, c, d) || (c == a && d == b) || (c == b && d == a)
    requires forall c, d :: Score(m', c, d) == Score(m, c, d) + (if (c == a && d == b) || (c == b && d == a) then w else 0.0)
    ensures Symmetric(m')
  {
    forall c, d | Has(m', c, d) ensures Has(m', d, c) && m'[c][d] == m'[d][c] {
      assert Score(m, c, d) == Score(m, d, c);
      assert Score(m', c, d) == m'[c][d] && Score(m', d, c) == m'[d][c];
    }
  }

  /** Scoring a new event adds, to every cell, exactly the shares of the new pairs. */
  lemma {:induction false} AddPairsScore(m: Matrix, s: seq<Event>, x: Event, t: Temporal)
    requires Symmetric(m) && Clean(m)
    ensures Symmetric(AddPairs(m, s, x, t)) && Clean(AddPairs(m, s, x, t))
    ensures forall a, b :: Score(AddPairs(m, s, x, t), a, b) == Score(m, a, b) + SumShare(s, x, a, b, t)
    decreases |s|
  {
    hide Symmetric, Clean, Score, Weight, AddPair;
    if s != [] {
      var n := |s| - 1;
      AddPairsScore(m, s[..n], x, t);
      var mid := AddPairs(m, s[..n], x, t);
      var y := s[n];
      if x.id != y.id && Weight(x, y, t) != 0.0 { AddPairKeeps(mid, x.id, y.id, Weight(x, y, t)); }
      WeightIsSymmetric(x, y, t);
    }
  }

  // ---------- Cutting edges ----------

  function CutRow(m: Matrix, item: Id, drop: set<Id>, a: Id): Row
    requires a in m
  {
    if a == item then m[a] - drop else if a in drop then m[a] - {item} else m[a]
  }

  /** The matrix without the edges between `item` and `drop`, and without rows that become empty. */
  function Cut(m: Matrix, item: Id, drop: set<Id>): Matrix {
    map a | a in m && CutRow(m, item, drop, a) != map[] :: CutRow(m, item, drop, a)
  }

  /** Edges may go, the remaining ones are untouched. */
  ghost predicate Shrinks(m: Matrix, m': Matrix) {
    forall a :: a in m' ==> a in m && m'[a].Keys <= m[a].Keys && forall b :: b in m'[a] ==> m'[a][b] == m[a][b]
  }

  lemma CutKeeps(m: Matrix, item: Id, drop: set<Id>)
    requires Symmetric(m) && Clean(m)
    ensures Symmetric(Cut(m, item, drop)) && Clean(Cut(m, item, drop)) && Shrinks(m, Cut(m, item, drop))
    ensures forall a, b :: Has(Cut(m, item, drop), a, b) <==>
      Has(m, a, b) && !(a == item && b in drop) && !(b == item && a in drop)
  {
    var m' := Cut(m, item, drop);
    forall a, b ensures Has(m', a, b) <==> Has(m, a, b) && !(a == item && b in drop) && !(b == item && a in drop) {
      if Has(m, a, b) && !(a == item && b in drop) && !(b == item && a in drop) {
        assert b in CutRow(m, item, drop, a);
      }
    }
  }

  function Supported(row: Row, cfg: Config): set<Id> {
    set b | b in row && (cfg.minSupport <= 0.0 || Abs(row[b]) >= cfg.minSupport)
  }

  /** What pruning a row may keep: the supported edges, or if they are too many, strongest ones up to the limit. */
  ghost predicate Keeps(row: Row, kept: set<Id>, cfg: Config) {
    var supported := Supported(row, cfg);
    && kept <= supported
    && |kept| == (if cfg.maxNeighbors > 0 && |supported| > cfg.maxNeighbors then cfg.maxNeighbors else |supported|)
    && forall b, c :: b in kept && c in supported - kept ==> Abs(row[b]) >= Abs(row[c])
  }

  /** One possible outcome of pruning an item; equal magnitudes may be cut either way. */
  ghost predicate IsPrune(m: Matrix, m': Matrix, item: Id, cfg: Config) {
    if item !in m then m' == m
    else exists kept :: Keeps(m[item], kept, cfg) && m' == Cut(m, item, m[item].Keys - kept)
  }

  /** An item within its limits. */
  ghost predicate Bounded(m: Matrix, item: Id, cfg: Config) {
    item in m ==>
      && (cfg.maxNeighbors > 0 ==> |m[item]| <= cfg.maxNeighbors)
      && (cfg.minSupport > 0.0 ==> forall b :: b in m[item] ==> Abs(m[item][b]) >= cfg.minSupport)
  }

  lemma RowShrinks(row: Row, row': Row)
    requires row'.Keys <= row.Keys
    ensures |row'| <= |row|
  {
    assert row.Keys == row'.Keys + (row.Keys - row'.Keys);
  }

  lemma BoundedShrinks(m: Matrix, m': Matrix, item: Id, cfg: Config)
    requires Shrinks(m, m') && Bounded(m, item, cfg)
    ensures Bounded(m', item, cfg)
  {
    if item in m' { RowShrinks(m[item], m'[item]); }
  }

  /** Pruning an item brings it within its limits, touches only edges at the item, and keeps the matrix sound. */
  lemma PruneKeeps(m: Matrix, m': Matrix, item: Id, cfg: Config)
    requires Symmetric(m) && Clean(m) && IsPrune(m, m', item, cfg)
    ensures Symmetric(m') && Clean(m') && Shrinks(m, m') && Bounded(m', item, cfg)
    ensures forall a, b :: Has(m, a, b) && !Has(m', a, b) ==> a == item || b == item
  {
    hide Keeps;
    if item in m {
      var kept :| Keeps(m[item], kept, cfg) && m' == Cut(m, item, m[item].Keys - kept);
      CutKeeps(m, item, m[item].Keys - kept);
      KeptIsBounded(m[item], kept, cfg);
      if item in m' { assert m'[item] == m[item] - (m[item].Keys - kept); }
    }
  }

  lemma KeptIsBounded(row: Row, kept: set<Id>, cfg: Config)
    requires Keeps(row, kept, cfg)
    ensures var row' := row - (row.Keys - kept);
      && row'.Keys == kept
      && (cfg.maxNeighbors > 0 ==> |row'| <= cfg.maxNeighbors)
      && (cfg.minSupport > 0.0 ==> forall b :: b in row' ==> Abs(row'[b]) >= cfg.minSupport)
  {
    assert (row - (row.Keys - kept)).Keys == kept;
  }

  /** Pruning a list of items one after the other. */
  ghost predicate PruneChain(m: Matrix, m': Matrix, items: seq<Id>, cfg: Config)
    decreases |items|
  {
    if items == [] then m' == m
    else exists mid :: PruneChain(m, mid, Front(items), cfg) && IsPrune(mid, m', Last(items), cfg)
  }

  lemma {:induction false} PruneChainKeeps(m: Matrix, m': Matrix, items: seq<Id>, cfg: Config)
    requires Symmetric(m) && Clean(m) && PruneChain(m, m', items, cfg)
    ensures Symmetric(m') && Clean(m') && Shrinks(m, m')
    ensures forall a :: a in items ==> Bounded(m', a, cfg)
    ensures forall a, b :: Has(m, a, b) && !Has(m', a, b) ==> a in items || b in items
    decreases |items|
  {
    hide Symmetric, Clean, Bounded, IsPrune;
    if items != [] {
      var init, last := Front(items), Last(items);
      assert items == init + [last];
      var mid :| PruneChain(m, mid, init, cfg) && IsPrune(mid, m', last, cfg);
      PruneChainKeeps(m, mid, init, cfg);
      PruneKeeps(mid, m', last, cfg);
      forall a | a in init ensures Bounded(m', a, cfg) { BoundedShrinks(mid, m', a, cfg); }
      forall a, b | Has(m, a, b) && !Has(m', a, b) ensures a in items || b in items {
        if Has(mid, a, b) { assert a == last || b == last; }
      }
    }
  }

  /** Without limits, pruning changes nothing. */
  lemma {:induction false} UnlimitedPrune(m: Matrix, m': Matrix, items: seq<Id>, cfg: Config)
    requires !Limited(cfg) && Clean(m) && PruneChain(m, m', items, cfg)
    ensures m' == m
    decreases |items|
  {
    if items != [] {
      hide Clean, IsPrune;
      var mid :| PruneChain(m, mid, Front(items), cfg) && IsPrune(mid, m', Last(items), cfg);
      UnlimitedPrune(m, mid, Front(items), cfg);
      UnlimitedPruneOne(m, m', Last(items), cfg);
    }
  }

  lemma UnlimitedPruneOne(m: Matrix, m': Matrix, item: Id, cfg: Config)
    requires !Limited(cfg) && Clean(m) && IsPrune(m, m', item, cfg)
    ensures m' == m
  {
    if item in m {
      var kept :| Keeps(m[item], kept, cfg) && m' == Cut(m, item, m[item].Keys - kept);
      assert Supported(m[item], cfg) == m[item].Keys;
      Sets.SubsetSize(kept, m[item].Keys);
      assert m[item].Keys - kept == {};
      CutNoEdge(m, item);
    }
  }

  lemma CutNoEdge(m: Matrix, item: Id)
    requires Clean(m)
    ensures Cut(m, item, {}) == m
  {
    assert forall a :: a in m ==> CutRow(m, item, {}, a) == m[a];
  }

  // ---------- Decay and negative signals ----------

  function Scale(x: real, alpha: real): real { x * alpha }

  function DecayRow(row: Row, alpha: real, threshold: real): Row {
    map b | b in row && Abs(Scale(row[b], alpha)) >= threshold :: Scale(row[b], alpha)
  }

  function Decay(m: Matrix, alpha: real, threshold: real): Matrix {
    map a | a in m && DecayRow(m[a], alpha, threshold) != map[] :: DecayRow(m[a], alpha, threshold)
  }

  lemma DecayAt(m: Matrix, alpha: real, threshold: real, a: Id, b: Id)
    ensures Has(Decay(m, alpha, threshold), a, b) <==> Has(m, a, b) && Abs(Scale(Score(m, a, b), alpha)) >= threshold
    ensures Has(Decay(m, alpha, threshold), a, b) ==> Score(Decay(m, alpha, threshold), a, b) == Scale(Score(m, a, b), alpha)
  {
    if Has(m, a, b) && Abs(Scale(m[a][b], alpha)) >= threshold { assert b in DecayRow(m[a], alpha, threshold); }
  }

  /** Decay scales every score alike, drops what falls below the threshold, and keeps the matrix sound. */
  lemma DecayKeeps(m: Matrix, alpha: real, threshold: real)
    requires Symmetric(m) && Clean(m)
    ensures var m' := Decay(m, alpha, threshold);
      && Symmetric(m') && Clean(m')
      && (forall a, b :: Has(m', a, b) <==> Has(m, a, b) && Abs(Scale(Score(m, a, b), alpha)) >= threshold)
      && (forall a, b :: Has(m', a, b) ==> Score(m', a, b) == Scale(Score(m, a, b), alpha))
  {
    var m' := Decay(m, alpha, threshold);
    forall a, b
      ensures Has(m', a, b) <==> Has(m, a, b) && Abs(Scale(Score(m, a, b), alpha)) >= threshold
      ensures Has(m', a, b) ==> Score(m', a, b) == Scale(Score(m, a, b), alpha)
    {
      DecayAt(m, alpha, threshold, a, b);
    }
    assert Clean(m');
    hide Decay, Abs, Clean;
    forall a, b | Has(m', a, b) ensures Has(m', b, a) && m'[a][b] == m'[b][a] {
      assert Score(m, a, b) == Score(m, b, a) && Score(m', a, b) == m'[a][b];
      assert Has(m', b, a) && Score(m', b, a) == m'[b][a];
    }
  }

  /** What one event of a deleted item's buffer takes off. */
  function Reduction(y: Event, weight: real): real {
    (y.score as real) * weight
  }

  function Dampen(m: Matrix, removed: Id, s: seq<Event>, weight: real): Matrix
    decreases |s|
  {
    if s == [] then m
    else
      var so, y := Dampen(m, removed, s[..|s| - 1], weight), s[|s| - 1];
      if y.id == removed then so else AddPair(so, removed, y.id, -Reduction(y, weight))
  }

  /** What all events of `s` about an item take off. */
  function TotalReduction(s: seq<Event>, id: Id, weight: real): real
    decreases |s|
  {
    if s == [] then 0.0
    else TotalReduction(s[..|s| - 1], id, weight) + (if s[|s| - 1].id == id then s[|s| - 1].score as real * weight else 0.0)
  }

  /** A deletion lowers its item's score with every other item by what that item's buffered events take off. */
  lemma {:induction false} DampenScore(m: Matrix, removed: Id, s: seq<Event>, weight: real)
    requires Symmetric(m) && Clean(m)
    ensures Symmetric(Dampen(m, removed, s, weight)) && Clean(Dampen(m, removed, s, weight))
    ensures forall b :: b != removed ==>
      Score(Dampen(m, removed, s, weight), removed, b) == Score(m, removed, b) - TotalReduction(s, b, weight)
    ensures forall a, b :: a != removed && b != removed ==> Score(Dampen(m, removed, s, weight), a, b) == Score(m, a, b)
    decreases |s|
  {
    hide Symmetric, Clean, Score, AddPair;
    if s != [] {
      var n := |s| - 1;
      DampenScore(m, removed, s[..n], weight);
      var so, y := Dampen(m, removed, s[..n], weight), s[n];
      if y.id != removed { AddPairKeeps(so, removed, y.id, -Reduction(y, weight)); }
    }
  }

  lemma SetAt(m: Matrix, a: Id, b: Id, w: real, c: Id, d: Id)
    ensures var m' := SetBoth(m, a, b, w);
      && (Has(m', c, d) <==> Has(m, c, d) || (c == a && d == b) || (c == b && d == a))
      && (Has(m', c, d) ==> m'[c][d] == if (c == a && d == b) || (c == b && d == a) then w else m[c][d])
  {
  }

  /** Setting a score keeps the matrix symmetric; it makes an item its own neighbour only if asked to. */
  lemma SetKeeps(m: Matrix, a: Id, b: Id, w: real)
    requires Symmetric(m) && Clean(m)
    ensures var m' := SetBoth(m, a, b, w); Symmetric(m') && (Clean(m') <==> a != b)
  {
    var m' := SetBoth(m, a, b, w);
    forall c, d | Has(m', c, d) ensures Has(m', d, c) && m'[c][d] == m'[d][c] {
      SetAt(m, a, b, w, c, d);
      SetAt(m, a, b, w, d, c);
    }
    SetClean(m, a, b, w);
  }

  lemma SetClean(m: Matrix, a: Id, b: Id, w: real)
    requires Clean(m)
    ensures Clean(SetBoth(m, a, b, w)) <==> a != b
  {
    var m' := SetBoth(m, a, b, w);
    SetAt(m, a, b, w, a, b);
    SetAt(m, a, b, w, b, a);
    hide SetBoth;
    forall c | c in m' && a != b ensures m'[c] != map[] && c !in m'[c] {
      SetAt(m, a, b, w, c, c);
      SetRows(m, a, b, w, c);
    }
  }

  lemma SetRows(m: Matrix, a: Id, b: Id, w: real, c: Id)
    requires Clean(m) && c in SetBoth(m, a, b, w)
    ensures SetBoth(m, a, b, w)[c] != map[]
  {
    var row := SetBoth(m, a, b, w)[c];
    if c == b { assert a in row; } else if c == a { assert b in row; }
  }

  function SetOne(m: Matrix, a: Id, b: Id, w: real): Matrix {
    m[a := (if a in m then m[a] else map[])[b := w]]
  }

  function SetBoth(m: Matrix, a: Id, b: Id, w: real): Matrix {
    SetOne(SetOne(m, a, b, w), b, a, w)
  }

  // ---------- One ingested event ----------

  ghost predicate Affected(items: seq<Id>, prior: seq<Event>, x: Event) {
    StringOrder.Ascending(items) && forall a :: a in items <==> a == x.id || exists i :: 0 <= i < |prior| && prior[i].id == a
  }

  predicate Limited(cfg: Config) { cfg.maxNeighbors > 0 || cfg.minSupport > 0.0 }

  /** An incremental update: the new pairs are added, then every touched item is pruned, in order of its id. */
  ghost predicate IsIngest(m: Matrix, m': Matrix, prior: seq<Event>, x: Event, t: Temporal, cfg: Config) {
    if prior == [] then m' == m
    else if !Limited(cfg) then m' == AddPairs(m, prior, x, t)
    else exists items :: Affected(items, prior, x) && PruneChain(AddPairs(m, prior, x, t), m', items, cfg)
  }

  lemma {:induction false} AddPairsRows(m: Matrix, s: seq<Event>, x: Event, t: Temporal, a: Id)
    requires Symmetric(m) && Clean(m)
    requires a != x.id && forall i :: 0 <= i < |s| ==> s[i].id != a
    ensures a in AddPairs(m, s, x, t) <==> a in m
    ensures a in m ==> AddPairs(m, s, x, t)[a] == m[a]
    decreases |s|
  {
    hide Symmetric, Clean, Weight, AddPair;
    if s != [] {
      var n := |s| - 1;
      AddPairsRows(m, s[..n], x, t, a);
      AddPairsScore(m, s[..n], x, t);
      var y := s[n];
      if x.id != y.id { AddPairKeeps(AddPairs(m, s[..n], x, t), x.id, y.id, Weight(x, y, t)); }
    }
  }

  /**
   Ingesting an event keeps the matrix symmetric and clean, gives every edge that stays its exact sum,
   and leaves every item within its limits if all were before.
   */
  lemma IngestKeeps(m: Matrix, m': Matrix, prior: seq<Event>, x: Event, t: Temporal, cfg: Config)
    requires Symmetric(m) && Clean(m) && IsIngest(m, m', prior, x, t, cfg)
    ensures Symmetric(m') && Clean(m')
    ensures forall a, b :: Has(m', a, b) ==> Score(m', a, b) == Score(m, a, b) + SumShare(prior, x, a, b, t)
    ensures !Limited(cfg) ==> forall a, b :: Score(m', a, b) == Score(m, a, b) + SumShare(prior, x, a, b, t)
    ensures (forall a :: Bounded(m, a, cfg)) ==> forall a :: Bounded(m', a, cfg)
  {
    hide Symmetric, Clean;
    if prior != [] {
      var added := AddPairs(m, prior, x, t);
      AddPairsScore(m, prior, x, t);
      if Limited(cfg) {
        var items :| Affected(items, prior, x) && PruneChain(added, m', items, cfg);
        PruneChainKeeps(added, m', items, cfg);
        forall a, b | Has(m', a, b) ensures Score(m', a, b) == Score(added, a, b) {}
        if forall a :: Bounded(m, a, cfg) {
          forall a ensures Bounded(m', a, cfg) {
            if a !in items {
              AddPairsRows(m, prior, x, t, a);
              assert Bounded(m, a, cfg);
              BoundedShrinks(added, m', a, cfg);
            }
          }
        }
      }
    }
  }

  // ---------- Pruning after a batch ----------

  /** Items pruned one after the other, each only if its row is longer than the neighbour limit at its turn. */
  ghost predicate OverfullChain(m: Matrix, m': Matrix, items: seq<Id>, cfg: Config)
    decreases |items|
  {
    if items == [] then m' == m
    else exists mid :: OverfullChain(m, mid, Front(items), cfg) && OverfullStep(mid, m', Last(items), cfg)
  }

  ghost predicate OverfullStep(m: Matrix, m': Matrix, item: Id, cfg: Config) {
    if item in m && |m[item]| > cfg.maxNeighbors then IsPrune(m, m', item, cfg) else m' == m
  }

  /** What a batch update brings an item to: the neighbour limit, or without one the support threshold. */
  ghost predicate Trimmed(m: Matrix, item: Id, cfg: Config) {
    item in m ==> if cfg.maxNeighbors > 0 then |m[item]| <= cfg.maxNeighbors else Bounded(m, item, cfg)
  }

  lemma TrimmedShrinks(m: Matrix, m': Matrix, item: Id, cfg: Config)
    requires Shrinks(m, m') && Trimmed(m, item, cfg)
    ensures Trimmed(m', item, cfg)
  {
    if item in m' { RowShrinks(m[item], m'[item]); }
  }

  lemma OverfullStepKeeps(m: Matrix, m': Matrix, item: Id, cfg: Config)
    requires Symmetric(m) && Clean(m) && OverfullStep(m, m', item, cfg)
    ensures Symmetric(m') && Clean(m') && Shrinks(m, m') && Trimmed(m', item, cfg)
    ensures forall a, b :: Has(m, a, b) && !Has(m', a, b) ==>
      (a == item || b == item) && item in m && |m[item]| > cfg.maxNeighbors
  {
    if item in m && |m[item]| > cfg.maxNeighbors {
      PruneKeeps(m, m', item, cfg);
    } else if item in m {
      assert m[item] != map[];
    }
  }

  /** An edge goes only with an end in the batch whose row was over the limit. */
  lemma {:induction false} OverfullChainKeeps(m: Matrix, m': Matrix, items: seq<Id>, cfg: Config)
    requires Symmetric(m) && Clean(m) && OverfullChain(m, m', items, cfg)
    ensures Symmetric(m') && Clean(m') && Shrinks(m, m') && forall x :: x in items ==> Trimmed(m', x, cfg)
    ensures forall a, b :: Has(m, a, b) && !Has(m', a, b) ==>
      exists x :: x in items && (a == x || b == x) && x in m && |m[x]| > cfg.maxNeighbors
    decreases |items|
  {
    hide Symmetric, Clean, Trimmed, OverfullStep;
    if items != [] {
      var init, last := Front(items), Last(items);
      assert items == init + [last];
      var mid :| OverfullChain(m, mid, init, cfg) && OverfullStep(mid, m', last, cfg);
      OverfullChainKeeps(m, mid, init, cfg);
      OverfullStepKeeps(mid, m', last, cfg);
      forall x | x in init ensures Trimmed(m', x, cfg) { TrimmedShrinks(mid, m', x, cfg); }
      forall a, b | Has(m, a, b) && !Has(m', a, b)
        ensures exists x :: x in items && (a == x || b == x) && x in m && |m[x]| > cfg.maxNeighbors
      {
        if Has(mid, a, b) { RowShrinks(m[last], mid[last]); }
      }
    }
  }

  function IdsOf(s: seq<Event>): seq<Id> { seq(|s|, i requires 0 <= i < |s| => s[i].id) }

  /** A batch update: all pairs are scored, then rows over the limit are pruned. */
  ghost predicate IsBatchUpdate(m: Matrix, m': Matrix, s: seq<Event>, t: Temporal, cfg: Config) {
    if Limited(cfg) then OverfullChain(Batch(m, s, t), m', IdsOf(s), cfg) else m' == Batch(m, s, t)
  }

  /**
   A batch update keeps the matrix sound, brings every item of the batch to the neighbour limit, and loses only edges
   at items that were over it; so if no item was, every edge stays, supported or not.
   */
  lemma BatchUpdateKeeps(m: Matrix, m': Matrix, s: seq<Event>, t: Temporal, cfg: Config)
    requires Symmetric(m) && Clean(m) && IsBatchUpdate(m, m', s, t, cfg)
    ensures Symmetric(m') && Clean(m') && Shrinks(Batch(m, s, t), m')
    ensures Limited(cfg) ==> forall i :: 0 <= i < |s| ==> Trimmed(m', s[i].id, cfg)
    ensures var all := Batch(m, s, t);
      (forall i :: 0 <= i < |s| && s[i].id in all ==> |all[s[i].id]| <= cfg.maxNeighbors) ==> forall a, b :: Has(all, a, b) <==> Has(m', a, b)
  {
    hide Symmetric, Clean, Trimmed, OverfullChain, Batch;
    var all, ids := Batch(m, s, t), IdsOf(s);
    BatchIsPairSum(m, s, t, "", "");
    if Limited(cfg) {
      OverfullChainKeeps(all, m', ids, cfg);
      forall i | 0 <= i < |s| ensures Trimmed(m', s[i].id, cfg) { assert ids[i] in ids; }
      if forall i :: 0 <= i < |s| && s[i].id in all ==> |all[s[i].id]| <= cfg.maxNeighbors {
        forall x | x in ids && x in all ensures |all[x]| <= cfg.maxNeighbors {
          var i :| 0 <= i < |ids| && ids[i] == x;
          assert s[i].id == x;
        }
      }
    }
  }

  /** Every edge of a batch item reaches the support threshold. */
  ghost predicate SupportedBatch(m': Matrix, s: seq<Event>, cfg: Config) {
    forall i, b :: 0 <= i < |s| && Has(m', s[i].id, b) ==> Abs(m'[s[i].id][b]) >= cfg.minSupport
  }

  /**
   Batch updates enforce a support threshold, as the comment on them has it, exactly when there is no neighbour limit:
   with one, a batch of two events leaves an edge as weak as their distance in time makes it.
   */
  lemma ThresholdNeedsNoLimit(cfg: Config)
    requires cfg.minSupport > 0.0
    ensures (forall m, m', s, t :: Symmetric(m) && Clean(m) && IsBatchUpdate(m, m', s, t, cfg) ==> SupportedBatch(m', s, cfg))
      <==> cfg.maxNeighbors == 0
  {
    hide IsBatchUpdate;
    if cfg.maxNeighbors == 0 {
      forall m, m', s, t | Symmetric(m) && Clean(m) && IsBatchUpdate(m, m', s, t, cfg) ensures SupportedBatch(m', s, cfg) {
        BatchUpdateKeeps(m, m', s, t, cfg);
      }
    } else {
      var m', s, t := WeakPair(cfg);
      assert IsBatchUpdate(map[], m', s, t, cfg) && !SupportedBatch(m', s, cfg);
    }
  }

  /** Two events so far apart in time that their pair is below the threshold; the pair stays. */
  lemma WeakPair(cfg: Config) returns (m': Matrix, s: seq<Event>, t: Temporal)
    requires cfg.minSupport > 0.0 && cfg.maxNeighbors > 0
    ensures |s| == 2 && IsBatchUpdate(map[], m', s, t, cfg) && Symmetric(map[]) && Clean(map[])
    ensures Has(m', s[0].id, s[1].id) && 0.0 < m'[s[0].id][s[1].id] < cfg.minSupport && !SupportedBatch(m', s, cfg)
  {
    hide OverfullChain, Batch;
    var weak := cfg.minSupport / 2.0;
    var x, y := Event("a", 1, 0, ADD), Event("b", 1, 1, ADD);
    s, t := [x, y], HalfLife(age => if age == 0 then 1.0 else weak);
    assert Weight(x, y, t) == weak;
    m' := map["a" := map["b" := weak], "b" := map["a" := weak]];
    PairOfTwo(x, y, t);
    assert IdsOf(s) == ["a", "b"];
    PairUntrimmed(m', cfg);
    assert Has(m', s[0].id, s[1].id);
  }

  lemma PairUntrimmed(m: Matrix, cfg: Config)
    requires cfg.maxNeighbors > 0 && forall a :: a in m ==> |m[a]| == 1
    ensures OverfullChain(m, m, ["a", "b"], cfg)
  {
    assert Front(["a", "b"]) == ["a"] && Front(["a"]) == [] && Last(["a", "b"]) == "b" && Last(["a"]) == "a";
    assert OverfullChain(m, m, [], cfg) && OverfullStep(m, m, "a", cfg) && OverfullStep(m, m, "b", cfg);
    assert OverfullChain(m, m, ["a"], cfg);
  }

  lemma PairOfTwo(x: Event, y: Event, t: Temporal)
    requires x.id == "a" && y.id == "b" && Weight(x, y, t) != 0.0
    ensures var w := Weight(x, y, t); Batch(map[], [x, y], t) == map["a" := map["b" := w], "b" := map["a" := w]]
  {
    WeightIsSymmetric(x, y, t);
    assert [x, y][1..] == [y] && [y][1..] == [] && [y][..0] == [];
    var w := Weight(x, y, t);
    var one: Matrix := map["a" := map["b" := w], "b" := map["a" := w]];
    assert AddPairs(map[], [], x, t) == map[];
    assert AddPair(map[], "a", "b", w) == one;
    assert AddPairs(map[], [y], x, t) == one;
    assert AddPairs(one, [], y, t) == one;
    assert Batch(one, [y], t) == Batch(one, [y][1..], t) == one;
  }

  lemma NoBatch(m: Matrix, t: Temporal, cfg: Config)
    ensures IsBatchUpdate(m, m, [], t, cfg)
  {
  }

  // ---------- What the server does to the index ----------

  datatype IngestOptions = IngestOptions(temporal: Temporal, negativeSignals: bool, negativeWeight: real)

  /** A deletion is also a negative signal, if those are enabled. */
  function Signalled(m: Matrix, prior: seq<Event>, x: Event, options: IngestOptions, cfg: Config): Matrix {
    if options.negativeSignals && x.kind == DEL && cfg.negativeMaxPropagation != 0
    then Dampen(m, x.id, prior, options.negativeWeight) else m
  }

  /** Decay by a factor; factors outside 0 to 1 are ignored. */
  function Decayed(m: Matrix, alpha: real, cfg: Config): Matrix {
    if alpha < 0.0 || alpha > 1.0 then m
    else if alpha == 0.0 then map[]
    else Decay(m, alpha, if cfg.minSupport > 0.0 then cfg.minSupport else DECAY_THRESHOLD)
  }

  /** In numbers: a decay multiplies every score, and drops those that end up within the threshold of zero. */
  lemma DecayedScores(m: Matrix, alpha: real, cfg: Config, a: Id, b: Id)
    requires 0.0 < alpha <= 1.0
    ensures var threshold := if cfg.minSupport > 0.0 then cfg.minSupport else 0.000001;
      var after, scaled := Decayed(m, alpha, cfg), Score(m, a, b) * alpha;
      && (Has(after, a, b) <==> Has(m, a, b) && (scaled >= threshold || -scaled >= threshold))
      && (Has(after, a, b) ==> Score(after, a, b) == scaled)
  {
    hide Decay;
    DecayAt(m, alpha, if cfg.minSupport > 0.0 then cfg.minSupport else DECAY_THRESHOLD, a, b);
  }

  /** In numbers: no more neighbours than allowed, and no score within the support threshold of zero. */
  lemma BoundedScores(m: Matrix, item: Id, cfg: Config)
    requires item in m
    ensures Bounded(m, item, cfg) <==>
      && (cfg.maxNeighbors == 0 || |m[item]| <= cfg.maxNeighbors)
      && (cfg.minSupport <= 0.0 || forall b :: b in m[item] ==> m[item][b] >= cfg.minSupport || -m[item][b] >= cfg.minSupport)
  {
  }

  // ---------- Streaming against batch ----------

  /** Unpruned streaming ingestion over all contexts, each with a buffer of `capacity` events. */
  function Stream(history: seq<Arrival>, capacity: nat, t: Temporal): Matrix
    decreases |history|
  {
    if history == [] then map[]
    else
      var init, x := history[..|history| - 1], history[|history| - 1];
      AddPairs(Stream(init, capacity, t), LastN(InContext(init, x.ctx), capacity), x.ev, t)
  }

  /** Every score is the sum over pairs of stored events of one context at most `capacity` apart, each counted once. */
  lemma {:induction false} StreamIsWindowSum(history: seq<Arrival>, capacity: nat, t: Temporal)
    ensures Symmetric(Stream(history, capacity, t)) && Clean(Stream(history, capacity, t))
    ensures forall a, b :: Score(Stream(history, capacity, t), a, b) == WindowSum(history, capacity, a, b, t)
    decreases |history|
  {
    if history != [] {
      hide Symmetric, Clean, Score;
      var init, x := history[..|history| - 1], history[|history| - 1];
      StreamIsWindowSum(init, capacity, t);
      AddPairsScore(Stream(init, capacity, t), LastN(InContext(init, x.ctx), capacity), x.ev, t);
      forall a, b ensures Score(Stream(history, capacity, t), a, b) == WindowSum(history, capacity, a, b, t) {
        BufferIsWindow(init, x, capacity, a, b, t);
      }
    }
  }

  /** A batch rebuild pairs each event with all later ones. */
  function Batch(m: Matrix, s: seq<Event>, t: Temporal): Matrix
    decreases |s|
  {
    if s == [] then m else Batch(AddPairs(m, s[1..], s[0], t), s[1..], t)
  }

  /** A batch rebuild adds the pair sum, hence does not depend on the order of its events. */
  lemma {:induction false} BatchIsPairSum(m: Matrix, s: seq<Event>, t: Temporal, a: Id, b: Id)
    requires Symmetric(m) && Clean(m)
    ensures Symmetric(Batch(m, s, t)) && Clean(Batch(m, s, t))
    ensures Score(Batch(m, s, t), a, b) == Score(m, a, b) + PairSum(s, a, b, t)
    decreases |s|
  {
    hide Symmetric, Clean, Score, SumShare, PairSum, AddPairs, Batch;
    BatchStep(m, s, t, a, b);
    if s != [] { BatchIsPairSum(AddPairs(m, s[1..], s[0], t), s[1..], t, a, b); }
  }

  lemma BatchStep(m: Matrix, s: seq<Event>, t: Temporal, a: Id, b: Id)
    requires Symmetric(m) && Clean(m)
    ensures s == [] ==> Batch(m, s, t) == m && PairSum(s, a, b, t) == 0.0
    ensures s != [] ==>
      var m' := AddPairs(m, s[1..], s[0], t);
      && Batch(m, s, t) == Batch(m', s[1..], t) && Symmetric(m') && Clean(m')
      && Score(m', a, b) == Score(m, a, b) + SumShare(s[1..], s[0], a, b, t)
      && PairSum(s, a, b, t) == PairSum(s[1..], a, b, t) + SumShare(s[1..], s[0], a, b, t)
  {
    hide Symmetric, Clean, Score, SumShare, AddPairs;
    if s != [] {
      hide PairSum;
      AddPairsScore(m, s[1..], s[0], t);
      PairSumRemove(s, 0, a, b, t);
      assert s[..0] + s[0 + 1..] == s[1..];
    }
  }

  lemma BatchOrderIrrelevant(m: Matrix, s: seq<Event>, r: seq<Event>, t: Temporal)
    requires Symmetric(m) && Clean(m) && multiset(s) == multiset(r)
    ensures forall a, b :: Score(Batch(m, s, t), a, b) == Score(Batch(m, r, t), a, b)
  {
    forall a, b ensures Score(Batch(m, s, t), a, b) == Score(Batch(m, r, t), a, b) {
      BatchIsPairSum(m, s, t, a, b);
      BatchIsPairSum(m, r, t, a, b);
      PairSumPermutation(s, r, a, b, t);
    }
  }

  /** Up to one event more than the buffer holds, streaming a context equals rebuilding it in any order. */
  lemma StreamEqualsBatch(history: seq<Arrival>, ctx: string, capacity: nat, r: seq<Event>, t: Temporal)
    requires forall i :: 0 <= i < |history| ==> history[i].ctx == ctx
    requires |history| <= capacity + 1
    requires multiset(r) == multiset(InContext(history, ctx))
    ensures forall a, b :: Score(Stream(history, capacity, t), a, b) == Score(Batch(map[], r, t), a, b)
  {
    StreamIsWindowSum(history, capacity, t);
    forall a, b ensures Score(Stream(history, capacity, t), a, b) == Score(Batch(map[], r, t), a, b) {
      BatchIsPairSum(map[], r, t, a, b);
      WindowSumOneContext(history, ctx, capacity, a, b, t);
      PairSumPermutation(r, InContext(history, ctx), a, b, t);
    }
  }

  // ---------- The index ----------

  /** `Cut` before the row of the item itself is dropped when empty. */
  function CutSoFar(m: Matrix, item: Id, drop: set<Id>): Matrix {
    map a | a in m && (a == item || CutRow(m, item, drop, a) != map[]) :: CutRow(m, item, drop, a)
  }

  lemma CutNothing(m: Matrix, item: Id)
    requires Clean(m)
    ensures CutSoFar(m, item, {}) == m
  {
    assert forall a :: a in m ==> CutRow(m, item, {}, a) == m[a] != map[];
  }

  /** `CutSoFar` row by row. */
  lemma CutSoFarAt(m: Matrix, item: Id, drop: set<Id>, a: Id)
    ensures a in CutSoFar(m, item, drop) <==> a in m && (a == item || CutRow(m, item, drop, a) != map[])
    ensures a in CutSoFar(m, item, drop) ==> CutSoFar(m, item, drop)[a] == CutRow(m, item, drop, a)
  {
  }

  function EraseFrom(m: Matrix, item: Id, b: Id): Matrix {
    if b !in m then m else if m[b] - {item} == map[] then m - {b} else m[b := m[b] - {item}]
  }

  lemma CutOneMore(m: Matrix, item: Id, drop: set<Id>, b: Id)
    requires Clean(m) && item in m && b in m[item] && b !in drop
    ensures var so := CutSoFar(m, item, drop);
      && item in EraseFrom(so, item, b)
      && CutSoFar(m, item, drop + {b}) == EraseFrom(so, item, b)[item := EraseFrom(so, item, b)[item] - {b}]
  {
    var so, next := CutSoFar(m, item, drop), CutSoFar(m, item, drop + {b});
    assert b != item;
    assert CutRow(m, item, drop + {b}, item) == CutRow(m, item, drop, item) - {b};
    if b in m { assert CutRow(m, item, drop, b) == m[b] && CutRow(m, item, drop + {b}, b) == m[b] - {item}; }
    forall a | a in m && a != item && a != b
      ensures CutRow(m, item, drop + {b}, a) == CutRow(m, item, drop, a)
    {
    }
    SameMatrix(m, item, drop, b, so, next);
  }

  lemma SameMatrix(m: Matrix, item: Id, drop: set<Id>, b: Id, so: Matrix, next: Matrix)
    requires item in m && b != item
    requires so == CutSoFar(m, item, drop) && next == CutSoFar(m, item, drop + {b})
    requires CutRow(m, item, drop + {b}, item) == CutRow(m, item, drop, item) - {b}
    requires b in m ==> CutRow(m, item, drop, b) != map[] && CutRow(m, item, drop + {b}, b) == CutRow(m, item, drop, b) - {item}
    requires forall a :: a in m && a != item && a != b ==> CutRow(m, item, drop + {b}, a) == CutRow(m, item, drop, a)
    ensures item in EraseFrom(so, item, b) && next == EraseFrom(so, item, b)[item := EraseFrom(so, item, b)[item] - {b}]
  {
    hide CutRow;
    forall a | a != item && a != b
      ensures a in next <==> a in so
      ensures a in so ==> next[a] == so[a]
    {
    }
    assert item in so && item in next && next[item] == so[item] - {b};
    assert b in next <==> b in so && so[b] - {item} != map[];
    assert b in next ==> next[b] == so[b] - {item};
    hide CutSoFar;
    UpdatedMatrix(so, next, item, b);
  }

  lemma UpdatedMatrix(so: Matrix, next: Matrix, item: Id, b: Id)
    requires item != b && item in so && item in next && next[item] == so[item] - {b}
    requires b in next <==> b in so && so[b] - {item} != map[]
    requires b in next ==> next[b] == so[b] - {item}
    requires forall a :: a != item && a != b ==> (a in next ==> a in so) && (a in so ==> a in next && next[a] == so[a])
    ensures item in EraseFrom(so, item, b) && next == EraseFrom(so, item, b)[item := EraseFrom(so, item, b)[item] - {b}]
  {
  }

  class CoOccurrenceIndex {
    const cfg: Config
    var scores: Matrix
    var generation: nat

    ghost predicate Valid()
      reads this
    {
      Symmetric(scores) && Clean(scores)
    }

    constructor (cfg: Config)
      ensures this.cfg == cfg && scores == map[] && generation == 0 && Valid()
    {
      this.cfg := cfg;
      scores, generation := map[], 0;
    }

    /** Erases one edge from both rows; the row of `item` stays even if it becomes empty. */
    method EraseEdge(item: Id, b: Id, ghost m: Matrix, ghost drop: set<Id>)
      requires Clean(m) && item in m && b in m[item] && b !in drop && scores == CutSoFar(m, item, drop)
      modifies `scores
      ensures scores == CutSoFar(m, item, drop + {b})
    {
      hide CutSoFar;
      CutOneMore(m, item, drop, b);
      if b in scores {
        var reverse := scores[b] - {item};
        scores := if reverse == map[] then scores - {b} else scores[b := reverse];
      }
      assert scores == EraseFrom(old(scores), item, b);
      scores := scores[item := scores[item] - {b}];
    }

    /** Removes the edges below the support threshold, then the weakest beyond the neighbour limit. */
    method PruneItem(item: Id)
      requires Valid()
      modifies `scores
      ensures IsPrune(old(scores), scores, item, cfg)
    {
      hide Symmetric, CutSoFar, Cut, Abs;
      if item !in scores { return; }
      ghost var m := scores;
      var row := scores[item];
      DropUnsupported(item);
      CutSoFarAt(m, item, row.Keys - Supported(row, cfg), item);
      ghost var kept := Supported(row, cfg);
      assert scores[item].Keys == kept;
      if cfg.maxNeighbors > 0 && |scores[item]| > cfg.maxNeighbors {
        assert |scores[item]| == |scores[item].Keys|;
        var sorted := SortByMagnitude(scores[item]);
        kept := set i | 0 <= i < cfg.maxNeighbors :: sorted[i];
        TrimTo(item, sorted, m, row.Keys - Supported(row, cfg));
        KeptIsTop(row, sorted, cfg);
      } else {
        AllKept(row, cfg);
      }
      CutFinishes(m, item, row.Keys - kept);
      if scores[item] == map[] { scores := scores - {item}; }
      assert Keeps(m[item], kept, cfg);
    }

    /** The first loop of a prune. */
    method DropUnsupported(item: Id)
      requires Clean(scores) && item in scores
      modifies `scores
      ensures var row := old(scores)[item]; scores == CutSoFar(old(scores), item, row.Keys - Supported(row, cfg))
    {
      hide CutSoFar, Clean, Abs;
      ghost var m := scores;
      var row := scores[item];
      CutNothing(m, item);
      if cfg.minSupport > 0.0 {
        var todo := row.Keys;
        ghost var drop: set<Id> := {};
        while todo != {}
          invariant todo <= row.Keys && drop == row.Keys - todo - Supported(row, cfg)
          invariant scores == CutSoFar(m, item, drop)
        {
          var b :| b in todo;
          if Abs(row[b]) < cfg.minSupport {
            EraseEdge(item, b, m, drop);
            drop := drop + {b};
          }
          todo := todo - {b};
        }
        assert drop == row.Keys - Supported(row, cfg);
      } else {
        assert row.Keys - Supported(row, cfg) == {};
      }
    }

    /** The second loop of a prune: erases what comes after the limit in the sorted neighbours. */
    method TrimTo(item: Id, sorted: seq<Id>, ghost m: Matrix, ghost unsupported: set<Id>)
      requires Clean(m) && item in m && scores == CutSoFar(m, item, unsupported) && cfg.maxNeighbors <= |sorted|
      requires forall i, j :: 0 <= i < j < |sorted| ==> sorted[i] != sorted[j]
      requires forall i :: 0 <= i < |sorted| ==> sorted[i] in m[item] && sorted[i] !in unsupported
      modifies `scores
      ensures scores == CutSoFar(m, item, unsupported + (set j | cfg.maxNeighbors <= j < |sorted| :: sorted[j]))
    {
      hide CutSoFar, Clean;
      ghost var drop := unsupported;
      for i := cfg.maxNeighbors to |sorted|
        invariant drop == unsupported + (set j | cfg.maxNeighbors <= j < i :: sorted[j])
        invariant scores == CutSoFar(m, item, drop)
      {
        EraseEdge(item, sorted[i], m, drop);
        drop := drop + {sorted[i]};
      }
    }

    /** Adds the pairs of a new event, bumps the generation, and prunes every touched item. */
    method AddEventIncremental(prior: seq<Event>, x: Event, t: Temporal)
      requires Valid()
      modifies this
      ensures Valid() && IsIngest(old(scores), scores, prior, x, t, cfg)
      ensures generation == old(generation) + (if prior == [] then 0 else 1)
    {
      hide Symmetric, Clean, IsPrune, Weight;
      if prior == [] { return; }
      ghost var m := scores;
      for i := 0 to |prior|
        invariant scores == AddPairs(m, prior[..i], x, t) && generation == old(generation)
      {
        assert prior[..i + 1][..i] == prior[..i];
        var y := prior[i];
        if y.id != x.id {
          var w := Weight(x, y, t);
          if w != 0.0 { scores := AddPair(scores, x.id, y.id, w); }
        }
      }
      assert prior[..|prior|] == prior;
      AddPairsScore(m, prior, x, t);
      generation := generation + 1;
      if cfg.maxNeighbors > 0 || cfg.minSupport > 0.0 {
        var ids := [x.id] + seq(|prior|, i requires 0 <= i < |prior| => prior[i].id);
        var items := StringOrder.SortUnique(ids);
        AffectedIds(items, ids, prior, x);
        PruneItems(items);
      }
    }

    method PruneItems(items: seq<Id>)
      requires Valid()
      modifies `scores
      ensures Valid() && PruneChain(old(scores), scores, items, cfg)
    {
      hide Symmetric, Clean, IsPrune;
      ghost var m := scores;
      for i := 0 to |items|
        invariant Valid() && PruneChain(m, scores, items[..i], cfg)
      {
        ghost var before := scores;
        PruneItem(items[i]);
        PruneKeeps(before, scores, items[i], cfg);
        assert Front(items[..i + 1]) == items[..i] && Last(items[..i + 1]) == items[i];
      }
      assert items[..|items|] == items;
    }

    /** The inner loop of a batch update: all pairs of event `i` with later ones. */
    method ScorePairs(s: seq<Event>, i: nat, t: Temporal)
      requires i < |s|
      modifies `scores
      ensures scores == AddPairs(old(scores), s[i + 1..], s[i], t)
    {
      hide Weight, AddPair, AddPairs;
      NoPairs(scores, s[i], t);
      assert s[i + 1..i + 1] == [];
      var j := i + 1;
      while j < |s|
        invariant i < j <= |s|
        invariant scores == AddPairs(old(scores), s[i + 1..j], s[i], t)
      {
        OneMorePair(old(scores), s, i, j, t);
        if s[i].id != s[j].id {
          var w := Weight(s[i], s[j], t);
          if w != 0.0 { scores := AddPair(scores, s[i].id, s[j].id, w); }
        }
        j := j + 1;
      }
      assert s[i + 1..|s|] == s[i + 1..];
    }

    /** Scores every pair of a batch, each once; rows over the limit are pruned. */
    method UpdateFromEvents(s: seq<Event>, t: Temporal)
      requires Valid()
      modifies this
      ensures Valid() && generation == old(generation) + (if s == [] then 0 else 1)
      ensures IsBatchUpdate(old(scores), scores, s, t, cfg)
    {
      hide Symmetric, Clean, IsPrune, Weight, Bounded, AddPairs, OverfullChain;
      if s == [] {
        NoBatch(scores, t, cfg);
        return;
      }
      ghost var m := scores;
      var i := 0;
      while i < |s|
        invariant 0 <= i <= |s| && Valid() && generation == old(generation)
        invariant Batch(scores, s[i..], t) == Batch(m, s, t)
      {
        assert s[i..][1..] == s[i + 1..];
        AddPairsScore(scores, s[i + 1..], s[i], t);
        ScorePairs(s, i, t);
        i := i + 1;
      }
      generation := generation + 1;
      ghost var all := scores;
      if cfg.maxNeighbors > 0 || cfg.minSupport > 0.0 { PruneOverfull(s); }
    }

    /** After a batch, rows longer than the neighbour limit are pruned; others are left as they are. */
    method PruneOverfull(s: seq<Event>)
      requires Valid()
      modifies `scores
      ensures Valid() && OverfullChain(old(scores), scores, IdsOf(s), cfg)
    {
      hide Symmetric, Clean, IsPrune, Bounded;
      ghost var all := scores;
      for k := 0 to |s|
        invariant Valid() && OverfullChain(all, scores, IdsOf(s)[..k], cfg)
      {
        ghost var before := scores;
        if s[k].id in scores && |scores[s[k].id]| > cfg.maxNeighbors {
          PruneItem(s[k].id);
          PruneKeeps(before, scores, s[k].id, cfg);
        }
        ghost var items := IdsOf(s)[..k + 1];
        assert Front(items) == IdsOf(s)[..k] && Last(items) == s[k].id;
        assert OverfullChain(all, before, Front(items), cfg) && OverfullStep(before, scores, Last(items), cfg);
      }
      assert IdsOf(s)[..|s|] == IdsOf(s);
    }

    /** Lowers the scores of a deleted item with the items its context still holds. */
    method ApplyNegativeSignal(removed: Id, s: seq<Event>, weight: real)
      requires Valid()
      modifies this
      ensures Valid()
      ensures cfg.negativeMaxPropagation == 0 ==> unchanged(this)
      ensures cfg.negativeMaxPropagation != 0 ==>
        scores == Dampen(old(scores), removed, s, weight) && generation == old(generation) + 1
    {
      hide Symmetric, Clean, Reduction;
      if cfg.negativeMaxPropagation == 0 { return; }
      for i := 0 to |s|
        invariant scores == Dampen(old(scores), removed, s[..i], weight) && generation == old(generation)
      {
        assert s[..i + 1][..i] == s[..i];
        if s[i].id != removed { scores := AddPair(scores, removed, s[i].id, -Reduction(s[i], weight)); }
      }
      assert s[..|s|] == s;
      DampenScore(old(scores), removed, s, weight);
      generation := generation + 1;
    }

    /** An event as it comes from ingestion: its pairs, and for a deletion the negative signal. */
    method ApplyIngestedEvent(prior: seq<Event>, x: Event, options: IngestOptions)
      requires Valid()
      modifies this
      ensures Valid()
      ensures exists mid :: IsIngest(old(scores), mid, prior, x, options.temporal, cfg) && scores == Signalled(mid, prior, x, options, cfg)
      ensures !Limited(cfg) ==> scores == Signalled(AddPairs(old(scores), prior, x, options.temporal), prior, x, options, cfg)
    {
      hide Symmetric, Clean, IsPrune, Weight, PruneChain;
      AddEventIncremental(prior, x, options.temporal);
      ghost var mid := scores;
      assert IsIngest(old(scores), mid, prior, x, options.temporal, cfg);
      if options.negativeSignals && x.kind == DEL { ApplyNegativeSignal(x.id, prior, options.negativeWeight); }
    }

    /** Multiplies every score by alpha, dropping what becomes negligible or unsupported. */
    method ApplyDecay(alpha: real)
      requires Valid()
      modifies this
      ensures Valid()
      ensures alpha < 0.0 || alpha > 1.0 || (alpha == 0.0 && old(scores) == map[]) ==> unchanged(this)
      ensures scores == Decayed(old(scores), alpha, cfg)
      ensures 0.0 < alpha <= 1.0 || (alpha == 0.0 && old(scores) != map[]) ==> generation == old(generation) + 1
    {
      if alpha < 0.0 || alpha > 1.0 { return; }
      if alpha == 0.0 {
        if scores != map[] {
          scores := map[];
          generation := generation + 1;
        }
        return;
      }
      var threshold := if cfg.minSupport > 0.0 then cfg.minSupport else DECAY_THRESHOLD;
      ghost var m := scores;
      DecayKeeps(m, alpha, threshold);
      var outer := scores.Keys;
      assert DecayedOutside(m, outer, alpha, threshold) == m;
      while outer != {}
        invariant outer <= m.Keys && generation == old(generation)
        invariant scores == DecayedOutside(m, outer, alpha, threshold)
      {
        hide Decay, DecayRow, Abs, Symmetric, Clean;
        var a :| a in outer;
        var row := ScaleRow(scores[a], alpha, threshold);
        DecayOneMore(m, outer, alpha, threshold, a);
        scores := if row == map[] then scores - {a} else scores[a := row];
        outer := outer - {a};
      }
      assert scores == Decay(m, alpha, threshold);
      generation := generation + 1;
    }

    /** The inner loop of a decay: scales one row and erases what falls below the threshold. */
    method ScaleRow(start: Row, alpha: real, threshold: real) returns (row: Row)
      ensures row == DecayRow(start, alpha, threshold)
    {
      hide Abs, Scale;
      row := start;
      var inner := row.Keys;
      while inner != {}
        invariant inner <= start.Keys
        invariant forall b :: b in row ==> b in start && (b in inner || Abs(Scale(start[b], alpha)) >= threshold)
        invariant forall b :: b in start && (b in inner || Abs(Scale(start[b], alpha)) >= threshold) ==> b in row
        invariant forall b :: b in row ==> row[b] == if b in inner then start[b] else Scale(start[b], alpha)
      {
        var b :| b in inner;
        var scaled := Scale(row[b], alpha);
        row := if Abs(scaled) < threshold then row - {b} else row[b := scaled];
        inner := inner - {b};
      }
    }

    /** Prunes every item there is; afterwards all are within their limits. */
    method Prune()
      requires Valid()
      modifies this
      ensures Valid() && generation == old(generation) + 1
      ensures forall a :: Bounded(scores, a, cfg)
      ensures exists items :: PruneChain(old(scores), scores, items, cfg)
    {
      hide Symmetric, Clean, IsPrune;
      ghost var m := scores;
      var items: seq<Id> := [];
      var todo := scores.Keys;
      while todo != {}
        invariant forall a :: a in m <==> a in items || a in todo
      {
        var a :| a in todo;
        items := items + [a];
        todo := todo - {a};
      }
      PruneItems(items);
      PruneChainKeeps(m, scores, items, cfg);
      generation := generation + 1;
      assert forall a :: a in scores ==> a in items;
    }

    /** Restores a score in both directions. */
    method SetScore(a: Id, b: Id, w: real)
      modifies this
      ensures scores == SetBoth(old(scores), a, b, w) && generation == old(generation) + 1
      ensures old(Valid()) ==> Symmetric(scores) && (Valid() <==> a != b)
    {
      if Symmetric(scores) && Clean(scores) { SetKeeps(scores, a, b, w); }
      scores := SetOne(scores, a, b, w);
      scores := SetOne(scores, b, a, w);
      generation := generation + 1;
    }

    /** Exchanges contents and generations with another index. */
    method SwapState(other: CoOccurrenceIndex)
      modifies this, other
      ensures scores == old(other.scores) && generation == old(other.generation)
      ensures other.scores == old(scores) && other.generation == old(generation)
    {
      if other == this { return; }
      scores, other.scores := other.scores, scores;
      generation, other.generation := other.generation, generation;
    }
  }

  lemma NoPairs(m: Matrix, x: Event, t: Temporal)
    ensures AddPairs(m, [], x, t) == m
  {
  }

  lemma OneMorePair(m: Matrix, s: seq<Event>, i: nat, j: nat, t: Temporal)
    requires i < j < |s|
    ensures AddPairs(m, s[i + 1..j + 1], s[i], t) == AddWeighted(AddPairs(m, s[i + 1..j], s[i], t), s[i], s[j], t)
  {
    hide AddWeighted;
    var more := s[i + 1..j + 1];
    assert more[..|more| - 1] == s[i + 1..j] && more[|more| - 1] == s[j];
  }

  function DecayedOutside(m: Matrix, outer: set<Id>, alpha: real, threshold: real): Matrix {
    map a | a in m && (a in outer || DecayRow(m[a], alpha, threshold) != map[])
      :: if a in outer then m[a] else DecayRow(m[a], alpha, threshold)
  }

  lemma DecayOneMore(m: Matrix, outer: set<Id>, alpha: real, threshold: real, a: Id)
    requires outer <= m.Keys && a in outer
    ensures var so, row := DecayedOutside(m, outer, alpha, threshold), DecayRow(m[a], alpha, threshold);
      && a in so && so[a] == m[a]
      && DecayedOutside(m, outer - {a}, alpha, threshold) == if row == map[] then so - {a} else so[a := row]
  {
    hide DecayRow;
  }

  lemma AffectedIds(items: seq<Id>, ids: seq<Id>, prior: seq<Event>, x: Event)
    requires StringOrder.Ascending(items) && forall a :: a in items <==> a in ids
    requires |ids| == |prior| + 1 && ids[0] == x.id && forall i :: 0 <= i < |prior| ==> ids[i + 1] == prior[i].id
    ensures Affected(items, prior, x)
  {
    forall a ensures a in items <==> a == x.id || exists i :: 0 <= i < |prior| && prior[i].id == a {
      if a in ids {
        var k :| 0 <= k < |ids| && ids[k] == a;
        if k > 0 { assert prior[k - 1].id == a; }
      }
      if exists i :: 0 <= i < |prior| && prior[i].id == a {
        var i :| 0 <= i < |prior| && prior[i].id == a;
        assert ids[i + 1] == a;
      }
      assert ids[0] in ids;
    }
  }

  ghost predicate ByMagnitude(row: Row, sorted: seq<Id>) {
    && (forall b :: b in sorted ==> b in row)
    && (forall i, j :: 0 <= i < j < |sorted| ==> sorted[i] != sorted[j] && Abs(row[sorted[i]]) >= Abs(row[sorted[j]]))
  }

  /** The neighbours of a row, strongest first; equal magnitudes in any order. */
  method SortByMagnitude(row: Row) returns (sorted: seq<Id>)
    ensures (forall b :: b in sorted <==> b in row) && ByMagnitude(row, sorted) && |sorted| == |row|
  {
    sorted := [];
    var rest := row.Keys;
    while rest != {}
      invariant rest <= row.Keys && ByMagnitude(row, sorted)
      invariant forall b :: b in row <==> b in sorted || b in rest
      invariant forall b, c :: b in sorted && c in rest ==> b != c && Abs(row[b]) >= Abs(row[c])
    {
      var best :| best in rest;
      var others := rest - {best};
      while others != {}
        invariant others <= rest && best in rest && best !in others
        invariant forall c :: c in rest - others ==> Abs(row[best]) >= Abs(row[c])
      {
        var c :| c in others;
        others := others - {c};
        if Abs(row[c]) > Abs(row[best]) { best := c; }
      }
      sorted := sorted + [best];
      rest := rest - {best};
    }
    PrefixCount(sorted, |sorted|);
    assert (set i | 0 <= i < |sorted| :: sorted[i]) == row.Keys;
  }

  /** Dropping the item's own row, if it has become empty, completes a cut. */
  lemma CutFinishes(m: Matrix, item: Id, drop: set<Id>)
    requires item in m
    ensures var so := CutSoFar(m, item, drop);
      item in so && Cut(m, item, drop) == if so[item] == map[] then so - {item} else so
  {
  }

  lemma AllKept(row: Row, cfg: Config)
    requires cfg.maxNeighbors == 0 || |Supported(row, cfg)| <= cfg.maxNeighbors
    ensures Keeps(row, Supported(row, cfg), cfg)
  {
  }

  /** The first entries of the sorted supported neighbours are what may be kept. */
  lemma KeptIsTop(row: Row, sorted: seq<Id>, cfg: Config)
    requires ByMagnitude(row, sorted) && 0 < cfg.maxNeighbors < |Supported(row, cfg)|
    requires forall b :: b in sorted <==> b in Supported(row, cfg)
    ensures |sorted| == |Supported(row, cfg)|
    ensures var kept := set i | 0 <= i < cfg.maxNeighbors :: sorted[i];
      && Keeps(row, kept, cfg)
      && row.Keys - Supported(row, cfg) + (set j | cfg.maxNeighbors <= j < |sorted| :: sorted[j]) == row.Keys - kept
  {
    PrefixCount(sorted, |sorted|);
    assert (set i | 0 <= i < |sorted| :: sorted[i]) == Supported(row, cfg);
    PrefixCount(sorted, cfg.maxNeighbors);
    var kept := set i | 0 <= i < cfg.maxNeighbors :: sorted[i];
    assert forall i :: 0 <= i < cfg.maxNeighbors ==> sorted[i] in kept;
    forall b | b in Supported(row, cfg) - kept ensures exists j :: cfg.maxNeighbors <= j < |sorted| && sorted[j] == b {
      var j :| 0 <= j < |sorted| && sorted[j] == b;
    }
  }

  lemma {:induction false} PrefixCount(s: seq<Id>, n: nat)
    requires n <= |s| && forall i, j :: 0 <= i < j < |s| ==> s[i] != s[j]
    ensures |set i | 0 <= i < n :: s[i]| == n
  {
    if n > 0 {
      PrefixCount(s, n - 1);
      var before := set i | 0 <= i < n - 1 :: s[i];
      assert (set i | 0 <= i < n :: s[i]) == before + {s[n - 1]};
    }
  }
}
