/** What two events add to a score, in numbers. */
module PairScores {
  import opened Events
  import opened CoOccurrence

  function Distance(a: nat, b: nat): nat { if a <= b then b - a else a - b }

  /** The weight of a pair is the product of the scores, times the decay by its distance in time if weighting is on. */
  lemma WeightIsProduct(x: Event, y: Event, t: Temporal)
    ensures var product := x.score as real * y.score as real;
      Weight(x, y, t) == match t
        case Off => product
        case HalfLife(decay) => product * (decay(0) * decay(Distance(x.timestamp, y.timestamp)))
  {
    assert (x.score * y.score) as real == x.score as real * y.score as real;
    if t.HalfLife? {
      var f, g := t.decay(0), t.decay(Distance(x.timestamp, y.timestamp));
      assert f * g == g * f;
    }
  }

  /** An event without a score, as a deletion is stored, pairs with nothing. */
  lemma {:induction false} NoScoreNoPairs(m: Matrix, prior: seq<Event>, x: Event, t: Temporal)
    requires x.score == 0 || forall i :: 0 <= i < |prior| ==> prior[i].score == 0
    ensures AddPairs(m, prior, x, t) == m
    decreases |prior|
  {
    if prior != [] {
      var n := |prior| - 1;
      NoScoreNoPairs(m, prior[..n], x, t);
      NoScoreNoWeight(x, prior[n], t);
    }
  }

  lemma NoScoreNoWeight(x: Event, y: Event, t: Temporal)
    requires x.score == 0 || y.score == 0
    ensures Weight(x, y, t) == 0.0
  {
    assert x.score * y.score == 0;
    if t.HalfLife? {
      WeightIsProduct(x, y, t);
      NoProduct(t.decay(0) * t.decay(Distance(x.timestamp, y.timestamp)));
    }
  }

  lemma NoProduct(f: real)
    ensures 0.0 * f == 0.0
  {
  }

  /** Where decay never reaches zero, a pair has a weight exactly if both events have a score. */
  lemma WeightNeedsScores(x: Event, y: Event, t: Temporal)
    requires t.HalfLife? ==> forall age: nat :: t.decay(age) > 0.0
    ensures Weight(x, y, t) != 0.0 <==> x.score != 0 && y.score != 0
  {
    if x.score == 0 || y.score == 0 {
      NoScoreNoWeight(x, y, t);
    } else {
      assert x.score * y.score != 0 by { NonzeroProduct(x.score, y.score); }
      if t.HalfLife? {
        WeightIsProduct(x, y, t);
        var f, g := t.decay(0), t.decay(Distance(x.timestamp, y.timestamp));
        assert f * g > 0.0;
        assert (x.score * y.score) as real * (f * g) != 0.0 by { NonzeroReals((x.score * y.score) as real, f * g); }
        assert (x.score * y.score) as real == x.score as real * y.score as real;
      }
    }
  }

  lemma NonzeroProduct(a: int, b: int)
    requires a != 0 && b != 0
    ensures a * b != 0
  {
  }

  lemma NonzeroReals(a: real, b: real)
    requires a != 0.0 && b != 0.0
    ensures a * b != 0.0
  {
  }

  /** One pair in an empty matrix. */
  lemma PairInEmpty(x: Event, y: Event, t: Temporal)
    requires x.id != y.id
    ensures var m, w := AddPairs(map[], [x], y, t), Weight(x, y, t);
      && Score(m, x.id, y.id) == w && Score(m, y.id, x.id) == w
      && (forall a, b :: Has(m, a, b) ==> w != 0.0 && ((a == x.id && b == y.id) || (a == y.id && b == x.id)))
  {
    assert [x][..0] == [];
    assert AddPairs(map[], [x][..0], y, t) == map[];
    WeightIsSymmetric(x, y, t);
  }

  lemma BatchOfTwo(x: Event, y: Event, t: Temporal)
    ensures Batch(map[], [x, y], t) == AddPairs(map[], [y], x, t)
  {
    assert [x, y][1..] == [y] && [y][1..] == [];
    var m := AddPairs(map[], [y], x, t);
    assert AddPairs(m, [], y, t) == m;
    assert Batch(m, [y], t) == Batch(AddPairs(m, [y][1..], y, t), [y][1..], t);
  }

  /**
   Two events of different items, in a fresh index without limits, one after the other and as a batch: either way their
   score is the product of theirs, decayed by their distance in time if weighting is on.
   */
  method ScoresOfTwo(cfg: Config, x: Event, y: Event, t: Temporal) returns (streamed: real, batched: real)
    requires !Limited(cfg) && x.id != y.id
    ensures streamed == batched == x.score as real * y.score as real * match t
      case Off => 1.0
      case HalfLife(decay) => decay(0) * decay(Distance(x.timestamp, y.timestamp))
  {
    hide Weight, AddPairs, Batch, Symmetric, Clean;
    WeightIsProduct(x, y, t);
    WeightIsProduct(y, x, t);
    WeightIsSymmetric(x, y, t);
    var index := new CoOccurrenceIndex(cfg);
    index.AddEventIncremental([], x, t);
    index.AddEventIncremental([x], y, t);
    PairInEmpty(x, y, t);
    streamed := Score(index.scores, x.id, y.id);
    var rebuilt := new CoOccurrenceIndex(cfg);
    rebuilt.UpdateFromEvents([x, y], t);
    BatchOfTwo(x, y, t);
    PairInEmpty(y, x, t);
    batched := Score(rebuilt.scores, x.id, y.id);
  }
}
