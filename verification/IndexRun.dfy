/** The index, driven by the updates a log asks for. */
module IndexRun {
  import opened Events
  import opened CoOccurrence
  import Log = Recovery

  /** A fresh index without limits, given the updates one by one, ends up with the matrix they stand for. */
  method Driven(idx: Log.Index, ops: seq<Log.IndexOp>) returns (scores: Matrix)
    requires !Limited(idx.cfg)
    ensures scores == Log.MatrixOf(idx, ops) && Symmetric(scores) && Clean(scores)
  {
    hide Symmetric, Clean, AddPairs, Signalled, CoOccurrence.Decayed, Bounded;
    var index := new CoOccurrenceIndex(idx.cfg);
    for i := 0 to |ops|
      invariant index.Valid() && fresh(index) && index.cfg == idx.cfg && index.scores == Log.MatrixOf(idx, ops[..i])
    {
      assert ops[..i + 1][..i] == ops[..i];
      ghost var before := index.scores;
      match ops[i] {
        case Ingested(prior, e) => index.ApplyIngestedEvent(prior, e, idx.options);
        case Decayed(alpha) => index.ApplyDecay(alpha);
        case Pruned =>
          index.Prune();
          ghost var items :| PruneChain(before, index.scores, items, idx.cfg);
          UnlimitedPrune(before, index.scores, items, idx.cfg);
      }
    }
    assert ops[..|ops|] == ops;
    scores := index.scores;
  }
}
