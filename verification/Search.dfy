/** The search loops: the best of a scan through a bounded heap, and filtered neighbours by doubling fetches. */
module Search {
  import opened Numbers
  import opened Sets
  import opened StringOrder
  import opened Sequences

  datatype Result = Result(id: string, score: real)

  // ---------- Ranking ----------

  /** Score descending, then id ascending. */
  predicate Before(x: Result, y: Result) {
    if x.score != y.score then x.score > y.score else Less(x.id, y.id)
  }

  /** Scores never rise, and equal ones stand in the order of their ids. */
  predicate Ranked(s: seq<Result>) {
    forall i, j :: 0 <= i < j < |s| ==> s[i].score > s[j].score || (s[i].score == s[j].score && Less(s[i].id, s[j].id))
  }

  lemma BeforeIsTotal(x: Result, y: Result)
    requires x.id != y.id
    ensures Before(x, y) <==> !Before(y, x)
  {
    LessIsTotal(x.id, y.id);
  }

  lemma BeforeIsTransitive(x: Result, y: Result, z: Result)
    requires Before(x, y) && Before(y, z)
    ensures Before(x, z)
  {
    if x.score == y.score == z.score { LessIsTransitive(x.id, y.id, z.id); }
  }

  /** Sorts results with distinct ids. */
  method SortResults(results: seq<Result>) returns (sorted: seq<Result>)
    requires forall i, j :: 0 <= i < j < |results| ==> results[i].id != results[j].id
    ensures Ranked(sorted) && multiset(sorted) == multiset(results)
  {
    sorted := [];
    for i := 0 to |results|
      invariant Ranked(sorted) && multiset(sorted) == multiset(results[..i])
    {
      var x := results[i];
      forall y | y in sorted ensures y.id != x.id {
        assert y in multiset(results[..i]);
        var j :| 0 <= j < i && results[j] == y;
      }
      sorted := Insert(sorted, x);
      assert results[..i + 1] == results[..i] + [x];
    }
    assert results[..|results|] == results;
  }

  lemma InsertRanked(sorted: seq<Result>, x: Result, k: nat)
    requires Ranked(sorted) && (forall y :: y in sorted ==> y.id != x.id) && k <= |sorted|
    requires (forall j :: 0 <= j < k ==> Before(sorted[j], x)) && (k < |sorted| ==> !Before(sorted[k], x))
    ensures Ranked(sorted[..k] + [x] + sorted[k..])
  {
    hide Less;
    var r := sorted[..k] + [x] + sorted[k..];
    forall j | k <= j < |sorted| ensures Before(x, sorted[j]) {
      BeforeIsTotal(sorted[k], x);
      if j > k { BeforeIsTransitive(x, sorted[k], sorted[j]); }
    }
    forall i, j | 0 <= i < j < |r| ensures Before(r[i], r[j]) {
      hide Before;
      if j < k { assert r[j] == sorted[j]; } else if j > k { assert r[j] == sorted[j - 1]; }
      if i < k { assert r[i] == sorted[i]; } else if i > k { assert r[i] == sorted[i - 1]; }
    }
  }

  method Insert(sorted: seq<Result>, x: Result) returns (r: seq<Result>)
    requires Ranked(sorted) && forall y :: y in sorted ==> y.id != x.id
    ensures Ranked(r) && multiset(r) == multiset(sorted) + multiset{x}
  {
    var k := 0;
    while k < |sorted| && Before(sorted[k], x)
      invariant 0 <= k <= |sorted| && forall j :: 0 <= j < k ==> Before(sorted[j], x)
    {
      k := k + 1;
    }
    InsertRanked(sorted, x, k);
    hide Ranked, Before;
    r := sorted[..k] + [x] + sorted[k..];
    assert sorted == sorted[..k] + sorted[k..];
  }

  // ---------- The bounded heap ----------

  /** A scored position of the vector matrix. */
  datatype Candidate = Candidate(score: real, index: nat)

  /** The store as a scan sees it; `eligible` means not deleted, not the query, and not filtered out. */
  datatype Snapshot = Snapshot(scores: seq<real>, eligible: seq<bool>, ids: seq<string>)

  predicate SnapshotOk(s: Snapshot) {
    && |s.scores| == |s.eligible| == |s.ids|
    && (forall i, j :: 0 <= i < j < |s.ids| ==> s.ids[i] != s.ids[j])
  }

  /** Eligible positions among the scanned ones. */
  function Eligible(s: Snapshot, scan: seq<nat>): set<nat>
    requires SnapshotOk(s) && forall i :: 0 <= i < |scan| ==> scan[i] < |s.scores|
  {
    set i | i in scan && s.eligible[i]
  }

  predicate Weakest(heap: seq<Candidate>, t: nat) {
    t < |heap| && forall i :: 0 <= i < |heap| ==> heap[t].score <= heap[i].score
  }

  function Indices(heap: seq<Candidate>): set<nat> { set i | 0 <= i < |heap| :: heap[i].index }

  /** The heap holds the best `k` of the positions seen, each once, with its score. */
  ghost predicate Holds(s: Snapshot, heap: seq<Candidate>, seen: set<nat>, k: nat)
    requires SnapshotOk(s) && forall i :: i in seen ==> i < |s.scores|
  {
    && (forall i :: 0 <= i < |heap| ==> heap[i].index in seen && heap[i].score == s.scores[heap[i].index])
    && (forall i, j :: 0 <= i < j < |heap| ==> heap[i].index != heap[j].index)
    && |heap| == (if |seen| <= k then |seen| else k)
    && (forall x, i :: x in seen && x !in Indices(heap) && 0 <= i < |heap| ==> s.scores[x] <= heap[i].score)
  }

  /** A weakest candidate, as the top of the heap. */
  method Top(heap: seq<Candidate>) returns (t: nat)
    requires heap != []
    ensures Weakest(heap, t)
  {
    t := 0;
    for i := 1 to |heap|
      invariant t < |heap| && forall j :: 0 <= j < i ==> heap[t].score <= heap[j].score
    {
      if heap[i].score < heap[t].score { t := i; }
    }
  }

  lemma {:induction false} IndicesCount(heap: seq<Candidate>)
    requires forall i, j :: 0 <= i < j < |heap| ==> heap[i].index != heap[j].index
    ensures |Indices(heap)| == |heap|
  {
    if heap != [] {
      var n := |heap| - 1;
      IndicesCount(heap[..n]);
      assert Indices(heap) == Indices(heap[..n]) + {heap[n].index};
    } else {
      assert Indices(heap) == {};
    }
  }

  /** With room, a new position joins the heap. */
  lemma Joins(s: Snapshot, heap: seq<Candidate>, seen: set<nat>, k: nat, x: nat)
    requires SnapshotOk(s) && (forall i :: i in seen ==> i < |s.scores|) && x < |s.scores| && x !in seen
    requires Holds(s, heap, seen, k) && |heap| < k
    ensures Holds(s, heap + [Candidate(s.scores[x], x)], seen + {x}, k)
  {
    var heap' := heap + [Candidate(s.scores[x], x)];
    IndicesCount(heap);
    assert Indices(heap) <= seen;
    SubsetSize(Indices(heap), seen);
    forall y | y in seen + {x} ensures y in Indices(heap') {
      if y in seen {
        var i :| 0 <= i < |heap| && heap[i].index == y;
        assert heap'[i].index == y;
      } else {
        assert heap'[|heap|].index == x;
      }
    }
  }

  lemma StillThere(heap: seq<Candidate>, t: nat, c: Candidate, j: nat)
    requires t < |heap| && j < |heap| && j != t
    ensures heap[j].index in Indices(heap[..t] + heap[t + 1..] + [c])
  {
    var heap' := heap[..t] + heap[t + 1..] + [c];
    if j < t { assert heap'[j] == heap[j]; } else { assert heap'[j - 1] == heap[j]; }
  }

  /** With a full heap, a better position replaces a weakest one, and a worse one stays out. */
  lemma Replaces(s: Snapshot, heap: seq<Candidate>, seen: set<nat>, k: nat, x: nat, t: nat)
    requires SnapshotOk(s) && (forall i :: i in seen ==> i < |s.scores|) && x < |s.scores| && x !in seen
    requires Holds(s, heap, seen, k) && |heap| == k && Weakest(heap, t)
    ensures s.scores[x] > heap[t].score ==> Holds(s, heap[..t] + heap[t + 1..] + [Candidate(s.scores[x], x)], seen + {x}, k)
    ensures s.scores[x] <= heap[t].score ==> Holds(s, heap, seen + {x}, k)
  {
    IndicesCount(heap);
    assert Indices(heap) <= seen;
    SubsetSize(Indices(heap), seen);
    assert |seen + {x}| == |seen| + 1;
    if s.scores[x] > heap[t].score { OthersStayOut(s, heap, seen, k, x, t); }
  }

  lemma OthersStayOut(s: Snapshot, heap: seq<Candidate>, seen: set<nat>, k: nat, x: nat, t: nat)
    requires SnapshotOk(s) && (forall i :: i in seen ==> i < |s.scores|) && x < |s.scores|
    requires Holds(s, heap, seen, k) && |heap| == k && Weakest(heap, t) && s.scores[x] > heap[t].score
    ensures var heap' := heap[..t] + heap[t + 1..] + [Candidate(s.scores[x], x)];
      forall y, i :: y in seen + {x} && y !in Indices(heap') && 0 <= i < |heap'| ==> s.scores[y] <= heap'[i].score
  {
    var heap' := heap[..t] + heap[t + 1..] + [Candidate(s.scores[x], x)];
    forall y, i | y in seen + {x} && y !in Indices(heap') && 0 <= i < |heap'| ensures s.scores[y] <= heap'[i].score {
      assert heap'[k - 1].index == x && y != x;
      if y in Indices(heap) {
        var j :| 0 <= j < |heap| && heap[j].index == y;
        if j != t { StillThere(heap, t, Candidate(s.scores[x], x), j); }
      }
      assert heap'[i].score >= heap[t].score;
    }
  }

  /** Scans positions in the given order and keeps the best `k`. */
  method Scan(s: Snapshot, scan: seq<nat>, k: nat) returns (heap: seq<Candidate>)
    requires SnapshotOk(s) && k >= 1 && (forall i :: 0 <= i < |scan| ==> scan[i] < |s.scores|)
    requires forall i, j :: 0 <= i < j < |scan| ==> scan[i] != scan[j]
    ensures Holds(s, heap, Eligible(s, scan), k)
  {
    heap := [];
    for n := 0 to |scan|
      invariant Holds(s, heap, Eligible(s, scan[..n]), k)
    {
      hide Holds, Eligible, Indices;
      var x := scan[n];
      ghost var seen := Eligible(s, scan[..n]);
      EligibleMore(s, scan, n);
      if s.eligible[x] {
        HoldsLength(s, heap, seen, k);
        if |heap| < k {
          Joins(s, heap, seen, k, x);
          heap := heap + [Candidate(s.scores[x], x)];
        } else {
          var t := Top(heap);
          Replaces(s, heap, seen, k, x, t);
          if s.scores[x] > heap[t].score { heap := heap[..t] + heap[t + 1..] + [Candidate(s.scores[x], x)]; }
        }
      }
    }
    assert scan[..|scan|] == scan;
  }

  lemma EligibleMore(s: Snapshot, scan: seq<nat>, n: nat)
    requires SnapshotOk(s) && n < |scan| && (forall i :: 0 <= i < |scan| ==> scan[i] < |s.scores|)
    requires forall i, j :: 0 <= i < j < |scan| ==> scan[i] != scan[j]
    ensures forall i :: i in Eligible(s, scan[..n]) ==> i < |s.scores|
    ensures s.eligible[scan[n]] ==>
      scan[n] !in Eligible(s, scan[..n]) && Eligible(s, scan[..n + 1]) == Eligible(s, scan[..n]) + {scan[n]}
    ensures !s.eligible[scan[n]] ==> Eligible(s, scan[..n + 1]) == Eligible(s, scan[..n])
  {
    assert scan[..n + 1] == scan[..n] + [scan[n]];
  }

  lemma HoldsLength(s: Snapshot, heap: seq<Candidate>, seen: set<nat>, k: nat)
    requires SnapshotOk(s) && (forall i :: i in seen ==> i < |s.scores|) && Holds(s, heap, seen, k)
    ensures |heap| <= k
  {
  }

  /** Positions of a set that score above a threshold. */
  function Above(s: Snapshot, xs: set<nat>, t: real): set<nat>
    requires forall i :: i in xs ==> i < |s.scores|
  {
    set i | i in xs && s.scores[i] > t
  }

  /**
   Ties aside, the result is determined: above any score, the selection has as many members as there are
   eligible ones, up to `k`.
   */
  lemma SelectionIsBest(s: Snapshot, heap: seq<Candidate>, seen: set<nat>, k: nat, t: real)
    requires SnapshotOk(s) && (forall i :: i in seen ==> i < |s.scores|) && Holds(s, heap, seen, k)
    ensures Indices(heap) <= seen
    ensures var all := |Above(s, seen, t)|; |Above(s, Indices(heap), t)| == if all <= k then all else k
  {
    IndicesCount(heap);
    var kept, all := Above(s, Indices(heap), t), Above(s, seen, t);
    assert kept <= all;
    SubsetSize(kept, all);
    SubsetSize(kept, Indices(heap));
    if x :| x in all && x !in Indices(heap) {
      forall y | y in Indices(heap) ensures y in kept {
        var i :| 0 <= i < |heap| && heap[i].index == y;
      }
      assert kept == Indices(heap);
      if |seen| <= k { SubsetSize(Indices(heap), seen); }
    } else {
      assert kept == all;
    }
  }

  // ---------- Flat search ----------

  /** Reservoir sampling; `draw(i)` is the random number drawn for position i. */
  method SampleIndices(total: nat, sampleSize: nat, draw: nat -> nat) returns (r: seq<nat>)
    ensures Distinct(r) && |r| == (if sampleSize >= total then total else sampleSize)
    ensures forall i :: 0 <= i < |r| ==> r[i] < total
    ensures sampleSize >= total ==> forall x: nat :: x < total ==> x in r
  {
    if sampleSize >= total {
      r := seq(total, i => i);
      forall x: nat | x < total ensures x in r { assert r[x] == x; }
      DistinctIff(r);
      return;
    }
    r := seq(sampleSize, i => i);
    for i := sampleSize to total
      invariant |r| == sampleSize && forall n :: 0 <= n < |r| ==> r[n] < i
      invariant forall m, n :: 0 <= m < n < |r| ==> r[m] != r[n]
    {
      var j := draw(i) % (i + 1);
      if j < sampleSize { r := r[j := i]; }
    }
    DistinctIff(r);
  }

  /** The brute-force path of a vector search: scan or sample, keep the best, sort. */
  method SearchFlat(s: Snapshot, sampleSize: nat, k: nat, draw: nat -> nat) returns (results: seq<Result>, scan: seq<nat>)
    requires SnapshotOk(s) && k >= 1
    ensures Distinct(scan) && forall i :: 0 <= i < |scan| ==> scan[i] < |s.scores|
    ensures if sampleSize > 0 && |s.scores| > 2 * sampleSize then |scan| == sampleSize else forall x: nat :: x < |s.scores| ==> x in scan
    ensures Ranked(results)
    ensures var n := |Eligible(s, scan)|; |results| == if n <= k then n else k
    ensures forall r :: r in results ==> exists i :: i in Eligible(s, scan) && r == Result(s.ids[i], s.scores[i])
    ensures forall i, r :: i in Eligible(s, scan) && Result(s.ids[i], s.scores[i]) !in results && r in results ==> s.scores[i] <= r.score
  {
    if sampleSize > 0 && |s.scores| > 2 * sampleSize {
      scan := SampleIndices(|s.scores|, sampleSize, draw);
    } else {
      scan := seq(|s.scores|, i => i);
      forall x: nat | x < |s.scores| ensures x in scan { assert scan[x] == x; }
    }
    DistinctIff(scan);
    var heap := Scan(s, scan, k);
    var unsorted := Named(s, heap);
    hide Holds, Ranked, Eligible, Distinct;
    NamedMeans(s, heap, Eligible(s, scan), k);
    results := SortResults(unsorted);
    SameMembers(results, unsorted);
  }

  function Named(s: Snapshot, heap: seq<Candidate>): seq<Result>
    requires SnapshotOk(s) && forall i :: 0 <= i < |heap| ==> heap[i].index < |s.ids|
  {
    seq(|heap|, i requires 0 <= i < |heap| => Result(s.ids[heap[i].index], heap[i].score))
  }

  lemma NamedMeans(s: Snapshot, heap: seq<Candidate>, seen: set<nat>, k: nat)
    requires SnapshotOk(s) && (forall i :: i in seen ==> i < |s.scores|) && Holds(s, heap, seen, k)
    ensures var named := Named(s, heap);
      && |named| == (if |seen| <= k then |seen| else k)
      && (forall i, j :: 0 <= i < j < |named| ==> named[i].id != named[j].id)
      && (forall r :: r in named ==> exists i :: i in seen && r == Result(s.ids[i], s.scores[i]))
      && (forall i, r :: i in seen && Result(s.ids[i], s.scores[i]) !in named && r in named ==> s.scores[i] <= r.score)
  {
    var named := Named(s, heap);
    forall i, j | 0 <= i < j < |named| ensures named[i].id != named[j].id {
      var p, q := heap[i].index, heap[j].index;
      assert p < q || q < p;
    }
    forall r | r in named ensures exists i :: i in seen && r == Result(s.ids[i], s.scores[i]) {
      var n :| 0 <= n < |named| && named[n] == r;
      assert heap[n].index in seen;
    }
    forall i | i in Indices(heap) ensures Result(s.ids[i], s.scores[i]) in named {
      var m :| 0 <= m < |heap| && heap[m].index == i;
      assert named[m] in named;
    }
    forall i, r | i in seen && Result(s.ids[i], s.scores[i]) !in named && r in named ensures s.scores[i] <= r.score {
      var n :| 0 <= n < |named| && named[n] == r;
      assert s.scores[i] <= heap[n].score;
    }
  }

  lemma SameMembers(x: seq<Result>, y: seq<Result>)
    requires multiset(x) == multiset(y)
    ensures |x| == |y| && forall r :: r in x <==> r in y
  {
    assert |x| == |multiset(x)| && |y| == |multiset(y)|;
    assert forall r :: r in x <==> r in multiset(x);
  }

  // ---------- Neighbours under a filter ----------


  /** The first `k` results that a filter keeps. */
  function FirstMatching(s: seq<Result>, keep: string -> bool, k: nat): seq<Result> {
    if s == [] || k == 0 then []
    else if keep(s[0].id) then [s[0]] + FirstMatching(s[1..], keep, k - 1)
    else FirstMatching(s[1..], keep, k)
  }

  lemma {:induction false} FirstMatchingOfTake(s: seq<Result>, keep: string -> bool, k: nat, n: nat)
    requires n <= |s|
    ensures |FirstMatching(s[..n], keep, k)| <= k
    ensures |FirstMatching(s[..n], keep, k)| == k || n == |s| ==> FirstMatching(s[..n], keep, k) == FirstMatching(s, keep, k)
  {
    if n > 0 && k > 0 {
      assert s[..n][1..] == s[1..][..n - 1] && s[..n][0] == s[0];
      FirstMatchingOfTake(s[1..], keep, if keep(s[0].id) then k - 1 else k, n - 1);
    }
  }

  lemma {:induction false} FirstMatchingMore(s: seq<Result>, keep: string -> bool, k: nat, n: nat)
    requires n < |s| && |FirstMatching(s[..n], keep, k)| < k
    ensures FirstMatching(s[..n + 1], keep, k) == FirstMatching(s[..n], keep, k) + (if keep(s[n].id) then [s[n]] else [])
  {
    if n == 0 {
      assert s[..1][1..] == [] && s[..1][0] == s[0];
      assert FirstMatching(s[..1][1..], keep, k - 1) == [];
    } else {
      assert s[..n][1..] == s[1..][..n - 1] && s[..n + 1][1..] == s[1..][..n] && s[..n][0] == s[..n + 1][0] == s[0];
      FirstMatchingMore(s[1..], keep, if keep(s[0].id) then k - 1 else k, n - 1);
    }
  }

  function NextFetch(neighbours: nat, fetch: nat): nat {
    var doubled := 2 * fetch;
    var capped := if doubled <= INT_MAX then doubled else INT_MAX;
    if neighbours <= capped then neighbours else capped
  }

  /** A round that fetches `fetch` neighbours is followed by another one. */
  predicate GoesOn(ranked: seq<Result>, neighbours: nat, filtering: bool, keep: string -> bool, k: nat, fetch: nat) {
    filtering && fetch <= |ranked| && fetch < neighbours && |FirstMatching(ranked[..fetch], keep, k)| < k
  }

  ghost predicate RunsFor(ranked: seq<Result>, neighbours: nat, filtering: bool, keep: string -> bool, k: nat, fetch: nat, rounds: nat)
    decreases rounds
  {
    rounds == 0 ||
      (GoesOn(ranked, neighbours, filtering, keep, k, fetch)
       && RunsFor(ranked, neighbours, filtering, keep, k, NextFetch(neighbours, fetch), rounds - 1))
  }

  /** The largest fetch there is would do. */
  predicate Settles(ranked: seq<Result>, neighbours: nat, filtering: bool, keep: string -> bool, k: nat) {
    !filtering || neighbours <= INT_MAX || |ranked| < INT_MAX || |FirstMatching(ranked[..INT_MAX], keep, k)| >= k
  }

  /** The fetch loop ends exactly when the largest fetch there is would do. */
  lemma FetchingEnds(ranked: seq<Result>, neighbours: nat, filtering: bool, keep: string -> bool, k: nat)
    requires 1 <= k <= INT_MAX && |ranked| <= neighbours
    ensures (exists rounds :: !RunsFor(ranked, neighbours, filtering, keep, k, k, rounds)) <==> Settles(ranked, neighbours, filtering, keep, k)
  {
    if Settles(ranked, neighbours, filtering, keep, k) {
      var rounds := LastRound(ranked, neighbours, filtering, keep, k, k);
    } else {
      forall rounds ensures RunsFor(ranked, neighbours, filtering, keep, k, k, rounds) {
        NeverEnds(ranked, neighbours, filtering, keep, k, k, rounds);
      }
    }
  }

  lemma FetchGrows(ranked: seq<Result>, neighbours: nat, filtering: bool, keep: string -> bool, k: nat, fetch: nat)
    requires 1 <= k <= fetch <= INT_MAX && Settles(ranked, neighbours, filtering, keep, k)
    requires GoesOn(ranked, neighbours, filtering, keep, k, fetch)
    ensures fetch < NextFetch(neighbours, fetch) <= INT_MAX
  {
    hide FirstMatching;
  }

  lemma {:induction false} LastRound(ranked: seq<Result>, neighbours: nat, filtering: bool, keep: string -> bool, k: nat, fetch: nat)
    returns (rounds: nat)
    requires 1 <= k <= fetch <= INT_MAX && Settles(ranked, neighbours, filtering, keep, k)
    ensures !RunsFor(ranked, neighbours, filtering, keep, k, fetch, rounds)
    decreases INT_MAX - fetch
  {
    hide FirstMatching, Settles;
    rounds := 1;
    if GoesOn(ranked, neighbours, filtering, keep, k, fetch) {
      FetchGrows(ranked, neighbours, filtering, keep, k, fetch);
      rounds := LastRound(ranked, neighbours, filtering, keep, k, NextFetch(neighbours, fetch));
      rounds := rounds + 1;
    }
  }

  lemma {:induction false} NeverEnds(ranked: seq<Result>, neighbours: nat, filtering: bool, keep: string -> bool, k: nat, fetch: nat, rounds: nat)
    requires 1 <= k <= fetch <= INT_MAX && |ranked| <= neighbours && !Settles(ranked, neighbours, filtering, keep, k)
    ensures RunsFor(ranked, neighbours, filtering, keep, k, fetch, rounds)
    decreases rounds
  {
    hide FirstMatching;
    if rounds > 0 {
      assert ranked[..INT_MAX][..fetch] == ranked[..fetch];
      FirstMatchingOfTake(ranked[..INT_MAX], keep, k, fetch);
      NeverEnds(ranked, neighbours, filtering, keep, k, NextFetch(neighbours, fetch), rounds - 1);
    }
  }

  /**
   Fetches more and more of the ranked positive neighbours until `k` of them pass the filter; `neighbours`
   counts all neighbours, the others too.  By `FetchingEnds` what is required is no more than that it ever returns.
   */
  method SearchByIdEvents(ranked: seq<Result>, neighbours: nat, filtering: bool, keep: string -> bool, k: nat) returns (results: seq<Result>)
    requires 1 <= k <= INT_MAX && |ranked| <= neighbours && Settles(ranked, neighbours, filtering, keep, k)
    ensures results == FirstMatching(ranked, if filtering then keep else (x => true), k)
  {
    hide FirstMatching;
    var pass: string -> bool := if filtering then keep else x => true;
    var fetch := k;
    while true
      invariant k <= fetch <= INT_MAX
      decreases INT_MAX - fetch
    {
      var n := if fetch <= |ranked| then fetch else |ranked|;
      var fetched := ranked[..n];
      results := [];
      var i: nat := 0;
      FirstOfNone(pass, k);
      while i < n && |results| < k
        invariant 0 <= i <= n && results == FirstMatching(fetched[..i], pass, k) && |results| <= k
      {
        FirstMatchingMore(fetched, pass, k, i);
        assert results + [] == results;
        if pass(fetched[i].id) { results := results + [fetched[i]]; }
        i := i + 1;
      }
      FirstMatchingOfTake(fetched, pass, k, i);
      FirstMatchingOfTake(ranked, pass, k, n);
      if !filtering { AllMatch(fetched, k); }
      if !filtering || |results| >= k || n < fetch || fetch >= neighbours { return; }
      assert fetched == ranked[..fetch];
      FetchGrows(ranked, neighbours, filtering, keep, k, fetch);
      fetch := NextFetch(neighbours, fetch);
    }
  }

  lemma FirstOfNone(keep: string -> bool, k: nat)
    ensures FirstMatching([], keep, k) == []
  {
  }

  lemma {:induction false} AllMatch(s: seq<Result>, k: nat)
    ensures FirstMatching(s, x => true, k) == s[..if k <= |s| then k else |s|]
  {
    if s != [] && k > 0 {
      AllMatch(s[1..], k - 1);
    }
  }

  /** A list of exactly the positive neighbours of a row, scores descending; ties stand in any order. */
  ghost predicate IsRanking(row: map<string, real>, ranked: seq<Result>) {
    && (forall i, j :: 0 <= i < j < |ranked| ==> ranked[i].id != ranked[j].id && ranked[i].score >= ranked[j].score)
    && (forall r :: r in ranked ==> r.id in row && r.score == row[r.id] && r.score > 0.0)
    && (forall id :: id in row && row[id] > 0.0 ==> Result(id, row[id]) in ranked)
  }

  lemma {:induction false} FirstMatchingMeans(s: seq<Result>, keep: string -> bool, k: nat)
    requires forall i, j :: 0 <= i < j < |s| ==> s[i].score >= s[j].score
    ensures var r := FirstMatching(s, keep, k);
      && |r| <= k
      && (forall x :: x in r ==> x in s && keep(x.id))
      && (forall i, j :: 0 <= i < j < |r| ==> r[i].score >= r[j].score)
      && (forall x :: x in s && keep(x.id) && x !in r ==> |r| == k && forall y :: y in r ==> y.score >= x.score)
  {
    if s != [] && k > 0 {
      var t := s[1..];
      assert s == [s[0]] + t;
      var k' := if keep(s[0].id) then k - 1 else k;
      FirstMatchingMeans(t, keep, k');
      forall x | x in t ensures s[0].score >= x.score { var i :| 0 <= i < |t| && t[i] == x; }
      var r, r' := FirstMatching(s, keep, k), FirstMatching(t, keep, k');
      assert r == if keep(s[0].id) then [s[0]] + r' else r';
      hide FirstMatching;
      forall x | x in s && keep(x.id) && x !in r ensures |r| == k && forall y :: y in r ==> y.score >= x.score {
        assert x in t && x !in r';
      }
    }
  }

  /** Event search returns the best neighbours that match: all of them, or `k` that no other one outscores. */
  lemma EventResultsAreBest(row: map<string, real>, ranked: seq<Result>, keep: string -> bool, k: nat)
    requires IsRanking(row, ranked)
    ensures var r := FirstMatching(ranked, keep, k);
      && |r| <= k
      && (forall x :: x in r ==> x.id in row && x.score == row[x.id] > 0.0 && keep(x.id))
      && (forall id :: id in row && row[id] > 0.0 && keep(id) && Result(id, row[id]) !in r ==>
            |r| == k && forall y :: y in r ==> y.score >= row[id])
  {
    FirstMatchingMeans(ranked, keep, k);
  }
}
