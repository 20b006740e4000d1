/** Events and their co-occurrence weights. */
module Events {
  type Id = string

  datatype EventType = ADD | SET | DEL

  datatype Event = Event(id: Id, score: int, timestamp: nat, kind: EventType)

  /** Temporal weighting: off, or a decay factor by age in seconds. */
  datatype Temporal = Off | HalfLife(decay: nat -> real)

  /** The weight of one pair of events, relative to the newer of the two. */
  function Weight(x: Event, y: Event, t: Temporal): real {
    var product := (x.score * y.score) as real;
    match t
    case Off => product
    case HalfLife(decay) =>
      var newest := if x.timestamp >= y.timestamp then x.timestamp else y.timestamp;
      product * (decay(newest - x.timestamp) * decay(newest - y.timestamp))
  }

  lemma WeightIsSymmetric(x: Event, y: Event, t: Temporal)
    ensures Weight(x, y, t) == Weight(y, x, t)
  {
    assert x.score * y.score == y.score * x.score;
    if t.HalfLife? {
      var newest := if x.timestamp >= y.timestamp then x.timestamp else y.timestamp;
      var f, g := t.decay(newest - x.timestamp), t.decay(newest - y.timestamp);
      assert f * g == g * f;
    }
  }

  /** What the pair {x, y} contributes to the cell (a, b). */
  function Share(x: Event, y: Event, a: Id, b: Id, t: Temporal): real {
    if x.id != y.id && ((a == x.id && b == y.id) || (a == y.id && b == x.id)) then Weight(x, y, t) else 0.0
  }

  lemma ShareIsSymmetric(x: Event, y: Event, a: Id, b: Id, t: Temporal)
    ensures Share(x, y, a, b, t) == Share(y, x, a, b, t) == Share(x, y, b, a, t)
  {
    WeightIsSymmetric(x, y, t);
  }

  /** All pairs of `x` with an event of `s`. */
  function SumShare(s: seq<Event>, x: Event, a: Id, b: Id, t: Temporal): real
    decreases |s|
  {
    if s == [] then 0.0 else SumShare(s[..|s| - 1], x, a, b, t) + Share(s[|s| - 1], x, a, b, t)
  }

  /** All pairs of a sequence of events, each once. */
  function PairSum(s: seq<Event>, a: Id, b: Id, t: Temporal): real
    decreases |s|
  {
    if s == [] then 0.0 else PairSum(s[..|s| - 1], a, b, t) + SumShare(s[..|s| - 1], s[|s| - 1], a, b, t)
  }

  lemma {:induction false} SumShareAppend(s: seq<Event>, r: seq<Event>, x: Event, a: Id, b: Id, t: Temporal)
    ensures SumShare(s + r, x, a, b, t) == SumShare(s, x, a, b, t) + SumShare(r, x, a, b, t)
    decreases |r|
  {
    if r == [] {
      assert s + r == s;
    } else {
      var n := |r| - 1;
      SumShareAppend(s, r[..n], x, a, b, t);
      assert (s + r)[..|s + r| - 1] == s + r[..n];
    }
  }

  lemma SumShareOne(y: Event, x: Event, a: Id, b: Id, t: Temporal)
    ensures SumShare([y], x, a, b, t) == Share(y, x, a, b, t)
  {
    assert [y][..0] == [];
    assert SumShare([y][..0], x, a, b, t) == 0.0;
  }

  lemma {:induction false} SumShareRemove(s: seq<Event>, k: nat, x: Event, a: Id, b: Id, t: Temporal)
    requires k < |s|
    ensures SumShare(s, x, a, b, t) == SumShare(s[..k] + s[k + 1..], x, a, b, t) + Share(s[k], x, a, b, t)
  {
    assert s == s[..k] + ([s[k]] + s[k + 1..]);
    SumShareAppend(s[..k], [s[k]] + s[k + 1..], x, a, b, t);
    SumShareAppend([s[k]], s[k + 1..], x, a, b, t);
    SumShareAppend(s[..k], s[k + 1..], x, a, b, t);
    SumShareOne(s[k], x, a, b, t);
  }

  /** Taking one event out of a sequence takes out its pairs with the others. */
  lemma {:induction false} PairSumRemove(s: seq<Event>, k: nat, a: Id, b: Id, t: Temporal)
    requires k < |s|
    ensures PairSum(s, a, b, t) == PairSum(s[..k] + s[k + 1..], a, b, t) + SumShare(s[..k] + s[k + 1..], s[k], a, b, t)
    decreases |s|
  {
    hide Share, PairSum, SumShare;
    var n := |s| - 1;
    var init, last := s[..n], s[n];
    PairSumStep(s, a, b, t);
    if k == n {
      assert s[..k] + s[k + 1..] == init;
    } else {
      PairSumRemove(init, k, a, b, t);
      var others := init[..k] + init[k + 1..];
      var rest := s[..k] + s[k + 1..];
      assert rest == others + [last] && init[k] == s[k];
      assert rest[..|rest| - 1] == others && rest[|rest| - 1] == last;
      PairSumStep(rest, a, b, t);
      SumShareRemove(init, k, last, a, b, t);
      SumShareAppend(others, [last], s[k], a, b, t);
      SumShareOne(last, s[k], a, b, t);
      ShareIsSymmetric(s[k], last, a, b, t);
    }
  }

  lemma PairSumStep(s: seq<Event>, a: Id, b: Id, t: Temporal)
    requires s != []
    ensures var n := |s| - 1; PairSum(s, a, b, t) == PairSum(s[..n], a, b, t) + SumShare(s[..n], s[n], a, b, t)
  {
  }

  lemma FindEqual(s: seq<Event>, x: Event) returns (k: nat)
    requires x in multiset(s)
    ensures k < |s| && s[k] == x && multiset(s[..k] + s[k + 1..]) == multiset(s) - multiset{x}
  {
    k :| k < |s| && s[k] == x;
    assert s == s[..k] + [s[k]] + s[k + 1..];
  }

  lemma {:induction false} SumSharePermutation(s: seq<Event>, r: seq<Event>, x: Event, a: Id, b: Id, t: Temporal)
    requires multiset(s) == multiset(r)
    ensures SumShare(s, x, a, b, t) == SumShare(r, x, a, b, t)
    decreases |s|
  {
    SameLength(s, r);
    if s != [] {
      var n := |s| - 1;
      assert s[n] in multiset(s);
      var k := FindEqual(r, s[n]);
      assert s == s[..n] + [s[n]];
      assert multiset(s[..n]) == multiset(s) - multiset{s[n]};
      SumSharePermutation(s[..n], r[..k] + r[k + 1..], x, a, b, t);
      SumShareRemove(r, k, x, a, b, t);
    }
  }

  lemma SameLength(s: seq<Event>, r: seq<Event>)
    requires multiset(s) == multiset(r)
    ensures |s| == |r|
  {
    assert |s| == |multiset(s)| && |r| == |multiset(r)|;
  }

  /** The pair sum does not depend on the order of the events. */
  lemma {:induction false} PairSumPermutation(s: seq<Event>, r: seq<Event>, a: Id, b: Id, t: Temporal)
    requires multiset(s) == multiset(r)
    ensures PairSum(s, a, b, t) == PairSum(r, a, b, t)
    decreases |s|
  {
    SameLength(s, r);
    if s != [] {
      var n := |s| - 1;
      assert s[n] in multiset(s);
      var k := FindEqual(r, s[n]);
      assert s == s[..n] + [s[n]];
      assert multiset(s[..n]) == multiset(s) - multiset{s[n]};
      var others := r[..k] + r[k + 1..];
      PairSumPermutation(s[..n], others, a, b, t);
      SumSharePermutation(s[..n], others, s[n], a, b, t);
      PairSumRemove(r, k, a, b, t);
    }
  }

  // ---------- Streams of events over many contexts ----------

  datatype Arrival = Arrival(ctx: string, ev: Event)

  /** The events of one context, in order. */
  function InContext(history: seq<Arrival>, ctx: string): seq<Event> {
    if history == [] then []
    else if history[0].ctx == ctx then [history[0].ev] + InContext(history[1..], ctx)
    else InContext(history[1..], ctx)
  }

  /** The last n elements, which is what a ring buffer of capacity n holds. */
  function LastN<T>(s: seq<T>, n: nat): seq<T> {
    if |s| <= n then s else s[|s| - n..]
  }

  /** Pairs of a new arrival with the earlier events of its context that are at most `window` events back. */
  function Column(earlier: seq<Arrival>, x: Arrival, window: nat, a: Id, b: Id, t: Temporal): real {
    if earlier == [] then 0.0
    else
      (if earlier[0].ctx == x.ctx && |InContext(earlier, x.ctx)| <= window then Share(earlier[0].ev, x.ev, a, b, t) else 0.0)
      + Column(earlier[1..], x, window, a, b, t)
  }

  /** All pairs of stored events of the same context at most `window` events apart, each once. */
  function WindowSum(history: seq<Arrival>, window: nat, a: Id, b: Id, t: Temporal): real
    decreases |history|
  {
    if history == [] then 0.0
    else
      var n := |history| - 1;
      WindowSum(history[..n], window, a, b, t) + Column(history[..n], history[n], window, a, b, t)
  }

  /** The buffered part of a context is exactly what lies within the window. */
  lemma {:induction false} BufferIsWindow(earlier: seq<Arrival>, x: Arrival, window: nat, a: Id, b: Id, t: Temporal)
    ensures SumShare(LastN(InContext(earlier, x.ctx), window), x.ev, a, b, t) == Column(earlier, x, window, a, b, t)
  {
    if earlier != [] {
      BufferIsWindow(earlier[1..], x, window, a, b, t);
      var rest := InContext(earlier[1..], x.ctx);
      if earlier[0].ctx == x.ctx {
        var all := [earlier[0].ev] + rest;
        if |all| <= window {
          SumShareAppend([earlier[0].ev], rest, x.ev, a, b, t);
          SumShareOne(earlier[0].ev, x.ev, a, b, t);
        } else {
          assert LastN(all, window) == LastN(rest, window);
        }
      }
    }
  }

  /** With a window no smaller than the rest of the history, the windowed sum of one context is the full pair sum. */
  lemma {:induction false} WindowSumOneContext(history: seq<Arrival>, ctx: string, window: nat, a: Id, b: Id, t: Temporal)
    requires forall i :: 0 <= i < |history| ==> history[i].ctx == ctx
    requires |history| <= window + 1
    ensures |InContext(history, ctx)| == |history|
    ensures WindowSum(history, window, a, b, t) == PairSum(InContext(history, ctx), a, b, t)
    decreases |history|
  {
    OneContext(history, ctx);
    if history != [] {
      var n := |history| - 1;
      WindowSumOneContext(history[..n], ctx, window, a, b, t);
      OneContext(history[..n], ctx);
      BufferIsWindow(history[..n], history[n], window, a, b, t);
      assert InContext(history, ctx)[..n] == InContext(history[..n], ctx);
    }
  }

  lemma {:induction false} OneContext(history: seq<Arrival>, ctx: string)
    requires forall i :: 0 <= i < |history| ==> history[i].ctx == ctx
    ensures |InContext(history, ctx)| == |history|
    ensures forall i :: 0 <= i < |history| ==> InContext(history, ctx)[i] == history[i].ev
  {
    if history != [] { OneContext(history[1..], ctx); }
  }
}
