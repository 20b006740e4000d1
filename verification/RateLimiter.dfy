/** A token bucket for each client, the buckets of the most recent clients kept. */
module RateLimiting {
  import opened LruList
  import opened Sequences

  // ---------- One bucket ----------

  /** Tokens and the time of the last refill, in seconds. */
  datatype Bucket = Bucket(tokens: real, lastRefill: real)

  function Earned(rate: int, seconds: real): real { seconds * (rate as real) }

  function Lesser(x: real, y: real): real { if x <= y then x else y }

  function Refilled(capacity: int, rate: int, b: Bucket, now: real): real {
    Lesser(capacity as real, b.tokens + Earned(rate, now - b.lastRefill))
  }

  /** The bucket of a client after a request, by the bucket before, if there was one. */
  function Opened(capacity: int, now: real): Bucket { Bucket(capacity as real - 1.0, now) }

  function Used(capacity: int, rate: int, b: Bucket, now: real): Bucket {
    var tokens := Refilled(capacity, rate, b, now);
    Bucket(if tokens >= 1.0 then tokens - 1.0 else tokens, now)
  }

  predicate Admits(capacity: int, rate: int, b: Bucket, now: real) { Refilled(capacity, rate, b, now) >= 1.0 }

  // ---------- Which requests a bucket admits ----------

  /** Request times of one client, never running backwards, from the one that opened its bucket on. */
  predicate Forward(times: seq<real>) { forall i, j :: 0 <= i <= j < |times| ==> times[i] <= times[j] }

  function After(capacity: int, rate: int, times: seq<real>): Bucket
    requires times != []
    decreases |times|
  {
    var n := |times| - 1;
    if n == 0 then Opened(capacity, times[0]) else Used(capacity, rate, After(capacity, rate, times[..n]), times[n])
  }

  /** Whether the last of the requests is admitted; the first always is. */
  predicate Admitted(capacity: int, rate: int, times: seq<real>)
    requires times != []
  {
    var n := |times| - 1;
    n == 0 || Admits(capacity, rate, After(capacity, rate, times[..n]), times[n])
  }

  /** How many of the requests from the j-th on are admitted. */
  function Admissions(capacity: int, rate: int, times: seq<real>, j: nat): nat
    decreases |times|
  {
    if |times| <= j then 0
    else Admissions(capacity, rate, times[..|times| - 1], j) + if Admitted(capacity, rate, times) then 1 else 0
  }

  /** What the limit leaves for one more request at time `now`, counted from the j-th request on. */
  function Allowance(capacity: int, rate: int, times: seq<real>, j: nat, now: real): real
    requires j < |times|
  {
    capacity as real + Earned(rate, now - times[j]) - (Admissions(capacity, rate, times, j) as real)
  }

  /** Tokens a request at time `now` finds: the capacity, or less by what was admitted since some earlier request. */
  ghost predicate Tight(capacity: int, rate: int, times: seq<real>, now: real, tokens: real)
  {
    && tokens <= capacity as real
    && (forall j :: 0 <= j < |times| ==> tokens <= Allowance(capacity, rate, times, j, now))
    && (tokens == capacity as real || exists j :: 0 <= j < |times| && tokens == Allowance(capacity, rate, times, j, now))
  }

  lemma EarnedAdds(rate: int, x: real, y: real)
    ensures Earned(rate, x + y) == Earned(rate, x) + Earned(rate, y)
    ensures rate >= 0 && x >= 0.0 ==> Earned(rate, x) >= 0.0
    ensures Earned(rate, 0.0) == 0.0
  {
    var r := rate as real;
    assert (x + y) * r == x * r + y * r;
  }

  lemma AllowanceMore(capacity: int, rate: int, times: seq<real>, t: real, j: nat, now: real)
    requires j < |times|
    ensures var all := times + [t];
      Allowance(capacity, rate, all, j, now) ==
        Allowance(capacity, rate, times, j, t) + Earned(rate, now - t) - (if Admitted(capacity, rate, all) then 1.0 else 0.0)
  {
    hide Admitted, Earned;
    var all := times + [t];
    assert all[..|all| - 1] == times;
    EarnedAdds(rate, t - times[j], now - t);
    assert (t - times[j]) + (now - t) == now - times[j];
  }

  lemma AllowanceOfLast(capacity: int, rate: int, times: seq<real>, t: real, now: real)
    ensures var all := times + [t];
      Allowance(capacity, rate, all, |times|, now) ==
        capacity as real + Earned(rate, now - t) - (if Admitted(capacity, rate, all) then 1.0 else 0.0)
  {
    var all := times + [t];
    assert all[..|all| - 1] == times;
    assert Admissions(capacity, rate, times, |times|) == 0;
  }

  /** Tokens found by a request, over the whole past. */
  lemma {:induction false} TokensAreTight(capacity: int, rate: int, times: seq<real>, now: real)
    requires times != [] && Forward(times + [now]) && capacity >= 1 && rate >= 0
    ensures Tight(capacity, rate, times, now, Refilled(capacity, rate, After(capacity, rate, times), now))
    decreases |times|
  {
    hide Earned, Allowance, Admissions, After, Admitted;
    var n := |times| - 1;
    var past, t := times[..n], times[n];
    assert times == past + [t];
    EarnedAdds(rate, now - t, 0.0);
    assert t <= now by { assert (times + [now])[n] == t && (times + [now])[n + 1] == now; }
    AllowanceOfLast(capacity, rate, past, t, now);
    LastStep(capacity, rate, times);
    if n > 0 {
      ForwardPart(times, now);
      TokensAreTight(capacity, rate, past, t);
      forall j | 0 <= j < n
        ensures Allowance(capacity, rate, times, j, now) ==
          Allowance(capacity, rate, past, j, t) + Earned(rate, now - t) - (if Admitted(capacity, rate, times) then 1.0 else 0.0)
      {
        AllowanceMore(capacity, rate, past, t, j, now);
      }
      TightStep(capacity, rate, times, now);
    }
  }

  lemma ForwardPart(times: seq<real>, now: real)
    requires times != [] && Forward(times + [now])
    ensures Forward(times[..|times| - 1] + [times[|times| - 1]])
  {
    var part := times[..|times| - 1] + [times[|times| - 1]];
    assert forall i :: 0 <= i < |part| ==> part[i] == (times + [now])[i];
  }

  /** The bucket after the last request. */
  lemma LastStep(capacity: int, rate: int, times: seq<real>)
    requires times != []
    ensures var n := |times| - 1; var b := After(capacity, rate, times);
      && b.lastRefill == times[n]
      && (n == 0 ==> b.tokens == capacity as real - 1.0 && Admitted(capacity, rate, times))
      && (n > 0 ==>
            var found := Refilled(capacity, rate, After(capacity, rate, times[..n]), times[n]);
            && b.tokens == found - (if Admitted(capacity, rate, times) then 1.0 else 0.0)
            && (Admitted(capacity, rate, times) <==> found >= 1.0))
  {
  }

  lemma TightStep(capacity: int, rate: int, times: seq<real>, now: real)
    requires |times| > 1 && capacity >= 1 && Earned(rate, now - times[|times| - 1]) >= 0.0
    requires var n := |times| - 1; var past, t := times[..n], times[n];
      && Tight(capacity, rate, past, t, Refilled(capacity, rate, After(capacity, rate, past), t))
      && (forall j :: 0 <= j < n ==>
            Allowance(capacity, rate, times, j, now)
              == Allowance(capacity, rate, past, j, t) + Earned(rate, now - t) - (if Admitted(capacity, rate, times) then 1.0 else 0.0))
      && Allowance(capacity, rate, times, n, now) ==
            capacity as real + Earned(rate, now - t) - (if Admitted(capacity, rate, times) then 1.0 else 0.0)
    ensures Tight(capacity, rate, times, now, Refilled(capacity, rate, After(capacity, rate, times), now))
  {
    hide Earned, Allowance, Admissions, After, Admitted;
    LastStep(capacity, rate, times);
    var n := |times| - 1;
    var past, t := times[..n], times[n];
    var found := Refilled(capacity, rate, After(capacity, rate, past), t);
    if found != capacity as real {
      var j :| 0 <= j < |past| && found == Allowance(capacity, rate, past, j, t);
      assert Allowance(capacity, rate, times, j, now)
          == found + Earned(rate, now - t) - (if Admitted(capacity, rate, times) then 1.0 else 0.0);
    }
  }

  lemma AdmittedIffEarned(capacity: int, rate: int, times: seq<real>, now: real)
    requires times != [] && Forward(times + [now]) && capacity >= 1 && rate >= 0
    ensures Admitted(capacity, rate, times + [now]) <==>
      forall j :: 0 <= j < |times| ==>
        Admissions(capacity, rate, times, j) as real + 1.0 <= capacity as real + Earned(rate, now - times[j])
  {
    hide Earned, Admissions, After;
    TokensAreTight(capacity, rate, times, now);
    var all := times + [now];
    assert all[..|all| - 1] == times;
    var tokens := Refilled(capacity, rate, After(capacity, rate, times), now);
    forall j | 0 <= j < |times|
      ensures Allowance(capacity, rate, times, j, now) ==
        capacity as real + Earned(rate, now - times[j]) - (Admissions(capacity, rate, times, j) as real)
    {
    }
  }

  lemma {:induction false} RateIsEarned(capacity: int, rate: int, times: seq<real>, j: nat)
    requires Forward(times) && capacity >= 1 && rate >= 0 && j < |times|
    ensures Admissions(capacity, rate, times, j) as real <= capacity as real + Earned(rate, times[|times| - 1] - times[j])
    decreases |times|
  {
    hide Earned, After, Admits;
    var n := |times| - 1;
    var past, t := times[..n], times[n];
    assert times == past + [t];
    if j == n {
      assert Admissions(capacity, rate, past, j) == 0;
      EarnedAdds(rate, 0.0, 0.0);
    } else {
      RateIsEarned(capacity, rate, past, j);
      AdmittedIffEarned(capacity, rate, past, t);
      EarnedAdds(rate, past[n - 1] - past[j], t - past[n - 1]);
      EarnedAdds(rate, t - past[n - 1], 0.0);
      assert (past[n - 1] - past[j]) + (t - past[n - 1]) == t - times[j];
    }
  }

  /**
   The bucket is exactly the limit it stands for: a request is admitted if and only if, counted from every
   earlier request of the client, it keeps the number admitted within the capacity plus what was refilled since.
   */
  lemma AdmittedIffWithinLimit(capacity: int, rate: int, times: seq<real>, now: real)
    requires times != [] && Forward(times + [now]) && capacity >= 1 && rate >= 0
    ensures Admitted(capacity, rate, times + [now]) <==>
      forall j :: 0 <= j < |times| ==>
        Admissions(capacity, rate, times, j) as real + 1.0 <= capacity as real + (now - times[j]) * (rate as real)
  {
    AdmittedIffEarned(capacity, rate, times, now);
    forall j | 0 <= j < |times| ensures Earned(rate, now - times[j]) == (now - times[j]) * (rate as real) {}
    hide Earned, Admitted, Admissions;
  }

  /** Between any two requests of a client, at most the capacity plus what was refilled is admitted. */
  lemma RateIsBounded(capacity: int, rate: int, times: seq<real>, j: nat)
    requires Forward(times) && capacity >= 1 && rate >= 0 && j < |times|
    ensures Admissions(capacity, rate, times, j) as real <= capacity as real + (times[|times| - 1] - times[j]) * (rate as real)
  {
    RateIsEarned(capacity, rate, times, j);
  }

  /** Tokens stay between 0 and any capacity the configuration may have, which is at least one; a smaller one would start below 0. */
  lemma {:induction false} TokensStayInRange(capacity: int, rate: int, times: seq<real>)
    requires times != [] && Forward(times) && rate >= 0
    ensures capacity >= 1 ==> 0.0 <= After(capacity, rate, times).tokens <= capacity as real
    ensures capacity < 1 ==> After(capacity, rate, times[..1]).tokens < 0.0
    decreases |times|
  {
    hide Earned;
    LastStep(capacity, rate, times);
    var n := |times| - 1;
    if n > 0 {
      var past := times[..n];
      TokensStayInRange(capacity, rate, past);
      LastStep(capacity, rate, past);
      EarnedAdds(rate, times[n] - times[n - 1], 0.0);
    }
  }

  // ---------- The limiter ----------

  class RateLimiter {
    const capacity: int
    const refillRate: int
    const maxClients: int
    var buckets: map<string, Bucket>
    var lru: seq<Node<string>>
    var lruMap: map<string, nat>
    var nextNode: nat

    function Room(): nat { if maxClients <= 1 then 1 else maxClients }

    /** Buckets, list and iterators hold the same clients, no more than there is room for. */
    ghost predicate Valid()
      reads this
    {
      Linked(lru, lruMap, nextNode) && lruMap.Keys == buckets.Keys && |lru| <= Room()
    }

    ghost function Clients(): seq<string>
      reads this
    {
      KeysOf(lru)
    }

    constructor (capacity: int, refillRate: int, maxClients: int)
      ensures Valid() && Clients() == [] && buckets == map[]
      ensures this.capacity == capacity && this.refillRate == refillRate && this.maxClients == maxClients
    {
      this.capacity, this.refillRate, this.maxClients := capacity, refillRate, maxClients;
      buckets, lru, lruMap, nextNode := map[], [], map[], 0;
    }

    /** Whether a request of a client at time `now` is admitted; the client becomes the most recent one. */
    method Allow(client: string, now: real) returns (allowed: bool)
      requires Valid()
      modifies this
      ensures Valid() && Clients() == Use(old(Clients()), client, Room())
      ensures client !in old(buckets) ==>
        allowed && client in buckets && buckets[client] == Opened(capacity, now)
        && forall k :: k in buckets && k != client ==> k in old(buckets) && buckets[k] == old(buckets)[k]
      ensures client in old(buckets) ==>
        && allowed == Admits(capacity, refillRate, old(buckets)[client], now)
        && buckets == old(buckets)[client := Used(capacity, refillRate, old(buckets)[client], now)]
    {
      hide Linked, KeysOf, Without, Use, Refilled;
      if client !in buckets {
        OpenBucket(client, now);
        return true;
      }
      var tokens := Refilled(capacity, refillRate, buckets[client], now);
      MoveToFront(client);
      allowed := tokens >= 1.0;
      buckets := buckets[client := Bucket(if allowed then tokens - 1.0 else tokens, now)];
    }

    /** A first request: an almost full bucket, in place of the oldest one if there is no room. */
    method OpenBucket(client: string, now: real)
      requires Valid() && client !in buckets
      modifies this
      ensures Valid() && Clients() == Use(old(Clients()), client, Room())
      ensures client in buckets && buckets[client] == Opened(capacity, now)
      ensures forall k :: k in buckets && k != client ==> k in old(buckets) && buckets[k] == old(buckets)[k]
    {
      hide Linked, KeysOf, Without, Use;
      LinkedCount(lru, lruMap, nextNode);
      LinkedKeysDistinct(lru, lruMap, nextNode);
      UseCases(Clients(), client, Room());
      assert |buckets| == |buckets.Keys| == |lruMap.Keys| == |lru|;
      if |buckets| >= maxClients { EvictOldest(); }
      buckets := buckets[client := Bucket(capacity as real - 1.0, now)];
      PushNode(lru, lruMap, nextNode, client);
      lru := [Node(nextNode, client)] + lru;
      lruMap := lruMap[client := nextNode];
      nextNode := nextNode + 1;
    }

    method MoveToFront(client: string)
      requires Valid() && client in buckets
      modifies `lru, `lruMap, `nextNode
      ensures Valid() && Clients() == Use(old(Clients()), client, Room())
    {
      hide Linked, KeysOf, Unlink, Without, Use;
      LinkedCount(lru, lruMap, nextNode);
      LinkedKeysDistinct(lru, lruMap, nextNode);
      UseCases(Clients(), client, Room());
      EraseNode(lru, lruMap, nextNode, client);
      PushNode(Unlink(lru, lruMap[client]), lruMap - {client}, nextNode, client);
      assert (lruMap - {client})[client := nextNode] == lruMap[client := nextNode];
      lru := [Node(nextNode, client)] + Unlink(lru, lruMap[client]);
      lruMap := lruMap[client := nextNode];
      nextNode := nextNode + 1;
    }

    method EvictOldest()
      requires Valid()
      modifies this
      ensures Valid() && (old(lru) == [] ==> unchanged(this))
      ensures old(lru) != [] ==> var n := |old(lru)| - 1;
        && Clients() == old(Clients())[..n] && |lru| == n && buckets == old(buckets) - {old(Clients())[n]}
        && lruMap == old(lruMap) - {old(Clients())[n]}
    {
      hide Linked, KeysOf, Without, Unlink;
      if lru == [] { return; }
      var n := |lru| - 1;
      var oldest := lru[n].key;
      PopNode(lru, lruMap, nextNode);
      EraseNode(lru, lruMap, nextNode, oldest);
      buckets := buckets - {oldest};
      lruMap := lruMap - {oldest};
      lru := lru[..n];
    }
  }

  lemma LinkedKeysDistinct(list: seq<Node<string>>, it: map<string, nat>, next: nat)
    requires Linked(list, it, next)
    ensures Distinct(KeysOf(list))
  {
  }
}
