/** How long a cached result is served. */
module CacheLifetime {
  import opened Wrappers
  import opened LruList
  import opened SimilarityCacheModel

  /** The operations of the cache, with their arguments. */
  datatype Op =
    | Insert(key: CacheKey, results: Results, blob: Option<nat>, cost: real, now: int, ttl: int, ids: Option<seq<ItemId>>, growth: Growth)
    | Lookup(key: CacheKey, now: int, ttl: int, readable: bool)
    | Invalidate(id: ItemId)
    | Purge(now: int, ttl: int)
    | Mark(key: CacheKey)
    | Drop(key: CacheKey)
    | DropIf(p: CacheKey -> bool)
    | DropAll

  /** No operation changes an entry it leaves in the cache, except to mark it. */
  method Perform(c: SimilarityCache, op: Op)
    requires c.Valid()
    modifies c
    ensures c.Valid()
    ensures forall k :: k in old(c.entries) && k in c.entries ==>
      c.entries[k].entry == if op == Mark(k) then old(c.entries)[k].entry.(invalidated := true) else old(c.entries)[k].entry
  {
    hide WellFormed, Usage, KeysOf, Without, Keep, Track;
    match op {
      case Insert(key, results, blob, cost, now, ttl, ids, growth) =>
        var ok := c.InsertWithTtl(key, results, blob, cost, now, ttl, ids, growth);
      case Lookup(key, now, ttl, readable) =>
        var p := c.Probe(key, now, ttl, readable);
        c.Settle(key, p);
      case Invalidate(id) => var n := c.InvalidateByItemId(id);
      case Purge(now, ttl) => var n := c.PurgeExpired(now, ttl);
      case Mark(key) => var found := c.MarkInvalidated(key);
      case Drop(key) => var found := c.Erase(key);
      case DropIf(p) => c.ClearIf(p);
      case DropAll => c.Clear();
    }
  }

  /** `kept` says that the key has stayed in the cache all the time, and unmarked. */
  method PerformAll(c: SimilarityCache, ops: seq<Op>, key: CacheKey) returns (ghost kept: bool)
    requires c.Valid()
    modifies c
    ensures c.Valid()
    ensures kept ==> key in old(c.entries) && key in c.entries && c.entries[key].entry == old(c.entries)[key].entry
  {
    hide WellFormed, Usage, KeysOf;
    kept := key in c.entries;
    for i := 0 to |ops|
      invariant c.Valid()
      invariant kept ==> key in old(c.entries) && key in c.entries && c.entries[key].entry == old(c.entries)[key].entry
    {
      Perform(c, ops[i]);
      kept := kept && key in c.entries && ops[i] != Mark(key);
    }
  }

  /**
   Whatever else is done with the cache, while a key stays in it unmarked, a lookup finds its results exactly as long
   as both the lifetime they were inserted with and the one of the lookup allow, in seconds on a clock of nanoseconds.
   */
  method LookupAfterInsert(c: SimilarityCache, key: CacheKey, results: Results, blob: Option<nat>, cost: real, now: int, ttl: int,
                           ids: Option<seq<ItemId>>, growth: Growth, ops: seq<Op>, later: int, lookupTtl: int, readable: bool)
    returns (ok: bool, p: ProbeResult, ghost kept: bool)
    requires c.Valid()
    modifies c
    ensures c.Valid()
    ensures ok && kept ==>
      && (p.Hit? <==> c.enabled && readable && (ttl <= 0 || later < now + ttl * 1_000_000_000)
                      && (lookupTtl <= 0 || later - now < lookupTtl * 1_000_000_000))
      && (p.Hit? ==> p.results == results)
  {
    hide WellFormed, Usage, KeysOf, Track;
    ok := c.InsertWithTtl(key, results, blob, cost, now, ttl, ids, growth);
    kept := PerformAll(c, ops, key);
    p := c.Probe(key, later, lookupTtl, readable);
  }

  /** A purge keeps it exactly as long as a lookup under the same lifetime would find it. */
  method PurgeAfterInsert(c: SimilarityCache, key: CacheKey, results: Results, blob: Option<nat>, cost: real, now: int, ttl: int,
                          ids: Option<seq<ItemId>>, growth: Growth, ops: seq<Op>, later: int, purgeTtl: int)
    returns (ok: bool, ghost kept: bool)
    requires c.Valid()
    modifies c
    ensures c.Valid()
    ensures ok && kept ==>
      (key in c.entries <==> (ttl <= 0 || later < now + ttl * 1_000_000_000) && (purgeTtl <= 0 || later - now < purgeTtl * 1_000_000_000))
  {
    hide WellFormed, Usage, KeysOf, Track;
    ok := c.InsertWithTtl(key, results, blob, cost, now, ttl, ids, growth);
    kept := PerformAll(c, ops, key);
    var count := c.PurgeExpired(later, purgeTtl);
  }
}
