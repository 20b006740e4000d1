/**
 The two LRU caches that keep repeated events from being counted: a time-window cache for ADD events
 and a last-value cache for SET and DEL events.
 */
module EventCaches {
  import opened LruList
  import opened Numbers
  import opened Sequences

  datatype EventKey = EventKey(ctx: string, id: string, score: int)
  datatype StateKey = StateKey(ctx: string, id: string)

  const DELETED: int := -1

  /** Event time and arrival time of the last event accepted, or seen again, under a key. */
  datatype Stamp = Stamp(timestamp: nat, lastSeen: int)

  predicate WithinWindow(e: Stamp, timestamp: nat, now: int, window: nat) {
    var distance := if timestamp >= e.timestamp then timestamp - e.timestamp else e.timestamp - timestamp;
    distance <= window || (timestamp < e.timestamp && now - e.lastSeen <= window * NANOS_PER_SECOND)
  }

  /** What a use of a key leaves in a cache of the given capacity; a cache always holds at least one entry. */
  function Capacity(maxSize: nat): nat { if maxSize == 0 then 1 else maxSize }

  function UseMap<K, V>(order: seq<K>, values: map<K, V>, k: K, v: V, maxSize: nat): map<K, V> {
    var order' := Use(order, k, Capacity(maxSize));
    map x | x in values.Keys + {k} && x in order' :: if x == k then v else values[x]
  }

  lemma UseMapIs<K, V>(order: seq<K>, values: map<K, V>, k: K, v: V, maxSize: nat, kept: map<K, V>)
    requires forall x :: x in kept ==> x in values && kept[x] == values[x]
    requires forall x :: x in Use(order, k, Capacity(maxSize)) && x in values && x != k ==> x in kept
    requires forall x :: x in kept || x == k ==> x in Use(order, k, Capacity(maxSize))
    ensures UseMap(order, values, k, v, maxSize) == kept[k := v]
  {
  }

  lemma ValuesAre<K, V>(entries: map<K, Slot<V>>, k: K, slot: Slot<V>)
    ensures Values(entries).Keys == entries.Keys && (k in entries ==> Values(entries)[k] == entries[k].value)
    ensures Values(entries[k := slot]) == Values(entries)[k := slot.value]
    ensures Values(entries - {k}) == Values(entries) - {k}
  {
  }

  lemma RevaluedEntry<K, V>(list: seq<Node<K>>, entries: map<K, Slot<V>>, next: nat, k: K, v: V)
    requires LruMap(list, entries, next) && k in entries
    ensures LruMap(list, entries[k := Slot(v, entries[k].node)], next)
  {
    assert Iterators(entries[k := Slot(v, entries[k].node)]) == Iterators(entries);
  }

  /** What the cache code does to the map: hit, room for a new key, or eviction of the last key. */
  lemma UseMapCases<K, V>(order: seq<K>, values: map<K, V>, k: K, v: V, maxSize: nat)
    requires Distinct(order) && |order| <= Capacity(maxSize)
    requires (forall x :: x in order ==> x in values) && (forall x :: x in values ==> x in order)
    ensures k !in values && |order| >= maxSize && order != [] ==>
      UseMap(order, values, k, v, maxSize) == (values - {order[|order| - 1]})[k := v]
    ensures k in values || |order| < maxSize || order == [] ==> UseMap(order, values, k, v, maxSize) == values[k := v]
  {
    hide Use, UseMap, Distinct, Without;
    UseCases(order, k, Capacity(maxSize));
    WithoutMembers(order, k);
    if k !in values && |order| >= maxSize && order != [] {
      var n := |order| - 1;
      WithoutLast(order);
      WithoutMembers(order, order[n]);
      UseMapIs(order, values, k, v, maxSize, values - {order[n]});
    } else {
      UseMapIs(order, values, k, v, maxSize, values);
    }
  }

  class DedupCache {
    const maxSize: nat
    const window: nat
    var lru: seq<Node<EventKey>>
    var cache: map<EventKey, Slot<Stamp>>
    var nextNode: nat

    ghost predicate Valid()
      reads this
    {
      LruMap(lru, cache, nextNode) && |lru| <= Capacity(maxSize)
    }

    ghost function Order(): seq<EventKey>
      reads this
    {
      KeysOf(lru)
    }

    ghost function Stamps(): map<EventKey, Stamp>
      reads this
    {
      Values(cache)
    }

    constructor (maxSize: nat, window: nat)
      ensures Valid() && Order() == [] && Stamps() == map[] && this.maxSize == maxSize && this.window == window
    {
      this.maxSize, this.window := maxSize, window;
      lru, cache, nextNode := [], map[], 0;
    }

    /** Preview of a check, changing nothing. */
    method WouldDeduplicate(key: EventKey, timestamp: nat, now: int) returns (r: bool)
      ensures r <==> window > 0 && key in Stamps() && var e := Stamps()[key];
        || e.timestamp - window <= timestamp <= e.timestamp + window
        || (timestamp < e.timestamp && now - e.lastSeen <= window * 1_000_000_000)
    {
      r := window != 0 && key in cache && WithinWindow(cache[key].value, timestamp, now, window);
    }

    /** Tests for a duplicate and records the event; the key becomes the most recently used either way. */
    method CheckAndInsert(key: EventKey, timestamp: nat, now: int) returns (duplicate: bool)
      requires Valid()
      modifies this
      ensures Valid()
      ensures duplicate <==> window > 0 && key in old(Stamps()) && var e := old(Stamps())[key];
        || e.timestamp - window <= timestamp <= e.timestamp + window
        || (timestamp < e.timestamp && now - e.lastSeen <= window * 1_000_000_000)
      ensures window == 0 ==> unchanged(this)
      ensures window > 0 ==>
        && Order() == Use(old(Order()), key, Capacity(maxSize))
        && Stamps() == UseMap(old(Order()), old(Stamps()), key,
             if duplicate then Stamp(old(Stamps())[key].timestamp, now) else Stamp(timestamp, now), maxSize)
    {
      hide LruMap, KeysOf, Unlink, Without, Use, UseMap, Values, Distinct;
      if window == 0 { return false; }
      LruMapKeys(lru, cache, nextNode);
      ValuesAre(cache, key, Slot(Stamp(timestamp, now), nextNode));
      duplicate := key in cache && WithinWindow(cache[key].value, timestamp, now, window);
      var stamp := if duplicate then Stamp(cache[key].value.timestamp, now) else Stamp(timestamp, now);
      UseMapCases(KeysOf(lru), Values(cache), key, stamp, maxSize);
      UseCases(KeysOf(lru), key, Capacity(maxSize));
      if key in cache {
        SpliceEntry(lru, cache, nextNode, key, stamp);
        var node := cache[key].node;
        ValuesAre(cache, key, Slot(stamp, node));
        lru := [Node(node, key)] + Unlink(lru, node);
        cache := cache[key := Slot(stamp, node)];
      } else {
        if |cache| >= maxSize { EvictLRU(); }
        PushEntry(lru, cache, nextNode, key, stamp);
        ValuesAre(cache, key, Slot(stamp, nextNode));
        lru := [Node(nextNode, key)] + lru;
        cache := cache[key := Slot(stamp, nextNode)];
        nextNode := nextNode + 1;
      }
    }

    method EvictLRU()
      requires Valid()
      modifies this
      ensures Valid() && (old(lru) == [] ==> unchanged(this))
      ensures old(lru) != [] ==> var n := |old(lru)| - 1;
        && Order() == old(Order())[..n] && |lru| == n
        && Stamps() == old(Stamps()) - {old(Order())[n]} && cache == old(cache) - {old(Order())[n]}
    {
      hide LruMap, KeysOf;
      if lru == [] { return; }
      EvictEntry(lru, cache, nextNode);
      cache := cache - {lru[|lru| - 1].key};
      lru := lru[..|lru| - 1];
    }

    method Clear()
      modifies this
      ensures Valid() && Order() == [] && Stamps() == map[]
    {
      lru, cache := [], map[];
    }
  }

  class StateCache {
    const maxSize: nat
    var lru: seq<Node<StateKey>>
    var states: map<StateKey, Slot<int>>
    var nextNode: nat

    ghost predicate Valid()
      reads this
    {
      LruMap(lru, states, nextNode) && |lru| <= Capacity(maxSize)
    }

    ghost function Order(): seq<StateKey>
      reads this
    {
      KeysOf(lru)
    }

    ghost function States(): map<StateKey, int>
      reads this
    {
      Values(states)
    }

    constructor (maxSize: nat)
      ensures Valid() && Order() == [] && States() == map[] && this.maxSize == maxSize
    {
      this.maxSize := maxSize;
      lru, states, nextNode := [], map[], 0;
    }

    method WouldDeduplicateSet(key: StateKey, score: int) returns (r: bool)
      ensures r <==> key in States() && States()[key] == score
    {
      r := key in states && states[key].value == score;
    }

    method WouldDeduplicateDel(key: StateKey) returns (r: bool)
      ensures r <==> key in States() && States()[key] == DELETED
    {
      r := WouldDeduplicateSet(key, DELETED);
    }

    /** Tests whether the last state already is `score`, and records it. */
    method CheckAndUpdateSet(key: StateKey, score: int) returns (duplicate: bool)
      requires Valid()
      modifies this
      ensures Valid()
      ensures duplicate <==> key in old(States()) && old(States())[key] == score
      ensures Order() == Use(old(Order()), key, Capacity(maxSize))
      ensures States() == UseMap(old(Order()), old(States()), key, score, maxSize)
    {
      duplicate := key in states && states[key].value == score;
      UpdateScore(key, score);
    }

    method CheckAndMarkDeleted(key: StateKey) returns (duplicate: bool)
      requires Valid()
      modifies this
      ensures Valid()
      ensures duplicate <==> key in old(States()) && old(States())[key] == DELETED
      ensures Order() == Use(old(Order()), key, Capacity(maxSize))
      ensures States() == UseMap(old(Order()), old(States()), key, DELETED, maxSize)
    {
      duplicate := CheckAndUpdateSet(key, DELETED);
    }

    /** Records a state; the key becomes the most recently used. */
    method UpdateScore(key: StateKey, score: int)
      requires Valid()
      modifies this
      ensures Valid()
      ensures Order() == Use(old(Order()), key, Capacity(maxSize))
      ensures States() == UseMap(old(Order()), old(States()), key, score, maxSize)
    {
      hide LruMap, KeysOf, Unlink, Without, Use, UseMap, Values, Distinct;
      LruMapKeys(lru, states, nextNode);
      ValuesAre(states, key, Slot(score, nextNode));
      UseMapCases(KeysOf(lru), Values(states), key, score, maxSize);
      UseCases(KeysOf(lru), key, Capacity(maxSize));
      if key in states {
        ValuesAre(states, key, Slot(score, states[key].node));
        RevaluedEntry(lru, states, nextNode, key, score);
        states := states[key := Slot(score, states[key].node)];
        TouchLocked(key);
      } else {
        EvictIfFull();
        PushNewest(key, score);
      }
    }

    /** Moves a resident key to the front, with a new list node. */
    method TouchLocked(key: StateKey)
      requires Valid() && key in states
      modifies this
      ensures Valid() && Order() == [key] + Without(old(Order()), key) && States() == old(States())
    {
      hide LruMap, KeysOf, Unlink, Without, Distinct, Values;
      LruMapKeys(lru, states, nextNode);
      ValuesAre(states, key, Slot(states[key].value, nextNode));
      RelinkEntry(lru, states, nextNode, key, states[key].value);
      var again := states[key := Slot(states[key].value, nextNode)];
      lru := [Node(nextNode, key)] + Unlink(lru, states[key].node);
      states := again;
      nextNode := nextNode + 1;
      LruMapKeys(lru, states, nextNode);
    }

    method PushNewest(key: StateKey, score: int)
      requires LruMap(lru, states, nextNode) && key !in states && |lru| < Capacity(maxSize)
      modifies this
      ensures Valid() && Order() == [key] + old(Order()) && States() == old(States())[key := score]
    {
      hide LruMap, KeysOf, Values;
      PushEntry(lru, states, nextNode, key, score);
      ValuesAre(states, key, Slot(score, nextNode));
      lru := [Node(nextNode, key)] + lru;
      states := states[key := Slot(score, nextNode)];
      nextNode := nextNode + 1;
    }

    method EvictIfFull()
      requires Valid()
      modifies this
      ensures Valid()
      ensures |old(states)| < maxSize || old(lru) == [] ==> unchanged(this)
      ensures |old(states)| >= maxSize && old(lru) != [] ==> var n := |old(lru)| - 1;
        && Order() == old(Order())[..n] && |lru| == n
        && States() == old(States()) - {old(Order())[n]} && states == old(states) - {old(Order())[n]}
    {
      hide LruMap, KeysOf;
      if |states| >= maxSize && lru != [] {
        EvictEntry(lru, states, nextNode);
        states := states - {lru[|lru| - 1].key};
        lru := lru[..|lru| - 1];
      }
    }

    method Clear()
      modifies this
      ensures Valid() && Order() == [] && States() == map[]
    {
      lru, states := [], map[];
    }
  }
}
