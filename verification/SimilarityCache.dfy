/**
 The LRU cache of search results: recency list, entry map, reverse index from item ids to the entries
 that list them, and the estimated memory they take together.
 */
module SimilarityCacheModel {
  import opened Wrappers
  import opened LruList
  import opened Numbers
  import opened Sets
  import opened Sequences

  type CacheKey = string
  type ItemId = string
  type Results = seq<(string, real)>

  const MAX_TRACKED_ITEMS: nat := 50

  /** Absolute expiry of an entry; `Never` is the maximal time point. */
  datatype Expiry = Never | At(time: int)

  /** `bytes` is what the entry's own buffers and reference strings are estimated at. */
  datatype Entry = Entry(
    results: Results, createdAt: int, expiresAt: Expiry, invalidated: bool, refs: seq<ItemId>, bytes: nat)

  /** A map element: the entry and its iterator into the recency list. */
  datatype CacheSlot = CacheSlot(entry: Entry, node: nat)

  /** Object sizes of the platform. */
  datatype Sizes = Sizes(cachedEntry: nat, key: nat, slot: nat, listNode: nat, setNode: nat)

  /** Capacities the allocator picks when an entry is inserted or given references. */
  datatype Growth = Growth(entryBytes: nat, tableBytes: nat, rowBytes: ItemId -> nat)

  // ---------- The reverse index ----------

  /** The entries that list an item. */
  function Listers(entries: map<CacheKey, CacheSlot>, id: ItemId): set<CacheKey> {
    set k | k in entries && id in entries[k].entry.refs
  }

  function ListedIds(entries: map<CacheKey, CacheSlot>): set<ItemId> {
    set k, id | k in entries && id in entries[k].entry.refs :: id
  }

  /** The reverse index an entry map determines; it has no empty row. */
  function ReverseOf(entries: map<CacheKey, CacheSlot>): map<ItemId, set<CacheKey>> {
    map id | id in ListedIds(entries) :: Listers(entries, id)
  }

  /** What makes a map the reverse index of an entry map. */
  ghost predicate IsReverse(entries: map<CacheKey, CacheSlot>, reverse: map<ItemId, set<CacheKey>>) {
    forall id :: (id in reverse <==> Listers(entries, id) != {}) && (id in reverse ==> reverse[id] == Listers(entries, id))
  }

  lemma ReverseIsUnique(entries: map<CacheKey, CacheSlot>, reverse: map<ItemId, set<CacheKey>>)
    ensures IsReverse(entries, reverse) <==> reverse == ReverseOf(entries)
  {
    forall id ensures id in ListedIds(entries) <==> Listers(entries, id) != {} {
      if id in ListedIds(entries) {
        var k :| k in entries && id in entries[k].entry.refs;
        assert k in Listers(entries, id);
      }
    }
    if IsReverse(entries, reverse) {
      assert reverse.Keys == ReverseOf(entries).Keys;
    }
  }

  /** References an entry ends up with: new ids in order, without repeats, up to the tracking limit. */
  function Track(refs: seq<ItemId>, ids: seq<ItemId>): seq<ItemId>
    decreases |ids|
  {
    if ids == [] || |refs| >= MAX_TRACKED_ITEMS then refs
    else if ids[0] in refs then Track(refs, ids[1..])
    else Track(refs + [ids[0]], ids[1..])
  }

  /** Tracking keeps what was there, never repeats an id, and below the limit loses none. */
  lemma {:induction false} TrackIsComplete(refs: seq<ItemId>, ids: seq<ItemId>)
    requires Distinct(refs) && |refs| <= MAX_TRACKED_ITEMS
    ensures var t := Track(refs, ids);
      && Distinct(t) && |t| <= MAX_TRACKED_ITEMS && refs <= t
      && (forall id :: id in t ==> id in refs || id in ids)
      && (|t| < MAX_TRACKED_ITEMS ==> forall id :: id in ids ==> id in t)
    decreases |ids|
  {
    if ids != [] && |refs| < MAX_TRACKED_ITEMS {
      assert ids == [ids[0]] + ids[1..];
      if ids[0] in refs {
        TrackIsComplete(refs, ids[1..]);
      } else {
        DistinctSnoc(refs, ids[0]);
        TrackIsComplete(refs + [ids[0]], ids[1..]);
        assert (refs + [ids[0]])[|refs|] == ids[0];
        assert refs == (refs + [ids[0]])[..|refs|];
      }
    }
  }

  lemma {:induction false} DistinctSnoc(s: seq<ItemId>, x: ItemId)
    requires Distinct(s) && x !in s
    ensures Distinct(s + [x])
  {
    if s != [] {
      assert (s + [x])[1..] == s[1..] + [x];
      DistinctSnoc(s[1..], x);
    }
  }

  /** The distinct ids of a sequence in the order of their first appearance. */
  function FirstUses(ids: seq<ItemId>): seq<ItemId> {
    if ids == [] then [] else [ids[0]] + Without(FirstUses(ids[1..]), ids[0])
  }

  function Outside(s: seq<ItemId>, refs: seq<ItemId>): seq<ItemId> {
    if s == [] then [] else if s[0] in refs then Outside(s[1..], refs) else [s[0]] + Outside(s[1..], refs)
  }

  lemma {:induction false} OutsideWithout(s: seq<ItemId>, refs: seq<ItemId>, x: ItemId)
    ensures x in refs ==> Outside(Without(s, x), refs) == Outside(s, refs)
    ensures Outside(Without(s, x), refs) == Outside(s, refs + [x])
  {
    if s != [] { OutsideWithout(s[1..], refs, x); }
  }

  lemma {:induction false} TrackAppends(refs: seq<ItemId>, ids: seq<ItemId>)
    requires |refs| <= MAX_TRACKED_ITEMS
    ensures Track(refs, ids) == Take(refs + Outside(FirstUses(ids), refs), MAX_TRACKED_ITEMS)
    decreases |ids|
  {
    if ids != [] && |refs| < MAX_TRACKED_ITEMS {
      var x, rest := ids[0], FirstUses(ids[1..]);
      OutsideWithout(rest, refs, x);
      if x in refs {
        TrackAppends(refs, ids[1..]);
      } else {
        TrackAppends(refs + [x], ids[1..]);
        assert Outside(FirstUses(ids), refs) == [x] + Outside(rest, refs + [x]);
        assert refs + ([x] + Outside(rest, refs + [x])) == refs + [x] + Outside(rest, refs + [x]);
      }
    }
  }

  /**
   The items an entry can be invalidated through are the first fifty distinct ones it was registered
   with; for every later item only the generations in the key protect its readers.
   */
  lemma TrackedItems(ids: seq<ItemId>)
    ensures Track([], ids) == Take(FirstUses(ids), 50)
  {
    TrackAppends([], ids);
    OutsideNothing(FirstUses(ids));
    assert [] + FirstUses(ids) == FirstUses(ids);
  }

  lemma {:induction false} OutsideNothing(s: seq<ItemId>)
    ensures Outside(s, []) == s
  {
    if s != [] { OutsideNothing(s[1..]); }
  }

  /** Taking `key` out of the rows of the given items; a row left empty goes away. */
  function DropFromRows(reverse: map<ItemId, set<CacheKey>>, key: CacheKey, refs: seq<ItemId>): map<ItemId, set<CacheKey>> {
    map id | id in reverse && !(id in refs && reverse[id] - {key} == {})
      :: if id in refs then reverse[id] - {key} else reverse[id]
  }

  lemma DropOneMore(reverse: map<ItemId, set<CacheKey>>, key: CacheKey, refs: seq<ItemId>, id: ItemId)
    ensures var so := DropFromRows(reverse, key, refs);
      var next := DropFromRows(reverse, key, refs + [id]);
      next == if id !in so then so else if so[id] - {key} == {} then so - {id} else so[id := so[id] - {key}]
  {
    var so, next := DropFromRows(reverse, key, refs), DropFromRows(reverse, key, refs + [id]);
    assert forall x :: x in refs + [id] <==> x in refs || x == id;
    if id in so && id in refs { assert so[id] - {key} == so[id]; }
  }

  /** Erasing an entry from the rows it is listed in leaves the reverse index of the other entries. */
  lemma DropFromRowsIsReverse(entries: map<CacheKey, CacheSlot>, key: CacheKey, hidden: set<ItemId>)
    requires key in entries
    ensures DropFromRows(ReverseOf(entries) - hidden, key, entries[key].entry.refs) == ReverseOf(entries - {key}) - hidden
  {
    hide ReverseOf;
    var rest, refs := entries - {key}, entries[key].entry.refs;
    ReverseIsUnique(entries, ReverseOf(entries));
    var dropped := DropFromRows(ReverseOf(entries), key, refs);
    forall id
      ensures Listers(rest, id) == Listers(entries, id) - {key}
      ensures id in refs <==> key in Listers(entries, id)
    {
    }
    assert IsReverse(rest, dropped);
    ReverseIsUnique(rest, dropped);
  }

  // ---------- Memory ----------

  ghost function Sum<K>(m: map<K, nat>): nat {
    if m == map[] then 0 else var k :| k in m; m[k] + Sum(m - {k})
  }

  lemma {:induction false} SumSplit<K>(m: map<K, nat>, k: K)
    requires k in m
    ensures Sum(m) == m[k] + Sum(m - {k})
    decreases |m|
  {
    var j :| j in m && Sum(m) == m[j] + Sum(m - {j});
    if j != k {
      SumSplit(m - {j}, k);
      SumSplit(m - {k}, j);
      assert m - {j} - {k} == m - {k} - {j};
    }
  }

  lemma {:induction false} SumMonotone<K>(small: map<K, nat>, large: map<K, nat>)
    requires forall k :: k in small ==> k in large && small[k] <= large[k]
    ensures Sum(small) <= Sum(large)
    decreases |small|
  {
    if small != map[] {
      var k :| k in small;
      SumSplit(small, k);
      SumSplit(large, k);
      SumMonotone(small - {k}, large - {k});
    }
  }

  function EntryWeights(entries: map<CacheKey, CacheSlot>, sizes: Sizes): map<CacheKey, nat> {
    map k | k in entries :: sizes.slot + entries[k].entry.bytes
  }

  function RowWeights(reverse: map<ItemId, set<CacheKey>>, rows: ItemId -> nat, sizes: Sizes): map<ItemId, nat> {
    map id | id in reverse :: rows(id) + |reverse[id]| * sizes.setNode
  }

  /** The memory estimate: nothing at all for an empty cache, else tables, list, entries and index rows. */
  ghost function Usage(entries: map<CacheKey, CacheSlot>, reverse: map<ItemId, set<CacheKey>>,
                       tables: nat, rows: ItemId -> nat, sizes: Sizes): nat
  {
    if entries == map[] && reverse == map[] then 0
    else tables + |entries| * sizes.listNode + Sum(EntryWeights(entries, sizes)) + Sum(RowWeights(reverse, rows, sizes))
  }

  /** Dropping entries and index rows never raises the estimate. */
  lemma UsageShrinks(small: map<CacheKey, CacheSlot>, large: map<CacheKey, CacheSlot>,
                     r1: map<ItemId, set<CacheKey>>, r2: map<ItemId, set<CacheKey>>,
                     tables: nat, rows: ItemId -> nat, sizes: Sizes)
    requires forall k :: k in small ==> k in large && small[k].entry.bytes == large[k].entry.bytes
    requires forall id :: id in r1 ==> id in r2 && r1[id] <= r2[id]
    ensures Usage(small, r1, tables, rows, sizes) <= Usage(large, r2, tables, rows, sizes)
  {
    assert small.Keys <= large.Keys;
    SubsetSize(small.Keys, large.Keys);
    SumMonotone(EntryWeights(small, sizes), EntryWeights(large, sizes));
    forall id | id in r1 ensures |r1[id]| * sizes.setNode <= |r2[id]| * sizes.setNode {
      SubsetSize(r1[id], r2[id]);
      Scale(|r1[id]|, |r2[id]|, sizes.setNode);
    }
    SumMonotone(RowWeights(r1, rows, sizes), RowWeights(r2, rows, sizes));
    Scale(|small|, |large|, sizes.listNode);
  }

  lemma Scale(a: nat, b: nat, c: nat)
    requires a <= b
    ensures a * c <= b * c
  {
  }

  // ---------- The structure ----------

  function NodesOf(entries: map<CacheKey, CacheSlot>): map<CacheKey, nat> {
    map k | k in entries :: entries[k].node
  }

  /**
   List, map, counter and reverse index describe the same entries: list and map are in bijection through
   the iterators, and the index lists `k` under an item exactly when entry `k` references the item, with
   no empty row.  The rows of `hidden` items are taken out.
   */
  ghost predicate WellFormed(lru: seq<Node<CacheKey>>, entries: map<CacheKey, CacheSlot>, reverse: map<ItemId, set<CacheKey>>,
                             count: int, next: nat, hidden: set<ItemId>)
  {
    && Linked(lru, NodesOf(entries), next)
    && count == |entries|
    && (forall k :: k in entries ==> Distinct(entries[k].entry.refs) && |entries[k].entry.refs| <= MAX_TRACKED_ITEMS)
    && reverse == ReverseOf(entries) - hidden
  }

  lemma EraseKeepsWellFormed(lru: seq<Node<CacheKey>>, entries: map<CacheKey, CacheSlot>, reverse: map<ItemId, set<CacheKey>>,
                             count: int, next: nat, hidden: set<ItemId>, key: CacheKey)
    requires WellFormed(lru, entries, reverse, count, next, hidden) && key in entries
    ensures WellFormed(Unlink(lru, entries[key].node), entries - {key},
                       DropFromRows(reverse, key, entries[key].entry.refs), count - 1, next, hidden)
    ensures KeysOf(Unlink(lru, entries[key].node)) == Without(KeysOf(lru), key)
  {
    EraseNode(lru, NodesOf(entries), next, key);
    assert NodesOf(entries - {key}) == NodesOf(entries) - {key};
    DropFromRowsIsReverse(entries, key, hidden);
    assert (entries - {key}).Keys == entries.Keys - {key};
    assert |entries - {key}| == |entries| - 1;
  }

  /** Moving an entry's node to the front. */
  lemma TouchKeepsWellFormed(lru: seq<Node<CacheKey>>, entries: map<CacheKey, CacheSlot>, reverse: map<ItemId, set<CacheKey>>,
                             count: int, next: nat, key: CacheKey)
    requires WellFormed(lru, entries, reverse, count, next, {}) && key in entries
    ensures var moved := [Node(next, key)] + Unlink(lru, entries[key].node);
      && WellFormed(moved, entries[key := entries[key].(node := next)], reverse, count, next + 1, {})
      && KeysOf(moved) == [key] + Without(KeysOf(lru), key)
  {
    hide Linked, ReverseOf, KeysOf, Without, Unlink, Distinct;
    EraseNode(lru, NodesOf(entries), next, key);
    var rest := Unlink(lru, entries[key].node);
    PushNode(rest, NodesOf(entries) - {key}, next, key);
    var entries' := entries[key := entries[key].(node := next)];
    assert NodesOf(entries') == (NodesOf(entries) - {key})[key := next];
    assert entries'.Keys == entries.Keys;
    SameReferences(entries, entries');
  }

  lemma SameReferences(a: map<CacheKey, CacheSlot>, b: map<CacheKey, CacheSlot>)
    requires forall id :: Listers(a, id) == Listers(b, id)
    ensures ReverseOf(a) == ReverseOf(b)
  {
    ReverseIsUnique(a, ReverseOf(a));
    ReverseIsUnique(b, ReverseOf(a));
  }

  /** Adding an entry without references at the front. */
  lemma InsertKeepsWellFormed(lru: seq<Node<CacheKey>>, entries: map<CacheKey, CacheSlot>, reverse: map<ItemId, set<CacheKey>>,
                              count: int, next: nat, key: CacheKey, entry: Entry)
    requires WellFormed(lru, entries, reverse, count, next, {}) && key !in entries && entry.refs == []
    ensures WellFormed([Node(next, key)] + lru, entries[key := CacheSlot(entry, next)], reverse, count + 1, next + 1, {})
    ensures KeysOf([Node(next, key)] + lru) == [key] + KeysOf(lru)
  {
    hide Linked, ReverseOf, KeysOf, Listers, NodesOf;
    OneMoreEntry(entries, key, CacheSlot(entry, next));
    PushNode(lru, NodesOf(entries), next, key);
    NothingListed(entries, key, entry, next);
    SameReferences(entries, entries[key := CacheSlot(entry, next)]);
  }

  lemma OneMoreEntry(entries: map<CacheKey, CacheSlot>, key: CacheKey, slot: CacheSlot)
    requires key !in entries
    ensures key !in NodesOf(entries) && NodesOf(entries[key := slot]) == NodesOf(entries)[key := slot.node]
    ensures |entries[key := slot]| == |entries| + 1
  {
    assert entries[key := slot].Keys == entries.Keys + {key};
  }

  lemma NothingListed(entries: map<CacheKey, CacheSlot>, key: CacheKey, entry: Entry, next: nat)
    requires key !in entries && entry.refs == []
    ensures forall id :: Listers(entries[key := CacheSlot(entry, next)], id) == Listers(entries, id)
  {
  }

  /** Adding `key` to the rows of the given items. */
  function AddToRows(reverse: map<ItemId, set<CacheKey>>, key: CacheKey, refs: seq<ItemId>): map<ItemId, set<CacheKey>> {
    map id | id in reverse.Keys + (set r | r in refs)
      :: (if id in reverse then reverse[id] else {}) + (if id in refs then {key} else {})
  }

  lemma AddToRowsAt(reverse: map<ItemId, set<CacheKey>>, key: CacheKey, refs: seq<ItemId>, id: ItemId)
    ensures var so := AddToRows(reverse, key, refs);
      && (id in so <==> id in reverse || id in refs)
      && (id in so ==> so[id] == (if id in reverse then reverse[id] else {}) + if id in refs then {key} else {})
  {
  }

  lemma AddOneMore(reverse: map<ItemId, set<CacheKey>>, key: CacheKey, refs: seq<ItemId>, id: ItemId)
    ensures var so := AddToRows(reverse, key, refs);
      AddToRows(reverse, key, refs + [id]) == so[id := (if id in so then so[id] else {}) + {key}]
  {
    hide AddToRows;
    var so, next := AddToRows(reverse, key, refs), AddToRows(reverse, key, refs + [id]);
    forall x
      ensures x in next <==> x in so || x == id
      ensures x in next ==> next[x] == if x == id then (if id in so then so[id] else {}) + {key} else so[x]
    {
      AddToRowsAt(reverse, key, refs, x);
      AddToRowsAt(reverse, key, refs + [id], x);
    }
  }

  lemma RegisteredListers(entries: map<CacheKey, CacheSlot>, key: CacheKey, entry: Entry, id: ItemId)
    requires key in entries && entries[key].entry.refs <= entry.refs
    ensures Listers(entries[key := CacheSlot(entry, entries[key].node)], id)
         == Listers(entries, id) + (if id in entry.refs then {key} else {})
  {
    assert id in entries[key].entry.refs ==> id in entry.refs;
  }

  lemma RegisteredReverse(entries: map<CacheKey, CacheSlot>, key: CacheKey, entry: Entry)
    requires key in entries && entries[key].entry.refs <= entry.refs
    ensures AddToRows(ReverseOf(entries), key, entry.refs) == ReverseOf(entries[key := CacheSlot(entry, entries[key].node)])
  {
    hide ReverseOf, Listers;
    var entries' := entries[key := CacheSlot(entry, entries[key].node)];
    var added := AddToRows(ReverseOf(entries), key, entry.refs);
    forall id ensures Listers(entries', id) == Listers(entries, id) + (if id in entry.refs then {key} else {}) {
      RegisteredListers(entries, key, entry, id);
    }
    ReverseIsUnique(entries, ReverseOf(entries));
    assert IsReverse(entries', added);
    ReverseIsUnique(entries', added);
  }

  /** Giving an entry more references, and adding it to their rows. */
  lemma RegisterKeepsWellFormed(lru: seq<Node<CacheKey>>, entries: map<CacheKey, CacheSlot>, reverse: map<ItemId, set<CacheKey>>,
                                count: int, next: nat, key: CacheKey, entry: Entry)
    requires WellFormed(lru, entries, reverse, count, next, {}) && key in entries
    requires Distinct(entry.refs) && |entry.refs| <= MAX_TRACKED_ITEMS && entries[key].entry.refs <= entry.refs
    ensures WellFormed(lru, entries[key := CacheSlot(entry, entries[key].node)], AddToRows(reverse, key, entry.refs), count, next, {})
  {
    hide Linked, ReverseOf, AddToRows;
    var entries' := entries[key := CacheSlot(entry, entries[key].node)];
    assert NodesOf(entries') == NodesOf(entries);
    assert entries'.Keys == entries.Keys;
    RegisteredReverse(entries, key, entry);
    assert reverse == ReverseOf(entries);
  }

  lemma AbsentKey(lru: seq<Node<CacheKey>>, entries: map<CacheKey, CacheSlot>, reverse: map<ItemId, set<CacheKey>>,
                  count: int, next: nat, hidden: set<ItemId>, key: CacheKey)
    requires WellFormed(lru, entries, reverse, count, next, hidden) && key !in entries
    ensures entries - {key} == entries && Without(KeysOf(lru), key) == KeysOf(lru)
  {
    hide Distinct, Without, Linked, ReverseOf, Listers;
    LinkedCount(lru, NodesOf(entries), next);
    WithoutMembers(KeysOf(lru), key);
    assert key !in KeysOf(lru);
  }

  lemma EraseShrinksUsage(entries: map<CacheKey, CacheSlot>, reverse: map<ItemId, set<CacheKey>>, key: CacheKey,
                          refs: seq<ItemId>, tables: nat, rows: ItemId -> nat, sizes: Sizes)
    ensures Usage(entries - {key}, DropFromRows(reverse, key, refs), tables, rows, sizes)
         <= Usage(entries, reverse, tables, rows, sizes)
  {
    UsageShrinks(entries - {key}, entries, DropFromRows(reverse, key, refs), reverse, tables, rows, sizes);
  }

  // ---------- Entries surviving an eviction ----------

  function Restrict(entries: map<CacheKey, CacheSlot>, keys: seq<CacheKey>): map<CacheKey, CacheSlot> {
    map k | k in entries && k in keys :: entries[k]
  }

  lemma RestrictToAll(lru: seq<Node<CacheKey>>, entries: map<CacheKey, CacheSlot>, reverse: map<ItemId, set<CacheKey>>,
                      count: int, next: nat)
    requires WellFormed(lru, entries, reverse, count, next, {})
    ensures Restrict(entries, KeysOf(lru)) == entries && Distinct(KeysOf(lru))
  {
    LinkedCount(lru, NodesOf(entries), next);
  }

  /** Erasing the last of the surviving keys. */
  lemma RestrictShorter(entries: map<CacheKey, CacheSlot>, order: seq<CacheKey>, n: nat)
    requires Distinct(order) && 0 < n <= |order|
    ensures Restrict(entries, order[..n]) - {order[n - 1]} == Restrict(entries, order[..n - 1])
  {
    assert order[..n] == order[..n - 1] + [order[n - 1]];
    NotRepeated(order, n - 1);
  }

  lemma {:induction false} NotRepeated(s: seq<CacheKey>, n: nat)
    requires Distinct(s) && n < |s|
    ensures s[n] !in s[..n]
  {
    if n > 0 {
      NotRepeated(s[1..], n - 1);
      assert s[..n] == [s[0]] + s[1..][..n - 1];
      assert s[n] == s[1..][n - 1];
    }
  }

  /** The estimate for the entries that the first keys of a list stand for. */
  ghost function Footprint(entries: map<CacheKey, CacheSlot>, keys: seq<CacheKey>, tables: nat, rows: ItemId -> nat, sizes: Sizes): nat {
    var kept := Restrict(entries, keys);
    Usage(kept, ReverseOf(kept), tables, rows, sizes)
  }

  /** The keys of `s` that are in `keep`, in order. */
  function Keep(s: seq<CacheKey>, keep: set<CacheKey>): seq<CacheKey> {
    if s == [] then [] else if s[0] in keep then [s[0]] + Keep(s[1..], keep) else Keep(s[1..], keep)
  }

  lemma {:induction false} KeepWithout(s: seq<CacheKey>, keep: set<CacheKey>, k: CacheKey)
    ensures Without(Keep(s, keep), k) == Keep(s, keep - {k})
  {
    if s != [] { KeepWithout(s[1..], keep, k); }
  }

  lemma {:induction false} KeepAll(s: seq<CacheKey>, keep: set<CacheKey>)
    requires forall k :: k in s ==> k in keep
    ensures Keep(s, keep) == s
  {
    if s != [] {
      assert s == [s[0]] + s[1..];
      KeepAll(s[1..], keep);
    }
  }

  class SimilarityCache {
    const maxMemory: nat
    const batch: nat
    const sizes: Sizes
    var enabled: bool
    var minQueryCost: real
    var lru: seq<Node<CacheKey>>
    var entries: map<CacheKey, CacheSlot>
    var reverse: map<ItemId, set<CacheKey>>
    var tables: nat
    var rows: ItemId -> nat
    var totalMemory: nat
    var currentEntries: int
    var nextNode: nat

    /** Keys, most recently used first. */
    ghost function Order(): seq<CacheKey>
      reads this
    {
      KeysOf(lru)
    }

    /** The structure, with the index rows of `hidden` items taken out. */
    ghost predicate Structure(hidden: set<ItemId>)
      reads this
    {
      && WellFormed(lru, entries, reverse, currentEntries, nextNode, hidden)
      && batch >= 1
    }

    ghost predicate Valid()
      reads this
    {
      && Structure({})
      && totalMemory == Usage(entries, reverse, tables, rows, sizes)
      && totalMemory <= maxMemory
    }

    constructor (maxMemory: nat, batch: nat, minQueryCost: real, sizes: Sizes)
      ensures Valid() && entries == map[] && enabled
      ensures this.maxMemory == maxMemory && this.batch == (if batch < 1 then 1 else batch)
    {
      this.maxMemory, this.batch, this.sizes := maxMemory, if batch < 1 then 1 else batch, sizes;
      this.enabled, this.minQueryCost := true, minQueryCost;
      lru, entries, reverse, tables, rows := [], map[], map[], 0, _ => 0;
      totalMemory, currentEntries, nextNode := 0, 0, 0;
    }

    /** Adds up the estimate over all entries and index rows. */
    method EstimateMemory() returns (bytes: nat)
      requires |lru| == |entries|
      ensures bytes == Usage(entries, reverse, tables, rows, sizes)
    {
      if entries == map[] && reverse == map[] { return 0; }
      bytes := tables + |lru| * sizes.listNode;
      ghost var start := bytes;
      var rest := entries.Keys;
      ghost var left := EntryWeights(entries, sizes);
      while rest != {}
        invariant rest <= entries.Keys && left.Keys == rest
        invariant forall k :: k in left ==> left[k] == sizes.slot + entries[k].entry.bytes
        invariant bytes + Sum(left) == start + Sum(EntryWeights(entries, sizes))
      {
        var k :| k in rest;
        SumSplit(left, k);
        left := left - {k};
        bytes := bytes + sizes.slot + entries[k].entry.bytes;
        rest := rest - {k};
      }
      start := bytes;
      var ids := reverse.Keys;
      ghost var more := RowWeights(reverse, rows, sizes);
      while ids != {}
        invariant ids <= reverse.Keys && more.Keys == ids
        invariant forall id :: id in more ==> more[id] == rows(id) + |reverse[id]| * sizes.setNode
        invariant bytes + Sum(more) == start + Sum(RowWeights(reverse, rows, sizes))
      {
        var id :| id in ids;
        SumSplit(more, id);
        more := more - {id};
        bytes := bytes + rows(id) + |reverse[id]| * sizes.setNode;
        ids := ids - {id};
      }
    }

    method RefreshMemory(ghost hidden: set<ItemId>)
      requires Structure(hidden)
      modifies `totalMemory
      ensures totalMemory == Usage(entries, reverse, tables, rows, sizes)
    {
      LinkedCount(lru, NodesOf(entries), nextNode);
      assert NodesOf(entries).Keys == entries.Keys;
      totalMemory := EstimateMemory();
    }

    /** The reference loop of an erasure. */
    method DropReferences(key: CacheKey, refs: seq<ItemId>)
      modifies `reverse
      ensures reverse == DropFromRows(old(reverse), key, refs)
    {
      for i := 0 to |refs|
        invariant reverse == DropFromRows(old(reverse), key, refs[..i])
      {
        assert refs[..i + 1] == refs[..i] + [refs[i]];
        DropOneMore(old(reverse), key, refs[..i], refs[i]);
        if refs[i] in reverse {
          var row := reverse[refs[i]] - {key};
          reverse := if row == {} then reverse - {refs[i]} else reverse[refs[i] := row];
        }
      }
      assert refs[..|refs|] == refs;
    }

    /** Takes an entry out of the list, the map and every index row that lists it. */
    method EraseLocked(key: CacheKey, ghost hidden: set<ItemId>) returns (found: bool)
      requires Structure(hidden)
      modifies this
      ensures Structure(hidden) && unchanged(`tables, `rows, `nextNode, `enabled, `minQueryCost)
      ensures found <==> key in old(entries)
      ensures entries == old(entries) - {key} && Order() == Without(old(Order()), key)
      ensures !found ==> unchanged(this)
      ensures found ==> totalMemory == Usage(entries, reverse, tables, rows, sizes)
      ensures Usage(entries, reverse, tables, rows, sizes) <= Usage(old(entries), old(reverse), tables, rows, sizes)
      ensures found ==> lru == Unlink(old(lru), old(entries)[key].node)
    {
      hide WellFormed, DropFromRows, Usage, KeysOf, Without, Unlink;
      found := key in entries;
      if !found {
        AbsentKey(lru, entries, reverse, currentEntries, nextNode, hidden, key);
        return;
      }
      EraseKeepsWellFormed(lru, entries, reverse, currentEntries, nextNode, hidden, key);
      EraseShrinksUsage(entries, reverse, key, entries[key].entry.refs, tables, rows, sizes);
      DropReferences(key, entries[key].entry.refs);
      lru := Unlink(lru, entries[key].node);
      currentEntries := currentEntries - 1;
      entries := entries - {key};
      RefreshMemory(hidden);
    }

    /**
     Evicts from the back until `required` more bytes fit and a full batch is gone.  What is left is a
     prefix of the list, and beyond the batch nothing goes that could have stayed.
     */
    method EvictForSpace(required: nat) returns (ok: bool)
      requires Structure({}) && totalMemory == Usage(entries, reverse, tables, rows, sizes)
      modifies this
      ensures Structure({}) && totalMemory == Usage(entries, reverse, tables, rows, sizes)
      ensures unchanged(`tables, `rows, `nextNode, `enabled, `minQueryCost)
      ensures Order() <= old(Order()) && entries == Restrict(old(entries), Order())
      ensures ok <==> totalMemory + required <= maxMemory
      ensures old(totalMemory) + required <= maxMemory ==> unchanged(this)
      ensures totalMemory + required > maxMemory ==> entries == map[] && totalMemory == 0
      ensures old(totalMemory) + required > maxMemory && Order() != [] ==> |Order()| <= |old(Order())| - batch
      ensures forall m :: |Order()| < m <= |old(Order())| - batch ==>
        Footprint(old(entries), old(Order())[..m], tables, rows, sizes) + required > maxMemory
    {
      hide WellFormed, Usage, Footprint, KeysOf, Without, Unlink, Restrict, Distinct;
      if totalMemory + required <= maxMemory {
        RestrictToAll(lru, entries, reverse, currentEntries, nextNode);
        return true;
      }
      ghost var all, order := entries, Order();
      RestrictToAll(lru, entries, reverse, currentEntries, nextNode);
      assert order[..|order|] == order;
      var evicted := 0;
      while (totalMemory + required > maxMemory || evicted < batch) && lru != []
        invariant Structure({}) && totalMemory == Usage(entries, reverse, tables, rows, sizes)
        invariant unchanged(`tables, `rows, `nextNode, `enabled, `minQueryCost)
        invariant |lru| + evicted == |order| && Order() == order[..|lru|]
        invariant entries == Restrict(all, order[..|lru|])
        invariant forall m :: |lru| < m <= |order| - batch ==>
          Footprint(all, order[..m], tables, rows, sizes) + required > maxMemory
        decreases |lru|
      {
        ghost var n := |lru|;
        var key := lru[|lru| - 1].key;
        EvictLast(lru, entries, reverse, currentEntries, nextNode, all, order, tables, rows, sizes);
        var found := EraseLocked(key, {});
        evicted := evicted + 1;
        assert Order() == order[..n - 1];
      }
      ok := totalMemory + required <= maxMemory;
      if lru == [] { NothingLeft(lru, entries, reverse, currentEntries, nextNode, tables, rows, sizes); }
    }

    /** Moves an entry to the front of the list. */
    method Touch(key: CacheKey)
      requires Valid()
      modifies this
      ensures Valid() && unchanged(`tables, `rows, `enabled, `minQueryCost, `totalMemory)
      ensures key !in old(entries) ==> unchanged(this)
      ensures key in old(entries) ==> Order() == [key] + Without(old(Order()), key)
      ensures entries.Keys == old(entries).Keys && forall k :: k in entries ==> entries[k].entry == old(entries)[k].entry
    {
      hide WellFormed, Usage, KeysOf, Without, Unlink;
      if key !in entries { return; }
      TouchKeepsWellFormed(lru, entries, reverse, currentEntries, nextNode, key);
      SameWeights(entries, entries[key := entries[key].(node := nextNode)], reverse, tables, rows, sizes);
      lru := [Node(nextNode, key)] + Unlink(lru, entries[key].node);
      entries := entries[key := entries[key].(node := nextNode)];
      nextNode := nextNode + 1;
    }

    /** Registers the items an entry lists: each new one once, up to the tracking limit. */
    method RegisterResultItemsLocked(key: CacheKey, ids: seq<ItemId>, growth: Growth)
      requires Structure({}) && key in entries
      modifies this
      ensures Structure({}) && unchanged(`lru, `totalMemory, `nextNode, `enabled, `minQueryCost)
      ensures entries == old(entries)[key := old(entries)[key].(entry :=
        old(entries)[key].entry.(refs := Track(old(entries)[key].entry.refs, ids), bytes := growth.entryBytes))]
      ensures tables == growth.tableBytes && rows == growth.rowBytes
    {
      hide WellFormed, Distinct;
      ghost var before := entries[key].entry.refs;
      TrackedSoFar(lru, entries, reverse, currentEntries, nextNode, key, ids);
      ghost var index := reverse;
      var slot := entries[key];
      var refs := slot.entry.refs;
      var i := 0;
      assert reverse == AddToRows(index, key, refs);
      while i < |ids|
        invariant 0 <= i <= |ids|
        invariant Track(before, ids) == Track(refs, ids[i..])
        invariant reverse == AddToRows(index, key, refs)
        invariant unchanged(`entries, `lru, `currentEntries, `totalMemory, `nextNode, `enabled, `minQueryCost)
      {
        if |refs| >= MAX_TRACKED_ITEMS { break; }
        assert ids[i..][0] == ids[i] && ids[i..][1..] == ids[i + 1..];
        if ids[i] !in refs {
          AddOneMore(index, key, refs, ids[i]);
          refs := refs + [ids[i]];
          reverse := reverse[ids[i] := (if ids[i] in reverse then reverse[ids[i]] else {}) + {key}];
        }
        i := i + 1;
      }
      var entry := slot.entry.(refs := refs, bytes := growth.entryBytes);
      RegisterKeepsWellFormed(lru, entries, index, currentEntries, nextNode, key, entry);
      entries := entries[key := CacheSlot(entry, slot.node)];
      tables, rows := growth.tableBytes, growth.rowBytes;
    }

    predicate Admissible(key: CacheKey, blob: Option<nat>, cost: real)
      reads this
    {
      && enabled && cost >= minQueryCost && blob.Some?
      && sizes.cachedEntry + blob.value + sizes.key <= maxMemory
      && key !in entries
    }

    /** Puts a new entry at the front of list and map and registers its items; the estimate is not yet refreshed. */
    method PlaceAtFront(key: CacheKey, entry: Entry, ids: Option<seq<ItemId>>, growth: Growth)
      requires Structure({}) && key !in entries && entry.refs == [] && entry.bytes == growth.entryBytes
      modifies this
      ensures Structure({}) && unchanged(`totalMemory, `enabled, `minQueryCost)
      ensures Order() == [key] + old(Order())
      ensures entries == old(entries)[key := CacheSlot(
        entry.(refs := if ids.Some? then Track([], ids.value) else []), old(nextNode))]
    {
      hide WellFormed, KeysOf, Track;
      InsertKeepsWellFormed(lru, entries, reverse, currentEntries, nextNode, key, entry);
      lru := [Node(nextNode, key)] + lru;
      entries := entries[key := CacheSlot(entry, nextNode)];
      nextNode := nextNode + 1;
      currentEntries := currentEntries + 1;
      tables, rows := growth.tableBytes, growth.rowBytes;
      if ids.Some? { RegisterResultItemsLocked(key, ids.value, growth); }
    }

    /**
     Inserts a fresh entry at the front and registers its items.  `blob` is the capacity of the
     serialized results, if they could be serialized.  The answer is true exactly when the key was
     absent and is now resident; what is evicted is a suffix of the list, and the fresh entry itself
     goes only when nothing is left.
     */
    method InsertWithTtl(key: CacheKey, results: Results, blob: Option<nat>, cost: real, now: int, ttl: int,
                         ids: Option<seq<ItemId>>, growth: Growth) returns (ok: bool)
      requires Valid()
      modifies this
      ensures Valid() && unchanged(`enabled, `minQueryCost)
      ensures ok <==> key !in old(entries) && key in entries
      ensures !old(Admissible(key, blob, cost)) ==> !ok && unchanged(this)
      ensures old(Admissible(key, blob, cost)) ==> Order() <= [key] + old(Order()) && (ok || entries == map[])
      ensures ok ==> entries[key].entry == Entry(
        results, now, if ttl <= 0 then Never else At(now + ttl * 1_000_000_000), false,
        if ids.Some? then Track([], ids.value) else [], growth.entryBytes)
      ensures forall k :: k in entries && k != key ==> k in old(entries) && entries[k] == old(entries)[k]
    {
      hide WellFormed, Usage, KeysOf, Track, Footprint;
      if !enabled || cost < minQueryCost || blob.None? { return false; }
      var entryMemory := sizes.cachedEntry + blob.value + sizes.key;
      if entryMemory > maxMemory || key in entries { return false; }
      ghost var order := Order();
      var fits := EvictForSpace(entryMemory);
      ghost var kept := Order();
      var entry := Entry(results, now, ComputeExpiry(now, ttl), false, [], growth.entryBytes);
      PlaceAtFront(key, entry, ids, growth);
      RefreshMemory({});
      ghost var full := entries;
      fits := EvictForSpace(0);
      ok := key in entries;
      FrontSurvives(full, entries, key, kept, Order());
      assert [key] + kept <= [key] + order;
    }

    // ---------- Lookups ----------

    predicate Expired(entry: Entry, now: int, ttl: int) {
      || (entry.expiresAt.At? && now >= entry.expiresAt.time)
      || (ttl > 0 && now - entry.createdAt >= ttl * NANOS_PER_SECOND)
    }

    /**
     The read-locked half of a lookup: what was found, and whose entry it was.  `readable` is whether the stored
     results decompress; an entry whose results do not is as stale as an expired one.
     */
    method Probe(key: CacheKey, now: int, ttl: int, readable: bool) returns (p: ProbeResult)
      requires Valid()
      ensures var resident := enabled && key in entries && !entries[key].entry.invalidated;
        && (p.Miss? <==> !resident)
        && (p.Hit? <==> resident && readable && var e := entries[key].entry;
              (e.expiresAt.At? ==> now < e.expiresAt.time) && (ttl > 0 ==> now - e.createdAt < ttl * 1_000_000_000))
        && (!p.Miss? ==> p.createdAt == entries[key].entry.createdAt)
        && (p.Hit? ==> p.results == entries[key].entry.results)
    {
      if !enabled || key !in entries || entries[key].entry.invalidated { return Miss; }
      var entry := entries[key].entry;
      if Expired(entry, now, ttl) { return Stale(entry.createdAt); }
      p := if readable then Hit(entry.results, entry.createdAt) else Stale(entry.createdAt);
    }

    /**
     The write-locked half, after other operations may have run: acts only on the very entry that was
     probed, touching it after a hit and erasing it if it had expired or could not be read.
     */
    method Settle(key: CacheKey, p: ProbeResult)
      requires Valid()
      modifies this
      ensures Valid()
      ensures var same := key in old(entries) && !p.Miss? && old(entries)[key].entry.createdAt == p.createdAt;
        && (!same ==> unchanged(this))
        && (same && p.Stale? ==> entries == old(entries) - {key} && Order() == Without(old(Order()), key))
        && (same && p.Hit? ==> entries.Keys == old(entries).Keys && Order() == [key] + Without(old(Order()), key))
      ensures forall k :: k in entries ==> k in old(entries) && entries[k].entry == old(entries)[k].entry
    {
      hide WellFormed, Usage, KeysOf, Without, Unlink;
      if p.Miss? || key !in entries || entries[key].entry.createdAt != p.createdAt { return; }
      if p.Hit? {
        Touch(key);
      } else {
        var found := EraseLocked(key, {});
      }
    }

    // ---------- Invalidation ----------

    /** Erases every resident key of a set. */
    method EraseAll(keys: set<CacheKey>, ghost hidden: set<ItemId>) returns (count: nat)
      requires Structure(hidden)
      modifies this
      ensures Structure(hidden) && unchanged(`tables, `rows, `nextNode, `enabled, `minQueryCost)
      ensures entries == old(entries) - keys && count == |keys * old(entries).Keys|
      ensures Order() == Keep(old(Order()), entries.Keys)
      ensures count == 0 ==> unchanged(this)
      ensures count > 0 ==> totalMemory == Usage(entries, reverse, tables, rows, sizes)
      ensures Usage(entries, reverse, tables, rows, sizes) <= Usage(old(entries), old(reverse), tables, rows, sizes)
    {
      hide WellFormed, Usage, KeysOf, Without, Unlink, Keep;
      count := 0;
      var rest := keys;
      AllKept(lru, entries, reverse, currentEntries, nextNode, hidden);
      while rest != {}
        invariant rest <= keys
        invariant Structure(hidden) && unchanged(`tables, `rows, `nextNode, `enabled, `minQueryCost)
        invariant entries == old(entries) - (keys - rest) && count == |(keys - rest) * old(entries).Keys|
        invariant Order() == Keep(old(Order()), entries.Keys)
        invariant count == 0 ==> unchanged(this)
        invariant count > 0 ==> totalMemory == Usage(entries, reverse, tables, rows, sizes)
        invariant Usage(entries, reverse, tables, rows, sizes) <= Usage(old(entries), old(reverse), tables, rows, sizes)
      {
        var key :| key in rest;
        KeepWithout(old(Order()), entries.Keys, key);
        OneMoreErased(old(entries), keys, rest, key);
        var found := EraseLocked(key, hidden);
        if found { count := count + 1; }
        rest := rest - {key};
      }
      assert keys - rest == keys;
    }

    /** Erases exactly the entries that list the item, and reports how many they were. */
    method InvalidateByItemId(id: ItemId) returns (count: nat)
      requires Valid()
      modifies this
      ensures Valid() && unchanged(`enabled, `minQueryCost)
      ensures count == |Listers(old(entries), id)|
      ensures entries == old(entries) - Listers(old(entries), id)
      ensures Order() == Keep(old(Order()), entries.Keys)
    {
      hide WellFormed, Usage, KeysOf, Without, Unlink;
      RowOf(lru, entries, reverse, currentEntries, nextNode, id, tables, rows, sizes);
      if id !in reverse {
        AllKept(lru, entries, reverse, currentEntries, nextNode, {});
        assert entries - {} == entries;
        return 0;
      }
      var keys := reverse[id];
      reverse := reverse - {id};
      count := EraseAll(keys, {id});
      assert keys * old(entries).Keys == keys;
      RowGone(lru, entries, reverse, currentEntries, nextNode, id);
    }

    method Erase(key: CacheKey) returns (found: bool)
      requires Valid()
      modifies this
      ensures Valid() && (found <==> key in old(entries))
      ensures entries == old(entries) - {key} && Order() == Without(old(Order()), key)
    {
      hide WellFormed, Usage, KeysOf, Without, Unlink;
      found := EraseLocked(key, {});
    }

    method ClearIf(p: CacheKey -> bool)
      requires Valid()
      modifies this
      ensures Valid() && entries == map k | k in old(entries) && !p(k) :: old(entries)[k]
      ensures Order() == Keep(old(Order()), entries.Keys)
    {
      hide WellFormed, Usage, KeysOf, Without, Unlink;
      var keys := set k | k in entries && p(k);
      ErasedWhere(entries, keys);
      var count := EraseAll(keys, {});
    }

    /** Erases what no lookup under the global TTL would return any more; every other entry stays. */
    method PurgeExpired(now: int, ttl: int) returns (count: nat)
      requires Valid()
      modifies this
      ensures Valid()
      ensures entries == map k | k in old(entries) && var e := old(entries)[k].entry;
          !e.invalidated && (e.expiresAt.At? ==> now < e.expiresAt.time) && (ttl > 0 ==> now - e.createdAt < ttl * 1_000_000_000)
        :: old(entries)[k]
      ensures count == |old(entries)| - |entries| && Order() == Keep(old(Order()), entries.Keys)
    {
      hide WellFormed, Usage, KeysOf, Without, Unlink;
      var keys := set k | k in entries && (entries[k].entry.invalidated || Expired(entries[k].entry, now, ttl));
      ErasedWhere(entries, keys);
      count := EraseAll(keys, {});
    }

    method MarkInvalidated(key: CacheKey) returns (found: bool)
      requires Valid()
      modifies `entries
      ensures Valid() && (found <==> key in old(entries))
      ensures entries == if found then old(entries)[key := old(entries)[key].(entry := old(entries)[key].entry.(invalidated := true))] else old(entries)
    {
      hide Linked, Usage;
      found := key in entries;
      if found {
        var entries' := entries[key := entries[key].(entry := entries[key].entry.(invalidated := true))];
        assert NodesOf(entries') == NodesOf(entries) && entries'.Keys == entries.Keys;
        assert forall id :: Listers(entries', id) == Listers(entries, id);
        SameReferences(entries, entries');
        SameWeights(entries, entries', reverse, tables, rows, sizes);
        entries := entries';
      }
    }

    method Clear()
      requires Valid()
      modifies this
      ensures Valid() && entries == map[] && Order() == []
    {
      hide WellFormed, Usage;
      EmptyCache(nextNode, tables, rows, sizes);
      lru, entries, reverse := [], map[], map[];
      totalMemory, currentEntries := 0, 0;
    }
  }

  datatype ProbeResult = Miss | Stale(createdAt: int) | Hit(results: Results, createdAt: int)

  lemma OneMoreErased(all: map<CacheKey, CacheSlot>, keys: set<CacheKey>, rest: set<CacheKey>, key: CacheKey)
    requires rest <= keys && key in rest
    ensures var entries := all - (keys - rest);
      && entries - {key} == all - (keys - (rest - {key}))
      && (entries - {key}).Keys == entries.Keys - {key}
      && (key in entries <==> key in all)
    ensures |(keys - (rest - {key})) * all.Keys| == |(keys - rest) * all.Keys| + (if key in all then 1 else 0)
  {
    CountOneMore(all.Keys, keys, rest, key);
    MinusOneMore(all, keys - rest, keys - (rest - {key}), key);
  }

  lemma MinusOneMore(all: map<CacheKey, CacheSlot>, done: set<CacheKey>, more: set<CacheKey>, key: CacheKey)
    requires key !in done && more == done + {key}
    ensures (all - done) - {key} == all - more
    ensures ((all - done) - {key}).Keys == (all - done).Keys - {key}
    ensures key in all - done <==> key in all
  {
    assert forall k :: k in (all - done) - {key} <==> k in all - more;
  }

  lemma CountOneMore(all: set<CacheKey>, keys: set<CacheKey>, rest: set<CacheKey>, key: CacheKey)
    requires rest <= keys && key in rest
    ensures |(keys - (rest - {key})) * all| == |(keys - rest) * all| + (if key in all then 1 else 0)
  {
    var done := (keys - rest) * all;
    assert (keys - (rest - {key})) * all == if key in all then done + {key} else done;
  }

  /** Erasing the entries a condition picks out. */
  lemma ErasedWhere(all: map<CacheKey, CacheSlot>, keys: set<CacheKey>)
    requires keys <= all.Keys
    ensures keys * all.Keys == keys && (all - keys).Keys == all.Keys - keys
    ensures |keys| == |all| - |all - keys|
    ensures all - keys == map k | k in all && k !in keys :: all[k]
  {
    assert |all.Keys - keys| == |all.Keys| - |keys|;
    assert |all - keys| == |(all - keys).Keys|;
  }

  lemma EmptyCache(next: nat, tables: nat, rows: ItemId -> nat, sizes: Sizes)
    ensures WellFormed([], map[], map[], 0, next, {}) && Usage(map[], map[], tables, rows, sizes) == 0
  {
    var none: map<CacheKey, CacheSlot> := map[];
    assert ListedIds(none) == {};
    assert ReverseOf(none) == map[];
  }

  lemma AllKept(lru: seq<Node<CacheKey>>, entries: map<CacheKey, CacheSlot>, reverse: map<ItemId, set<CacheKey>>,
                count: int, next: nat, hidden: set<ItemId>)
    requires WellFormed(lru, entries, reverse, count, next, hidden)
    ensures Keep(KeysOf(lru), entries.Keys) == KeysOf(lru)
  {
    LinkedCount(lru, NodesOf(entries), next);
    KeepAll(KeysOf(lru), entries.Keys);
  }

  /** The row of an item lists its entries; hiding it keeps the structure and cannot raise the estimate. */
  lemma RowOf(lru: seq<Node<CacheKey>>, entries: map<CacheKey, CacheSlot>, reverse: map<ItemId, set<CacheKey>>,
              count: int, next: nat, id: ItemId, tables: nat, rows: ItemId -> nat, sizes: Sizes)
    requires WellFormed(lru, entries, reverse, count, next, {})
    ensures Listers(entries, id) == (if id in reverse then reverse[id] else {})
    ensures id in reverse ==> reverse[id] != {} && reverse[id] <= entries.Keys
    ensures WellFormed(lru, entries, reverse - {id}, count, next, {id})
    ensures Usage(entries, reverse - {id}, tables, rows, sizes) <= Usage(entries, reverse, tables, rows, sizes)
  {
    hide Linked, Usage;
    assert reverse == ReverseOf(entries);
    ReverseIsUnique(entries, reverse);
    UsageShrinks(entries, entries, reverse - {id}, reverse, tables, rows, sizes);
  }

  /** With every entry listing the item gone, there is no row left to hide. */
  lemma RowGone(lru: seq<Node<CacheKey>>, entries: map<CacheKey, CacheSlot>, reverse: map<ItemId, set<CacheKey>>,
                count: int, next: nat, id: ItemId)
    requires WellFormed(lru, entries, reverse, count, next, {id})
    requires Listers(entries, id) == {}
    ensures WellFormed(lru, entries, reverse, count, next, {})
  {
    hide Linked, ReverseOf, Distinct, NodesOf, Listers;
    NotListed(entries, id);
    assert ReverseOf(entries) - {id} == ReverseOf(entries);
    assert ReverseOf(entries) - {} == ReverseOf(entries);
  }

  lemma NotListed(entries: map<CacheKey, CacheSlot>, id: ItemId)
    requires Listers(entries, id) == {}
    ensures id !in ReverseOf(entries)
  {
    ReverseIsUnique(entries, ReverseOf(entries));
  }

  function ComputeExpiry(now: int, ttl: int): Expiry {
    if ttl <= 0 then Never else At(now + ttl * NANOS_PER_SECOND)
  }

  lemma SameWeights(a: map<CacheKey, CacheSlot>, b: map<CacheKey, CacheSlot>, reverse: map<ItemId, set<CacheKey>>,
                    tables: nat, rows: ItemId -> nat, sizes: Sizes)
    requires a.Keys == b.Keys && forall k :: k in a ==> a[k].entry.bytes == b[k].entry.bytes
    ensures Usage(a, reverse, tables, rows, sizes) == Usage(b, reverse, tables, rows, sizes)
  {
    assert EntryWeights(a, sizes) == EntryWeights(b, sizes);
    assert |a| == |a.Keys| && |b| == |b.Keys|;
    assert a == map[] <==> a.Keys == {};
    assert b == map[] <==> b.Keys == {};
  }

  /** An entry is already in the rows of the items it references, and tracking extends its references. */
  lemma TrackedSoFar(lru: seq<Node<CacheKey>>, entries: map<CacheKey, CacheSlot>, reverse: map<ItemId, set<CacheKey>>,
                     count: int, next: nat, key: CacheKey, ids: seq<ItemId>)
    requires WellFormed(lru, entries, reverse, count, next, {}) && key in entries
    ensures AddToRows(reverse, key, entries[key].entry.refs) == reverse
    ensures var t := Track(entries[key].entry.refs, ids);
      Distinct(t) && |t| <= MAX_TRACKED_ITEMS && entries[key].entry.refs <= t
  {
    TrackIsComplete(entries[key].entry.refs, ids);
    RegisteredReverse(entries, key, entries[key].entry);
    assert entries[key := CacheSlot(entries[key].entry, entries[key].node)] == entries;
    assert reverse == ReverseOf(entries);
  }

  /** A prefix of a list that starts with `key` either still starts with it or is empty. */
  lemma FrontSurvives(full: map<CacheKey, CacheSlot>, entries: map<CacheKey, CacheSlot>, key: CacheKey, kept: seq<CacheKey>, order: seq<CacheKey>)
    requires order <= [key] + kept && key in full && entries == Restrict(full, order)
    ensures key in entries <==> order != []
    ensures order != [] ==> order == [key] + kept[..|order| - 1]
    ensures order == [] ==> entries == map[]
  {
    if order != [] { assert order[0] == key; }
  }

  /** The victim of an eviction is resident, and erasing it shortens the list by one. */
  lemma EvictLast(lru: seq<Node<CacheKey>>, entries: map<CacheKey, CacheSlot>, reverse: map<ItemId, set<CacheKey>>, count: int,
                  next: nat, all: map<CacheKey, CacheSlot>, order: seq<CacheKey>, tables: nat, rows: ItemId -> nat, sizes: Sizes)
    requires WellFormed(lru, entries, reverse, count, next, {}) && lru != []
    requires |lru| <= |order| && KeysOf(lru) == order[..|lru|] && entries == Restrict(all, order[..|lru|])
    requires Distinct(order)
    ensures var n := |lru|; var key := lru[n - 1].key;
      && key == order[n - 1] && key in entries
      && Without(KeysOf(lru), key) == order[..n - 1]
      && entries - {key} == Restrict(all, order[..n - 1])
      && Usage(entries, reverse, tables, rows, sizes) == Footprint(all, order[..n], tables, rows, sizes)
  {
    hide Linked, Usage, ReverseOf, Without, Restrict, Distinct, Unlink;
    var n := |lru|;
    assert reverse == ReverseOf(entries);
    assert KeysOf(lru)[n - 1] == order[n - 1];
    PopNode(lru, NodesOf(entries), next);
    RestrictShorter(all, order, n);
    assert order[..n][..n - 1] == order[..n - 1];
  }

  lemma NothingLeft(lru: seq<Node<CacheKey>>, entries: map<CacheKey, CacheSlot>, reverse: map<ItemId, set<CacheKey>>,
                    count: int, next: nat, tables: nat, rows: ItemId -> nat, sizes: Sizes)
    requires WellFormed(lru, entries, reverse, count, next, {}) && lru == []
    ensures entries == map[] && Usage(entries, reverse, tables, rows, sizes) == 0
  {
    LinkedCount(lru, NodesOf(entries), next);
    assert NodesOf(entries).Keys == entries.Keys;
  }
}
