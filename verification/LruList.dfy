/**
 The doubly linked recency list that the result cache, the event caches and the rate limiter share.

 A list element is a node with an identity of its own; an iterator is that identity.  The first half
 of the module relates node operations to the sequence of keys, the second half says what the sequence
 of keys is after any history of uses.
 */
module LruList {
  import opened Sequences

  datatype Node<K> = Node(id: nat, key: K)

  function KeysOf<K>(list: seq<Node<K>>): (keys: seq<K>)
    ensures |keys| == |list| && forall i :: 0 <= i < |list| ==> keys[i] == list[i].key
  {
    seq(|list|, i requires 0 <= i < |list| => list[i].key)
  }

  /** The iterators `it` point at exactly the nodes of the list, each at the node of its own key. */
  ghost predicate Linked<K>(list: seq<Node<K>>, it: map<K, nat>, next: nat) {
    && Distinct(KeysOf(list))
    && (forall n :: n in list ==> n.key in it && it[n.key] == n.id)
    && (forall k :: k in it ==> k in KeysOf(list) && it[k] < next)
    && (forall k, l :: k in it && l in it && it[k] == it[l] ==> k == l)
  }

  /** `list.erase(iterator)`. */
  function Unlink<K>(list: seq<Node<K>>, id: nat): seq<Node<K>> {
    if list == [] then [] else if list[0].id == id then list[1..] else [list[0]] + Unlink(list[1..], id)
  }

  function Without<K(==)>(s: seq<K>, k: K): seq<K> {
    if s == [] then [] else if s[0] == k then Without(s[1..], k) else [s[0]] + Without(s[1..], k)
  }

  /** Linked lists and maps agree on the keys and their number. */
  lemma LinkedCount<K>(list: seq<Node<K>>, it: map<K, nat>, next: nat)
    requires Linked(list, it, next)
    ensures forall k :: k in KeysOf(list) <==> k in it
    ensures |list| == |it|
  {
    forall k | k in KeysOf(list) ensures k in it {
      var i :| 0 <= i < |list| && KeysOf(list)[i] == k;
      assert list[i] in list;
    }
    DistinctCount(KeysOf(list), it.Keys);
  }

  lemma {:induction false} DistinctCount<K>(s: seq<K>, keys: set<K>)
    requires Distinct(s) && forall k :: k in s <==> k in keys
    ensures |s| == |keys|
  {
    if s == [] {
      assert keys == {};
    } else {
      assert s == [s[0]] + s[1..];
      DistinctCount(s[1..], keys - {s[0]});
    }
  }

  lemma {:induction false} WithoutMembers<K>(s: seq<K>, k: K)
    ensures forall x :: x in Without(s, k) ==> x in s && x != k
    ensures forall x :: x in s && x != k ==> x in Without(s, k)
    ensures k !in s ==> Without(s, k) == s
    ensures Distinct(s) ==> Distinct(Without(s, k))
  {
    if s != [] {
      assert s == [s[0]] + s[1..];
      WithoutMembers(s[1..], k);
      if s[0] != k { assert Without(s, k)[1..] == Without(s[1..], k); }
    }
  }

  lemma {:induction false} WithoutLength<K>(s: seq<K>, k: K)
    requires Distinct(s)
    ensures |Without(s, k)| == |s| - (if k in s then 1 else 0)
  {
    if s != [] {
      assert s == [s[0]] + s[1..];
      if s[0] == k { WithoutMembers(s[1..], k); } else { WithoutLength(s[1..], k); }
    }
  }

  lemma {:induction false} UnlinkKeys<K>(list: seq<Node<K>>, k: K, id: nat)
    requires Distinct(KeysOf(list))
    requires forall n :: n in list ==> (n.key == k <==> n.id == id)
    ensures KeysOf(Unlink(list, id)) == Without(KeysOf(list), k)
    ensures forall n :: n in Unlink(list, id) ==> n in list
  {
    if list != [] {
      var keys, tail := KeysOf(list), list[1..];
      assert keys[1..] == KeysOf(tail) && keys == [list[0].key] + KeysOf(tail);
      assert list == [list[0]] + tail;
      if list[0].id == id {
        assert k !in keys[1..];
        WithoutMembers(keys[1..], k);
      } else {
        UnlinkKeys(tail, k, id);
        assert KeysOf([list[0]] + Unlink(tail, id)) == [list[0].key] + KeysOf(Unlink(tail, id));
      }
    }
  }

  /** Erasing a key's node through its iterator. */
  lemma EraseNode<K>(list: seq<Node<K>>, it: map<K, nat>, next: nat, k: K)
    requires Linked(list, it, next) && k in it
    ensures Linked(Unlink(list, it[k]), it - {k}, next)
    ensures KeysOf(Unlink(list, it[k])) == Without(KeysOf(list), k)
  {
    UnlinkKeys(list, k, it[k]);
    WithoutMembers(KeysOf(list), k);
    var u := Unlink(list, it[k]);
    forall n | n in u ensures n.key in it - {k} && (it - {k})[n.key] == n.id {
      var i :| 0 <= i < |u| && u[i] == n;
      assert KeysOf(u)[i] == n.key;
    }
  }

  /** Putting a key's node at the front, whose identity no other node has. */
  lemma AttachNode<K>(list: seq<Node<K>>, it: map<K, nat>, next: nat, k: K, id: nat)
    requires Linked(list, it, next) && k !in it && id < next && forall x :: x in it ==> it[x] != id
    ensures Linked([Node(id, k)] + list, it[k := id], next)
    ensures KeysOf([Node(id, k)] + list) == [k] + KeysOf(list)
  {
    hide KeysOf, Distinct;
    LinkedCount(list, it, next);
    var l, it' := [Node(id, k)] + list, it[k := id];
    KeysOfFront(id, k, list);
    forall n | n in l ensures n.key in it' && it'[n.key] == n.id {
      if n in list { KeyIn(list, n); }
    }
    forall x | x in it' ensures x in KeysOf(l) && it'[x] < next {
      if x != k { assert x in it && x in KeysOf(list); }
    }
  }

  lemma KeysOfFront<K>(id: nat, k: K, list: seq<Node<K>>)
    ensures KeysOf([Node(id, k)] + list) == [k] + KeysOf(list)
    ensures Distinct(KeysOf([Node(id, k)] + list)) <==> k !in KeysOf(list) && Distinct(KeysOf(list))
  {
    var keys := KeysOf([Node(id, k)] + list);
    assert keys == [k] + KeysOf(list);
    assert keys[1..] == KeysOf(list);
  }

  lemma KeyIn<K>(list: seq<Node<K>>, n: Node<K>)
    requires n in list
    ensures n.key in KeysOf(list)
  {
    var i :| 0 <= i < |list| && list[i] == n;
    assert KeysOf(list)[i] == n.key;
  }

  /** Pushing a new key to the front, with a fresh node. */
  lemma PushNode<K>(list: seq<Node<K>>, it: map<K, nat>, next: nat, k: K)
    requires Linked(list, it, next) && k !in it
    ensures Linked([Node(next, k)] + list, it[k := next], next + 1)
    ensures KeysOf([Node(next, k)] + list) == [k] + KeysOf(list)
  {
    hide KeysOf, Distinct;
    assert Linked(list, it, next + 1);
    AttachNode(list, it, next + 1, k, next);
  }

  /** The key at the back, and what popping it leaves. */
  lemma PopNode<K>(list: seq<Node<K>>, it: map<K, nat>, next: nat)
    requires Linked(list, it, next) && list != []
    ensures var k := list[|list| - 1].key;
      && k in it
      && Unlink(list, it[k]) == list[..|list| - 1]
      && Without(KeysOf(list), k) == KeysOf(list)[..|list| - 1]
      && KeysOf(list[..|list| - 1]) == KeysOf(list)[..|list| - 1]
  {
    var n := |list| - 1;
    var k := list[n].key;
    assert list[n] in list;
    EraseNode(list, it, next, k);
    WithoutLast(KeysOf(list));
    UnlinkLast(list, it[k]);
  }

  lemma {:induction false} WithoutLast<K>(s: seq<K>)
    requires Distinct(s) && s != []
    ensures Without(s, s[|s| - 1]) == s[..|s| - 1]
  {
    if |s| > 1 {
      assert s[1..][|s| - 2] == s[|s| - 1];
      WithoutLast(s[1..]);
      assert s[..|s| - 1] == [s[0]] + s[1..][..|s| - 2];
    }
  }

  lemma {:induction false} UnlinkLast<K>(list: seq<Node<K>>, id: nat)
    requires list != [] && list[|list| - 1].id == id
    requires Distinct(KeysOf(list))
    requires forall n :: n in list ==> (n.id == id <==> n.key == list[|list| - 1].key)
    ensures Unlink(list, id) == list[..|list| - 1]
  {
    if |list| > 1 {
      var tail := list[1..];
      assert KeysOf(list)[1..] == KeysOf(tail);
      assert KeysOf(tail)[|tail| - 1] == list[|list| - 1].key;
      UnlinkLast(tail, id);
      assert list[..|list| - 1] == [list[0]] + tail[..|tail| - 1];
    }
  }

  // ---------- Bounded maps over the list ----------

  /** A map element: its value and its iterator into the list. */
  datatype Slot<V> = Slot(value: V, node: nat)

  function Iterators<K, V>(entries: map<K, Slot<V>>): map<K, nat> {
    map k | k in entries :: entries[k].node
  }

  function Values<K, V>(entries: map<K, Slot<V>>): map<K, V> {
    map k | k in entries :: entries[k].value
  }

  ghost predicate LruMap<K, V>(list: seq<Node<K>>, entries: map<K, Slot<V>>, next: nat) {
    Linked(list, Iterators(entries), next)
  }

  lemma LruMapKeys<K, V>(list: seq<Node<K>>, entries: map<K, Slot<V>>, next: nat)
    requires LruMap(list, entries, next)
    ensures Distinct(KeysOf(list)) && |list| == |entries|
    ensures forall k :: k in KeysOf(list) ==> k in entries
    ensures forall k :: k in entries ==> k in KeysOf(list)
  {
    LinkedCount(list, Iterators(entries), next);
    assert Iterators(entries).Keys == entries.Keys;
  }

  /** Splicing a key's node to the front, with a new value for the key. */
  lemma SpliceEntry<K, V>(list: seq<Node<K>>, entries: map<K, Slot<V>>, next: nat, k: K, v: V)
    requires LruMap(list, entries, next) && k in entries
    ensures var id := entries[k].node; var list' := [Node(id, k)] + Unlink(list, id);
      && LruMap(list', entries[k := Slot(v, id)], next)
      && KeysOf(list') == [k] + Without(KeysOf(list), k)
  {
    hide KeysOf, Distinct, Without, Unlink;
    var it, id := Iterators(entries), entries[k].node;
    EraseNode(list, it, next, k);
    IteratorIsOwn(list, it, next, k);
    hide Linked;
    AttachNode(Unlink(list, id), it - {k}, next, k, id);
    assert Iterators(entries[k := Slot(v, id)]) == (it - {k})[k := id];
  }

  lemma IteratorIsOwn<K>(list: seq<Node<K>>, it: map<K, nat>, next: nat, k: K)
    requires Linked(list, it, next) && k in it
    ensures it[k] < next && forall x :: x in it - {k} ==> it[x] != it[k]
  {
  }

  /** Unlinking a key's node and pushing a new one for it to the front. */
  lemma RelinkEntry<K, V>(list: seq<Node<K>>, entries: map<K, Slot<V>>, next: nat, k: K, v: V)
    requires LruMap(list, entries, next) && k in entries
    ensures var list' := [Node(next, k)] + Unlink(list, entries[k].node);
      && LruMap(list', entries[k := Slot(v, next)], next + 1)
      && KeysOf(list') == [k] + Without(KeysOf(list), k)
  {
    hide Linked, KeysOf, Without, Unlink;
    var it := Iterators(entries);
    EraseNode(list, it, next, k);
    PushNode(Unlink(list, entries[k].node), it - {k}, next, k);
    assert Iterators(entries[k := Slot(v, next)]) == (it - {k})[k := next];
  }

  /** Pushing a new key to the front. */
  lemma PushEntry<K, V>(list: seq<Node<K>>, entries: map<K, Slot<V>>, next: nat, k: K, v: V)
    requires LruMap(list, entries, next) && k !in entries
    ensures LruMap([Node(next, k)] + list, entries[k := Slot(v, next)], next + 1)
    ensures KeysOf([Node(next, k)] + list) == [k] + KeysOf(list)
  {
    hide Linked, KeysOf;
    PushNode(list, Iterators(entries), next, k);
    assert Iterators(entries[k := Slot(v, next)]) == Iterators(entries)[k := next];
  }

  /** Evicting the last key. */
  lemma EvictEntry<K, V>(list: seq<Node<K>>, entries: map<K, Slot<V>>, next: nat)
    requires LruMap(list, entries, next) && list != []
    ensures var n := |list| - 1; var k := list[n].key;
      && k in entries && LruMap(list[..n], entries - {k}, next)
      && KeysOf(list[..n]) == KeysOf(list)[..n] && k == KeysOf(list)[n]
  {
    hide Linked, Without, Unlink;
    var n := |list| - 1;
    var k := list[n].key;
    PopNode(list, Iterators(entries), next);
    EraseNode(list, Iterators(entries), next, k);
    assert Iterators(entries - {k}) == Iterators(entries) - {k};
  }

  // ---------- Recency ----------

  function Min(a: nat, b: nat): nat { if a <= b then a else b }

  function Take<K>(s: seq<K>, n: nat): seq<K> { s[..Min(n, |s|)] }

  /** Using a key moves it to the front; a list over capacity loses its last key. */
  function Use<K(==)>(s: seq<K>, k: K, capacity: nat): seq<K> {
    Take([k] + Without(s, k), capacity)
  }

  /** The three ways a bounded list performs a use. */
  lemma UseCases<K>(s: seq<K>, k: K, capacity: nat)
    requires Distinct(s) && |s| <= capacity && 1 <= capacity
    ensures k in s ==> Use(s, k, capacity) == [k] + Without(s, k)
    ensures k !in s && |s| < capacity ==> Use(s, k, capacity) == [k] + s
    ensures k !in s && |s| == capacity ==> Use(s, k, capacity) == [k] + s[..|s| - 1]
    ensures |Use(s, k, capacity)| <= capacity
  {
    WithoutMembers(s, k);
    WithoutLength(s, k);
  }

  function UseAll<K(==)>(s: seq<K>, history: seq<K>, capacity: nat): seq<K>
    decreases |history|
  {
    if history == [] then s
    else Use(UseAll(s, history[..|history| - 1], capacity), history[|history| - 1], capacity)
  }

  /** The distinct keys of a history, most recently used first. */
  function Recency<K(==)>(history: seq<K>): seq<K>
    decreases |history|
  {
    if history == [] then []
    else [history[|history| - 1]] + Without(Recency(history[..|history| - 1]), history[|history| - 1])
  }

  /** Position of the last use of a key, -1 if it was never used. */
  function LastUse<K(==)>(history: seq<K>, k: K): (p: int)
    ensures -1 <= p < |history|
    decreases |history|
  {
    if history == [] then -1
    else if history[|history| - 1] == k then |history| - 1
    else LastUse(history[..|history| - 1], k)
  }

  predicate ByLastUse<K(==)>(s: seq<K>, history: seq<K>) {
    s == [] || ((forall k :: k in s[1..] ==> LastUse(history, s[0]) > LastUse(history, k)) && ByLastUse(s[1..], history))
  }

  lemma {:induction false} DistinctTake<K>(s: seq<K>, n: nat)
    requires Distinct(s)
    ensures Distinct(Take(s, n))
  {
    if s != [] && n > 0 {
      assert Take(s, n)[1..] == Take(s[1..], n - 1);
      DistinctTake(s[1..], n - 1);
    }
  }

  lemma {:induction false} WithoutTake<K>(s: seq<K>, k: K, n: nat)
    requires Distinct(s)
    ensures Without(Take(s, n), k) == Take(Without(s, k), Min(n, |s|) - (if k in Take(s, n) then 1 else 0))
    ensures Distinct(Take(s, n))
  {
    DistinctTake(s, n);
    if s != [] && n > 0 {
      var t := Take(s, n);
      assert t[1..] == Take(s[1..], n - 1);
      assert t == [s[0]] + t[1..];
      WithoutTake(s[1..], k, n - 1);
      if s[0] == k {
        WithoutMembers(s[1..], k);
        WithoutMembers(t[1..], k);
      }
    }
  }

  /** A bounded list forgets nothing it will need: truncating before or after a use is the same. */
  lemma UseOfTake<K>(s: seq<K>, k: K, n: nat)
    requires Distinct(s) && n >= 1
    ensures Use(Take(s, n), k, n) == Use(s, k, n)
  {
    WithoutTake(s, k, n);
    WithoutLength(s, k);
    WithoutLength(Take(s, n), k);
  }

  lemma {:induction false} WithoutKeepsOrder<K>(s: seq<K>, k: K, history: seq<K>)
    requires ByLastUse(s, history)
    ensures ByLastUse(Without(s, k), history + [k])
  {
    if s != [] {
      WithoutKeepsOrder(s[1..], k, history);
      WithoutMembers(s[1..], k);
      assert (history + [k])[..|history|] == history;
      var h := history + [k];
      assert h[..|h| - 1] == history;
      if s[0] != k {
        var w := Without(s, k);
        assert w[1..] == Without(s[1..], k);
        assert w[0] == s[0];
        forall x | x in w[1..] ensures LastUse(h, s[0]) > LastUse(h, x) {
          assert x in Without(s[1..], k);
          assert x in s[1..];
        }
      }
    }
  }

  /** The recency sequence lists every key ever used once, ordered by the time of its last use. */
  lemma {:induction false} RecencyIsByLastUse<K>(history: seq<K>)
    ensures Distinct(Recency(history))
    ensures forall k :: k in Recency(history) <==> k in history
    ensures ByLastUse(Recency(history), history)
    decreases |history|
  {
    if history != [] {
      var n := |history| - 1;
      var init, k := history[..n], history[n];
      assert history == init + [k];
      RecencyIsByLastUse(init);
      WithoutMembers(Recency(init), k);
      WithoutKeepsOrder(Recency(init), k, init);
      assert Recency(history)[1..] == Without(Recency(init), k);
    }
  }

  /** A list of capacity n holds exactly the n most recently used distinct keys, in recency order. */
  lemma {:induction false} UseAllIsRecency<K>(history: seq<K>, n: nat)
    requires n >= 1
    ensures UseAll([], history, n) == Take(Recency(history), n)
    decreases |history|
  {
    if history != [] {
      var init, k := history[..|history| - 1], history[|history| - 1];
      UseAllIsRecency(init, n);
      RecencyIsByLastUse(init);
      UseOfTake(Recency(init), k, n);
    }
  }

  /** A larger list always contains a smaller one fed with the same history. */
  lemma LargerListContainsSmaller<K>(history: seq<K>, small: nat, large: nat)
    requires 1 <= small <= large
    ensures UseAll([], history, small) <= UseAll([], history, large)
  {
    UseAllIsRecency(history, small);
    UseAllIsRecency(history, large);
  }
}
