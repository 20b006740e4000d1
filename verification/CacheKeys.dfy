/** The texts whose digests are the keys of the result cache, and which queries share one. */
module CacheKeys {
  import opened Wrappers
  import opened CacheProtocol
  import ClientFraming

  function Number(n: nat): string { ClientFraming.Decimal(n) }

  function AdaptivePart(adaptive: Option<bool>): string {
    match adaptive case None => "default" case Some(on) => if on then "on" else "off"
  }

  function FilterPart(filter: string): string { if filter == "" then "" else ":f" + filter }

  /** The counters at the end of both kinds of text. */
  function CounterPart(g: Gens, filter: string): string {
    "v" + Number(g.vec) + ":" + ("m" + Number(g.meta) + ":" + ("d" + Number(g.dataset) + FilterPart(filter)))
  }

  /** What follows the id in the text of a SIM. */
  function SimTail(topK: nat, mode: string, adaptive: Option<bool>, g: Gens, filter: string): string {
    Number(topK) + ":" + (mode + ":" + ("a" + AdaptivePart(adaptive) + ":" + ("g" + Number(g.co) + ":" + CounterPart(g, filter))))
  }

  /** `hash` stands for the digest of the vector, in hexadecimal. */
  function KeyText(hash: seq<real> -> string, key: Key): string {
    match key.query
    case Sim(id, topK, mode, adaptive, filter) => "SIM:" + id + ":" + SimTail(topK, mode, adaptive, key.gens, filter)
    case Simv(vector, topK, filter) =>
      "SIMV:" + (hash(vector) + ":" + (Number(topK) + ":" + CounterPart(key.gens, filter)))
  }

  // ---------- Reading fields back ----------

  predicate NoColon(s: string) { ':' !in s }

  lemma NumbersAreFields(n: nat)
    ensures NoColon(Number(n))
  {
    assert forall c :: c in Number(n) ==> ClientFraming.IsDigit(c);
  }

  lemma NumbersDiffer(m: nat, n: nat)
    requires Number(m) == Number(n)
    ensures m == n
  {
    ClientFraming.ValueOfDecimal(m);
    ClientFraming.ValueOfDecimal(n);
  }

  function FirstColon(s: string): nat { if s == "" || s[0] == ':' then 0 else 1 + FirstColon(s[1..]) }

  lemma {:induction false} ColonAfter(a: string, rest: string)
    requires NoColon(a) && (rest == "" || rest[0] == ':')
    ensures FirstColon(a + rest) == |a|
  {
    if a == "" {
      assert a + rest == rest;
    } else {
      assert a[0] in a && (a + rest)[1..] == a[1..] + rest && forall c :: c in a[1..] ==> c in a;
      ColonAfter(a[1..], rest);
    }
  }

  /** A field that holds no colon ends at the first one. */
  lemma FirstField(a: string, r: string, b: string, t: string)
    requires NoColon(a) && NoColon(b) && a + ":" + r == b + ":" + t
    ensures a == b && r == t
  {
    var x, y := a + ":" + r, b + ":" + t;
    assert x == a + (":" + r) && y == b + (":" + t);
    ColonAfter(a, ":" + r);
    ColonAfter(b, ":" + t);
    assert x[..|a|] == a && y[..|b|] == b && x[|a| + 1..] == r && y[|b| + 1..] == t;
  }

  lemma TaggedField(tag: char, a: string, r: string, b: string, t: string)
    requires tag != ':' && NoColon(a) && NoColon(b) && [tag] + a + ":" + r == [tag] + b + ":" + t
    ensures a == b && r == t
  {
    FirstField([tag] + a, r, [tag] + b, t);
    assert ([tag] + a)[1..] == a && ([tag] + b)[1..] == b;
  }

  lemma LastField(a: string, f: string, b: string, e: string)
    requires NoColon(a) && NoColon(b) && "d" + a + FilterPart(f) == "d" + b + FilterPart(e)
    ensures a == b && f == e
  {
    var x, y := "d" + a + FilterPart(f), "d" + b + FilterPart(e);
    ColonAfter("d" + a, FilterPart(f));
    ColonAfter("d" + b, FilterPart(e));
    assert x[1..|a| + 1] == a && y[1..|b| + 1] == b;
    assert x[|a| + 1..] == FilterPart(f) && y[|b| + 1..] == FilterPart(e);
    if f != "" { assert FilterPart(f)[2..] == f; }
    if e != "" { assert FilterPart(e)[2..] == e; }
  }

  lemma CountersAgree(g: Gens, f: string, h: Gens, e: string)
    requires CounterPart(g, f) == CounterPart(h, e)
    ensures g.vec == h.vec && g.meta == h.meta && g.dataset == h.dataset && f == e
  {
    hide Number, FilterPart;
    NumbersAreFields(g.vec);
    NumbersAreFields(h.vec);
    NumbersAreFields(g.meta);
    NumbersAreFields(h.meta);
    NumbersAreFields(g.dataset);
    NumbersAreFields(h.dataset);
    var r, t := "d" + Number(g.dataset) + FilterPart(f), "d" + Number(h.dataset) + FilterPart(e);
    TaggedField('v', Number(g.vec), "m" + Number(g.meta) + ":" + r, Number(h.vec), "m" + Number(h.meta) + ":" + t);
    TaggedField('m', Number(g.meta), r, Number(h.meta), t);
    LastField(Number(g.dataset), f, Number(h.dataset), e);
    NumbersDiffer(g.vec, h.vec);
    NumbersDiffer(g.meta, h.meta);
    NumbersDiffer(g.dataset, h.dataset);
  }

  lemma TailsAgree(k: nat, m: string, a: Option<bool>, g: Gens, f: string, k': nat, m': string, a': Option<bool>, h: Gens, e: string)
    requires NoColon(m) && NoColon(m') && SimTail(k, m, a, g, f) == SimTail(k', m', a', h, e)
    ensures k == k' && m == m' && a == a' && g == h && f == e
  {
    hide Number, CounterPart;
    NumbersAreFields(k);
    NumbersAreFields(k');
    NumbersAreFields(g.co);
    NumbersAreFields(h.co);
    var r1, t1 := "g" + Number(g.co) + ":" + CounterPart(g, f), "g" + Number(h.co) + ":" + CounterPart(h, e);
    var r2, t2 := "a" + AdaptivePart(a) + ":" + r1, "a" + AdaptivePart(a') + ":" + t1;
    FirstField(Number(k), m + ":" + r2, Number(k'), m' + ":" + t2);
    FirstField(m, r2, m', t2);
    TaggedField('a', AdaptivePart(a), r1, AdaptivePart(a'), t1);
    TaggedField('g', Number(g.co), CounterPart(g, f), Number(h.co), CounterPart(h, e));
    CountersAgree(g, f, h, e);
    NumbersDiffer(k, k');
    NumbersDiffer(g.co, h.co);
  }

  // ---------- Which keys share a text ----------

  /** One id goes on after the other with a colon. */
  predicate Continues(id: string, longer: string) { |id| < |longer| && id <= longer && longer[|id|] == ':' }

  lemma IdsFirst(id: string, r: string, id': string, t: string)
    requires "SIM:" + id + ":" + r == "SIM:" + id' + ":" + t
    ensures (id == id' && r == t) || Continues(id, id') || Continues(id', id)
  {
    var x, y := "SIM:" + id + ":" + r, "SIM:" + id' + ":" + t;
    assert x[4..4 + |id|] == id && y[4..4 + |id'|] == id';
    assert x[4 + |id|] == ':' && y[4 + |id'|] == ':';
    if |id| < |id'| {
      assert id'[..|id|] == y[4..4 + |id|] && id'[|id|] == y[4 + |id|];
    } else if |id'| < |id| {
      assert id[..|id'|] == x[4..4 + |id'|] && id[|id'|] == x[4 + |id'|];
    } else {
      assert x[5 + |id|..] == r && y[5 + |id'|..] == t;
    }
  }

  /**
   Two keys share a text only if they are the same, but for vectors of the same digest, or belong to SIMs of two ids one
   of which goes on after the other with a colon.
   */
  lemma TextsNameKeys(hash: seq<real> -> string, x: Key, y: Key)
    requires KeyText(hash, x) == KeyText(hash, y)
    requires (forall v :: NoColon(hash(v))) && (x.query.Sim? ==> NoColon(x.query.mode)) && (y.query.Sim? ==> NoColon(y.query.mode))
    ensures x.query.Sim? <==> y.query.Sim?
    ensures x.query.Sim? ==> x == y || Continues(x.query.id, y.query.id) || Continues(y.query.id, x.query.id)
    ensures x.query.Simv? ==>
      && hash(x.query.vector) == hash(y.query.vector) && x.query.topK == y.query.topK && x.query.filter == y.query.filter
      && x.gens.(co := 0) == y.gens.(co := 0)
  {
    hide SimTail, CounterPart, Number;
    assert KeyText(hash, x)[3] == (if x.query.Sim? then ':' else 'V') && KeyText(hash, y)[3] == (if y.query.Sim? then ':' else 'V');
    var q, r := x.query, y.query;
    if q.Sim? {
      var s, t := SimTail(q.topK, q.mode, q.adaptive, x.gens, q.filter), SimTail(r.topK, r.mode, r.adaptive, y.gens, r.filter);
      IdsFirst(q.id, s, r.id, t);
      if q.id == r.id && s == t {
        TailsAgree(q.topK, q.mode, q.adaptive, x.gens, q.filter, r.topK, r.mode, r.adaptive, y.gens, r.filter);
      }
    } else {
      var s, t := Number(q.topK) + ":" + CounterPart(x.gens, q.filter), Number(r.topK) + ":" + CounterPart(y.gens, r.filter);
      assert KeyText(hash, x)[5..] == hash(q.vector) + ":" + s && KeyText(hash, y)[5..] == hash(r.vector) + ":" + t;
      FirstField(hash(q.vector), s, hash(r.vector), t);
      NumbersAreFields(q.topK);
      NumbersAreFields(r.topK);
      FirstField(Number(q.topK), CounterPart(x.gens, q.filter), Number(r.topK), CounterPart(y.gens, r.filter));
      NumbersDiffer(q.topK, r.topK);
      CountersAgree(x.gens, q.filter, y.gens, r.filter);
    }
  }

  /** As long as no id holds a colon, the text of a SIM is its own. */
  lemma PlainIdsNeverClash(hash: seq<real> -> string, x: Key, y: Key)
    requires x.query.Sim? && y.query.Sim? && NoColon(x.query.id) && NoColon(y.query.id)
    requires (forall v :: NoColon(hash(v))) && NoColon(x.query.mode) && NoColon(y.query.mode)
    ensures KeyText(hash, x) == KeyText(hash, y) <==> x == y
  {
    if KeyText(hash, x) == KeyText(hash, y) { TextsNameKeys(hash, x, y); }
  }

  /** With a colon they can clash: for every query of any id there are two that share a text, one with a filter, one without. */
  lemma ColonsClash(hash: seq<real> -> string, id: string, topK: nat, mode: string, adaptive: Option<bool>, g: Gens, on: string)
    ensures var tail := SimTail(topK, mode, adaptive, g, "");
      var filtered := Key(Sim(id, topK, mode, adaptive, on + ":" + tail), g);
      var plain := Key(Sim(id + ":" + tail + ":f" + on, topK, mode, adaptive, ""), g);
      KeyText(hash, filtered) == KeyText(hash, plain) && filtered != plain
  {
    hide SimTail;
    var tail := SimTail(topK, mode, adaptive, g, "");
    FilterLast(topK, mode, adaptive, g, on + ":" + tail);
    Regrouped(id, tail, on);
  }

  lemma Regrouped(id: string, tail: string, on: string)
    ensures "SIM:" + id + ":" + (tail + (":f" + (on + ":" + tail))) == "SIM:" + (id + ":" + tail + ":f" + on) + ":" + tail
  {
    var head, rest := "SIM:" + id + ":" + tail, on + ":" + tail;
    assert "SIM:" + id + ":" + (tail + (":f" + rest)) == head + ":f" + rest;
    assert "SIM:" + (id + ":" + tail + ":f" + on) == head + ":f" + on;
    assert (head + ":f" + on) + ":" + tail == head + ":f" + rest;
  }

  lemma FilterLast(topK: nat, mode: string, adaptive: Option<bool>, g: Gens, filter: string)
    requires filter != ""
    ensures SimTail(topK, mode, adaptive, g, filter) == SimTail(topK, mode, adaptive, g, "") + (":f" + filter)
  {
    hide Number, AdaptivePart;
    var f := ":f" + filter;
    assert CounterPart(g, filter) == CounterPart(g, "") + f;
  }
}
