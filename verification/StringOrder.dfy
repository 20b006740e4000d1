/** Lexicographic order of identifiers, and sorting by it. */
module StringOrder {
  predicate Less(a: string, b: string) {
    if b == "" then false
    else if a == "" then true
    else a[0] < b[0] || (a[0] == b[0] && Less(a[1..], b[1..]))
  }

  lemma {:induction false} LessIsTotal(a: string, b: string)
    ensures Less(a, b) || a == b || Less(b, a)
    ensures !(Less(a, b) && Less(b, a)) && (Less(a, b) ==> a != b)
  {
    if a != "" && b != "" {
      LessIsTotal(a[1..], b[1..]);
      if a[0] == b[0] && a[1..] == b[1..] { assert a == [a[0]] + a[1..]; assert b == [b[0]] + b[1..]; }
    }
  }

  /** A string comes before another if it is a proper beginning of it, or has the smaller character where they first differ. */
  lemma {:induction false} LessIsLexicographic(a: string, b: string)
    ensures Less(a, b) <==>
      || (a <= b && a != b)
      || exists k :: DifferAt(a, b, k)
  {
    if a != "" && b != "" {
      LessIsLexicographic(a[1..], b[1..]);
      BeginningMore(a, b);
      if exists k :: DifferAt(a, b, k) {
        var k :| DifferAt(a, b, k);
        DifferMore(a, b, k);
      }
      if a[0] < b[0] { DifferMore(a, b, 0); }
      if exists k :: DifferAt(a[1..], b[1..], k) {
        var k :| DifferAt(a[1..], b[1..], k);
        DifferMore(a, b, k + 1);
      }
    }
  }

  /** Equal up to `k`, and smaller there. */
  predicate DifferAt(a: string, b: string, k: int) { 0 <= k < |a| && k < |b| && a[..k] == b[..k] && a[k] < b[k] }

  lemma BeginningMore(a: string, b: string)
    requires a != "" && b != ""
    ensures a <= b && a != b <==> a[0] == b[0] && a[1..] <= b[1..] && a[1..] != b[1..]
  {
    assert a == [a[0]] + a[1..] && b == [b[0]] + b[1..];
  }

  lemma DifferMore(a: string, b: string, k: int)
    requires a != "" && b != ""
    ensures DifferAt(a, b, k) <==> if k == 0 then a[0] < b[0] else a[0] == b[0] && DifferAt(a[1..], b[1..], k - 1)
  {
    if 0 < k < |a| && k < |b| {
      assert a[..k] == [a[0]] + a[1..][..k - 1] && b[..k] == [b[0]] + b[1..][..k - 1];
      assert a[..k][0] == a[0] && b[..k][0] == b[0] && a[..k][1..] == a[1..][..k - 1] && b[..k][1..] == b[1..][..k - 1];
    }
  }

  lemma {:induction false} LessIsTransitive(a: string, b: string, c: string)
    requires Less(a, b) && Less(b, c)
    ensures Less(a, c)
  {
    if a != "" && a[0] == b[0] && b[0] == c[0] { LessIsTransitive(a[1..], b[1..], c[1..]); }
  }

  predicate Ascending(s: seq<string>) {
    forall i, j :: 0 <= i < j < |s| ==> Less(s[i], s[j])
  }

  /** Sorts and drops repeats. */
  method SortUnique(ids: seq<string>) returns (r: seq<string>)
    ensures Ascending(r) && forall x :: x in r <==> x in ids
  {
    r := [];
    for i := 0 to |ids|
      invariant Ascending(r) && forall x :: x in r <==> x in ids[..i]
    {
      assert ids[..i + 1] == ids[..i] + [ids[i]];
      var k := 0;
      while k < |r| && Less(r[k], ids[i])
        invariant 0 <= k <= |r| && forall j :: 0 <= j < k ==> Less(r[j], ids[i])
      {
        k := k + 1;
      }
      if k == |r| || r[k] != ids[i] {
        ghost var before := r;
        if k < |r| { LessIsTotal(r[k], ids[i]); }
        r := r[..k] + [ids[i]] + r[k..];
        forall p, q | 0 <= p < q < |r| ensures Less(r[p], r[q]) {
          if p == k && q > k + 1 { LessIsTransitive(ids[i], before[k], before[q - 1]); }
        }
        assert forall x :: x in r <==> x in before || x == ids[i] by {
          assert before == before[..k] + before[k..];
        }
      }
    }
    assert ids[..|ids|] == ids;
  }
}
