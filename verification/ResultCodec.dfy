/** The fixed-width form in which search results are cached. */
module ResultCodec {
  import opened Bytes
  import opened Numbers
  import opened Wrappers

  const ID_BYTES: nat := 256
  const ROW_BYTES: nat := 260

  /** An id and the bit pattern of its score. */
  datatype Result = Result(id: Text, score: nat)


  /** The id with its terminator and padding, and the score. */
  function Row(r: Result): Text
    requires Storable(r)
  {
    r.id + Zeros(ID_BYTES - |r.id|) + LE(r.score, 4)
  }

  predicate Storable(r: Result) { |r.id| < ID_BYTES && 0 !in r.id }

  /** Scores are 32-bit patterns. */
  predicate Scored(rs: seq<Result>) { forall i :: 0 <= i < |rs| ==> rs[i].score < 0x1_0000_0000 }

  function Rows(rs: seq<Result>): Text
    requires forall i :: 0 <= i < |rs| ==> Storable(rs[i])
  {
    if rs == [] then [] else Row(rs[0]) + Rows(rs[1..])
  }

  /** Position of the first terminator of an id field. */
  function Terminator(field: Text): (p: nat)
    ensures p <= |field| && (p < |field| ==> field[p] == 0) && forall i :: 0 <= i < p ==> field[i] != 0
  {
    if field == [] || field[0] == 0 then 0 else 1 + Terminator(field[1..])
  }

  function ParseRow(row: Text): Option<Result>
    requires |row| == ROW_BYTES
  {
    var p := Terminator(row[..ID_BYTES]);
    if p == ID_BYTES then None else Some(Result(row[..p], FromLE(row[ID_BYTES..])))
  }

  function ParseRows(s: Text): Option<seq<Result>>
    requires |s| % ROW_BYTES == 0
  {
    if s == [] then Some([])
    else
      match ParseRow(s[..ROW_BYTES])
      case None => None
      case Some(r) => match ParseRows(s[ROW_BYTES..]) case None => None case Some(rs) => Some([r] + rs)
  }

  function Prepend(front: seq<Result>, back: Option<seq<Result>>): Option<seq<Result>> {
    if back.Some? then Some(front + back.value) else None
  }

  lemma PrependNothing(back: Option<seq<Result>>)
    ensures Prepend([], back) == back
  {
    if back.Some? { assert [] + back.value == back.value; }
  }

  lemma PrependMore(front: seq<Result>, r: Result, back: Option<seq<Result>>)
    ensures Prepend(front, Prepend([r], back)) == Prepend(front + [r], back)
  {
    if back.Some? { assert front + ([r] + back.value) == (front + [r]) + back.value; }
  }

  /** Builds the rows one by one; gives up on an id that does not fit or holds a NUL. */
  method Serialize(rs: seq<Result>) returns (s: Option<Text>)
    ensures s.Some? <==> |rs| <= INT_MAX / ROW_BYTES && forall i :: 0 <= i < |rs| ==> Storable(rs[i])
    ensures s.Some? ==> s.value == Rows(rs)
  {
    if |rs| > INT_MAX / ROW_BYTES { return None; }
    var bytes: Text := [];
    var index := 0;
    while index < |rs|
      invariant 0 <= index <= |rs| && forall i :: 0 <= i < index ==> Storable(rs[i])
      invariant bytes == Rows(rs[..index])
    {
      if |rs[index].id| >= ID_BYTES || 0 in rs[index].id { return None; }
      RowsMore(rs, index);
      bytes := bytes + Row(rs[index]);
      index := index + 1;
    }
    assert rs[..index] == rs;
    s := Some(bytes);
  }

  method Deserialize(s: Text) returns (rs: Option<seq<Result>>)
    ensures rs == if |s| % ROW_BYTES != 0 || |s| > INT_MAX then None else ParseRows(s)
  {
    if |s| % ROW_BYTES != 0 || |s| > INT_MAX { return None; }
    var results: seq<Result> := [];
    var start := 0;
    PrependNothing(ParseRows(s));
    assert s[0..] == s;
    while start < |s|
      invariant 0 <= start <= |s| && start % ROW_BYTES == 0
      invariant ParseRows(s) == Prepend(results, ParseRows(s[start..]))
      decreases |s| - start
    {
      assert s[start..][..ROW_BYTES] == s[start..start + ROW_BYTES] && s[start..][ROW_BYTES..] == s[start + ROW_BYTES..];
      var r := ParseRow(s[start..start + ROW_BYTES]);
      if r.None? { return None; }
      PrependMore(results, r.value, ParseRows(s[start + ROW_BYTES..]));
      results := results + [r.value];
      start := start + ROW_BYTES;
    }
    assert results + [] == results;
    rs := Some(results);
  }

  lemma {:induction false} RowsMore(rs: seq<Result>, n: nat)
    requires n < |rs| && forall i :: 0 <= i <= n ==> Storable(rs[i])
    ensures Rows(rs[..n + 1]) == Rows(rs[..n]) + Row(rs[n])
  {
    hide Row;
    if n > 0 {
      assert rs[..n + 1][1..] == rs[1..][..n] && rs[..n][1..] == rs[1..][..n - 1];
      RowsMore(rs[1..], n - 1);
    } else {
      assert rs[..1][1..] == [] && Rows(rs[..1][1..]) == [];
    }
  }

  lemma RowIsParsed(r: Result)
    requires Storable(r) && r.score < 0x1_0000_0000
    ensures |Row(r)| == ROW_BYTES && ParseRow(Row(r)) == Some(r)
  {
    hide LE, FromLE, Terminator;
    Powers();
    LERoundTrip(r.score, 4);
    var row := Row(r);
    assert row[ID_BYTES..] == LE(r.score, 4);
    var field := row[..ID_BYTES];
    assert field[|r.id|] == 0 && forall i :: 0 <= i < |r.id| ==> field[i] == r.id[i];
    assert row[..|r.id|] == r.id;
  }

  /** What can be serialized is read back unchanged; the size check never rejects it. */
  lemma {:induction false} RowsRoundTrip(rs: seq<Result>)
    requires Scored(rs) && forall i :: 0 <= i < |rs| ==> Storable(rs[i])
    ensures |Rows(rs)| == ROW_BYTES * |rs| && ParseRows(Rows(rs)) == Some(rs)
    ensures |rs| <= INT_MAX / ROW_BYTES ==> |Rows(rs)| <= INT_MAX
  {
    hide Row, ParseRow;
    if rs != [] {
      RowIsParsed(rs[0]);
      RowsRoundTrip(rs[1..]);
      var s := Rows(rs);
      assert s[..ROW_BYTES] == Row(rs[0]) && s[ROW_BYTES..] == Rows(rs[1..]);
      assert [rs[0]] + rs[1..] == rs;
    }
  }
}
