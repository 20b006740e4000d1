/** Repetition, concatenation and ends of sequences. */
module Sequences {
  predicate Distinct<T(==)>(s: seq<T>) {
    s == [] || (s[0] !in s[1..] && Distinct(s[1..]))
  }

  lemma {:induction false} DistinctIff<T>(s: seq<T>)
    ensures Distinct(s) <==> forall i, j :: 0 <= i < j < |s| ==> s[i] != s[j]
  {
    if s != [] {
      DistinctIff(s[1..]);
      var t := s[1..];
      assert forall i :: 0 < i < |s| ==> s[i] == t[i - 1];
      if forall i, j :: 0 <= i < j < |s| ==> s[i] != s[j] {
        assert forall i, j :: 0 <= i < j < |t| ==> t[i] == s[i + 1] && t[j] == s[j + 1];
      }
    }
  }

  function Joined<T>(chunks: seq<seq<T>>): seq<T>
    decreases |chunks|
  {
    if chunks == [] then [] else Joined(chunks[..|chunks| - 1]) + chunks[|chunks| - 1]
  }

  lemma {:induction false} JoinedConcat<T>(s: seq<seq<T>>, t: seq<seq<T>>)
    ensures Joined(s + t) == Joined(s) + Joined(t)
    decreases |t|
  {
    if t == [] {
      assert s + t == s;
    } else {
      var n := |t| - 1;
      assert (s + t)[..|s + t| - 1] == s + t[..n];
      JoinedConcat(s, t[..n]);
      var x, y := Joined(s), Joined(t[..n]);
      assert (x + y) + t[n] == x + (y + t[n]);
    }
  }

  lemma JoinedOne<T>(x: seq<T>)
    ensures Joined([x]) == x
  {
    assert [x][..0] == [] && Joined([x][..0]) == [];
  }

  /** What comes first in the chunks comes first in the whole. */
  lemma JoinedHead<T>(chunks: seq<seq<T>>)
    requires chunks != []
    ensures Joined(chunks) == chunks[0] + Joined(chunks[1..])
  {
    assert chunks == [chunks[0]] + chunks[1..];
    JoinedConcat([chunks[0]], chunks[1..]);
    JoinedOne(chunks[0]);
  }

  function Front<T>(s: seq<T>): seq<T> { if s == [] then [] else s[..|s| - 1] }

  function Last<T>(s: seq<T>): T
    requires s != []
  {
    s[|s| - 1]
  }
}
