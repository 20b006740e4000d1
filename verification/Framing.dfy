/** How the server cuts a byte stream into request frames, and how it terminates the lines of a response. */
module Framing {
  import opened Sequences

  // ---------- Cutting requests ----------

  predicate IsCrLf(s: string, i: int) { 0 <= i < |s| - 1 && s[i] == '\r' && s[i + 1] == '\n' }

  /** Position of the first LF, or -1. */
  function FindLf(s: string): (p: int)
    ensures -1 <= p < |s|
    ensures p >= 0 ==> s[p] == '\n'
    ensures forall i :: 0 <= i < (if p < 0 then |s| else p) ==> s[i] != '\n'
  {
    if s == "" then -1 else if s[0] == '\n' then 0 else var p := FindLf(s[1..]); if p < 0 then -1 else p + 1
  }

  /** Position of the first CRLF, or -1. */
  function FindCrLf(s: string): (p: int)
    ensures -1 <= p < |s| - 1 || p == -1
    ensures p >= 0 ==> IsCrLf(s, p)
    ensures forall i :: (p < 0 || i < p) ==> !IsCrLf(s, i)
  {
    if |s| < 2 then -1
    else if s[0] == '\r' && s[1] == '\n' then 0
    else
      var p := FindCrLf(s[1..]);
      assert forall i :: IsCrLf(s, i) && i > 0 ==> IsCrLf(s[1..], i - 1);
      if p < 0 then -1 else p + 1
  }

  /** Where the next frame ends, and how long its delimiter is: the first CRLF if there is one, else the first LF. */
  function NextEnd(s: string): int { if FindCrLf(s) >= 0 then FindCrLf(s) else FindLf(s) }

  function Delimiter(s: string): nat { if FindCrLf(s) >= 0 then 2 else 1 }

  /** An empty frame is skipped. */
  function Frame(text: string): seq<string> { if text == "" then [] else [text] }

  /** Frames cut off so far, and the bytes still waiting for a delimiter. */
  datatype Framed = Framed(frames: seq<string>, rest: string)

  /** The framing loop over a buffer, limits aside. */
  function Cut(s: string): Framed
    decreases |s|
  {
    if NextEnd(s) < 0 then Framed([], s)
    else
      var later := Cut(s[NextEnd(s) + Delimiter(s)..]);
      Framed(Frame(s[..NextEnd(s)]) + later.frames, later.rest)
  }

  /** The loop run after each received chunk. */
  function Fed(chunks: seq<string>): Framed
    decreases |chunks|
  {
    if chunks == [] then Framed([], "")
    else
      var before := Fed(chunks[..|chunks| - 1]);
      var now := Cut(before.rest + chunks[|chunks| - 1]);
      Framed(before.frames + now.frames, now.rest)
  }

  // ---------- What the stream means ----------

  function StripCr(line: string): string {
    if line != "" && line[|line| - 1] == '\r' then line[..|line| - 1] else line
  }

  /** The lines of a stream: every LF ends one, and takes one CR before it along. */
  function Lines(s: string): Framed
    decreases |s|
  {
    if FindLf(s) < 0 then Framed([], s)
    else
      var later := Lines(s[FindLf(s) + 1..]);
      Framed(Frame(StripCr(s[..FindLf(s)])) + later.frames, later.rest)
  }

  predicate BareLf(s: string, i: int) { 0 <= i < |s| && s[i] == '\n' && (i == 0 || s[i - 1] != '\r') }

  /** No LF without a CR stands before a CRLF. */
  ghost predicate Uniform(s: string) { forall i, j :: BareLf(s, i) && IsCrLf(s, j) ==> j < i }

  lemma UniformTail(s: string, p: nat)
    requires Uniform(s) && p <= |s| && (p == 0 || s[p - 1] == '\n')
    ensures Uniform(s[p..])
  {
    forall i, j | BareLf(s[p..], i) && IsCrLf(s[p..], j) ensures j < i {
      assert BareLf(s, p + i) && IsCrLf(s, p + j);
    }
  }

  lemma UniformHead(s: string, n: nat)
    requires Uniform(s) && n <= |s|
    ensures Uniform(s[..n])
  {
    forall i, j | BareLf(s[..n], i) && IsCrLf(s[..n], j) ensures j < i {
      assert BareLf(s, i) && IsCrLf(s, j);
    }
  }

  /** On a uniform buffer the loop finds the lines. */
  lemma {:induction false} CutIsLines(s: string)
    requires Uniform(s)
    ensures Cut(s) == Lines(s)
    decreases |s|
  {
    var c, i := FindCrLf(s), FindLf(s);
    if c >= 0 {
      assert s[c + 1] == '\n' && i <= c + 1 && i != c;
      assert i < c ==> !IsCrLf(s, i - 1);
      assert i < c ==> BareLf(s, i);
      assert i == c + 1;
      UniformTail(s, c + 2);
      CutIsLines(s[c + 2..]);
      assert StripCr(s[..i]) == s[..c];
    } else if i >= 0 {
      assert !IsCrLf(s, i - 1);
      UniformTail(s, i + 1);
      CutIsLines(s[i + 1..]);
      assert StripCr(s[..i]) == s[..i];
    }
  }

  lemma FirstLf(s: string, t: string)
    requires FindLf(s) >= 0
    ensures FindLf(s + t) == FindLf(s)
    ensures (s + t)[..FindLf(s)] == s[..FindLf(s)] && (s + t)[FindLf(s) + 1..] == s[FindLf(s) + 1..] + t
  {
    hide FindLf;
    var i := FindLf(s);
    assert (s + t)[i] == '\n' && forall k :: 0 <= k < i ==> (s + t)[k] == s[k];
  }

  lemma LinesStep(s: string)
    ensures FindLf(s) < 0 ==> Lines(s) == Framed([], s)
    ensures FindLf(s) >= 0 ==>
      var later := Lines(s[FindLf(s) + 1..]); Lines(s) == Framed(Frame(StripCr(s[..FindLf(s)])) + later.frames, later.rest)
  {
  }

  /** Lines can be read in pieces. */
  lemma {:induction false} LinesInPieces(s: string, t: string)
    ensures Lines(s + t) == Framed(Lines(s).frames + Lines(Lines(s).rest + t).frames, Lines(Lines(s).rest + t).rest)
    decreases |s|
  {
    hide FindLf, StripCr, Frame, Lines;
    LinesStep(s);
    if FindLf(s) >= 0 {
      LinesStep(s + t);
      FirstLf(s, t);
      LinesInPieces(s[FindLf(s) + 1..], t);
    }
  }

  /** What is left of a stream is its tail after some LF, free of LFs. */
  lemma {:induction false} LinesRest(s: string) returns (p: nat)
    ensures p <= |s| && Lines(s).rest == s[p..] && (p == 0 || s[p - 1] == '\n')
    ensures FindLf(Lines(s).rest) < 0
    decreases |s|
  {
    hide FindLf, StripCr, Frame;
    var i := FindLf(s);
    if i < 0 {
      p := 0;
    } else {
      var tail := s[i + 1..];
      var q := LinesRest(tail);
      p := i + 1 + q;
      assert tail[q..] == s[p..];
    }
  }

  /** However a uniform stream is cut into chunks, its frames are its lines. */
  lemma {:induction false} FedIsLines(chunks: seq<string>)
    requires Uniform(Joined(chunks))
    ensures Fed(chunks) == Lines(Joined(chunks))
    decreases |chunks|
  {
    hide Lines, Cut, FindLf, FindCrLf, Uniform;
    if chunks == [] {
      LinesStep("");
    } else {
      var n := |chunks| - 1;
      var before, s := Joined(chunks[..n]), Joined(chunks);
      assert s[..|before|] == before;
      UniformHead(s, |before|);
      FedIsLines(chunks[..n]);
      LinesInPieces(before, chunks[n]);
      var p := LinesRest(before);
      assert s[p..] == before[p..] + chunks[n];
      UniformTail(s, p);
      CutIsLines(s[p..]);
    }
  }

  // ---------- Mixed delimiters ----------

  /** No line holds an LF. */
  lemma {:induction false} LinesHoldNoLf(s: string, f: string)
    requires f in Lines(s).frames
    ensures '\n' !in f
    decreases |s|
  {
    var i := FindLf(s);
    if i >= 0 && f !in Frame(StripCr(s[..i])) { LinesHoldNoLf(s[i + 1..], f); }
  }

  /** The loop leaves an LF inside a frame when it sees a bare LF and a later CRLF at once. */
  lemma {:induction false} MixedFrameHoldsLf(s: string, i: nat, j: nat) returns (f: string)
    requires BareLf(s, i) && IsCrLf(s, j) && i < j
    ensures f in Cut(s).frames && '\n' in f
    decreases |s|
  {
    var c := FindCrLf(s);
    if i < c {
      f := s[..c];
      assert f[i] == '\n';
    } else {
      assert i != c && i != c + 1;
      var t := s[c + 2..];
      assert BareLf(t, i - c - 2) && IsCrLf(t, j - c - 2);
      f := MixedFrameHoldsLf(t, i - c - 2, j - c - 2);
    }
  }

  function Bytes(s: string): seq<string> { seq(|s|, i requires 0 <= i < |s| => [s[i]]) }

  lemma {:induction false} BytesJoin(s: string)
    ensures Joined(Bytes(s)) == s
    decreases |s|
  {
    if s != "" {
      var n := |s| - 1;
      assert Bytes(s)[..n] == Bytes(s[..n]);
      BytesJoin(s[..n]);
      assert s == s[..n] + [s[n]];
    }
  }

  lemma OneByteMore(rest: string, b: char)
    requires FindLf(rest) < 0
    ensures Cut(rest + [b]) == Lines(rest + [b])
  {
    hide FindLf;
    var t := rest + [b];
    assert forall k :: 0 <= k < |t| - 1 ==> t[k] == rest[k];
    CutIsLines(t);
  }

  lemma FedOnce(s: string)
    ensures Joined([s]) == s && Fed([s]) == Cut(s)
  {
    assert [s][..0] == [] && "" + s == s;
    assert Joined([s][..0]) == "" && Fed([s][..0]) == Framed([], "");
  }

  /** Fed byte by byte, any stream is cut into its lines. */
  lemma {:induction false} BytewiseIsLines(s: string)
    ensures Fed(Bytes(s)) == Lines(s)
    decreases |s|
  {
    hide FindLf, Cut, FindCrLf, Lines;
    if s == "" {
      LinesStep("");
    } else {
      var n := |s| - 1;
      assert Bytes(s)[..n] == Bytes(s[..n]);
      BytewiseIsLines(s[..n]);
      LinesInPieces(s[..n], [s[n]]);
      assert s[..n] + [s[n]] == s;
      var p := LinesRest(s[..n]);
      OneByteMore(Lines(s[..n]).rest, s[n]);
    }
  }

  /**
   The frames of a stream are independent of how it arrives exactly when no bare LF stands before a CRLF;
   then they are its lines.
   */
  lemma FramingIsChunkIndependent(s: string)
    ensures (forall chunks :: Joined(chunks) == s ==> Fed(chunks) == Fed([s])) <==> Uniform(s)
    ensures Uniform(s) ==> forall chunks :: Joined(chunks) == s ==> Fed(chunks) == Lines(s)
  {
    hide FindLf, FindCrLf, Fed, Joined, Lines, Cut, Bytes;
    FedOnce(s);
    if Uniform(s) {
      forall chunks | Joined(chunks) == s ensures Fed(chunks) == Lines(s) { FedIsLines(chunks); }
    } else {
      var i, j :| BareLf(s, i) && IsCrLf(s, j) && !(j < i);
      assert i != j;
      var f := MixedFrameHoldsLf(s, i, j);
      if f in Lines(s).frames { LinesHoldNoLf(s, f); }
      BytesJoin(s);
      BytewiseIsLines(s);
      assert Joined(Bytes(s)) == s && Fed(Bytes(s)) != Fed([s]);
    }
  }
}
