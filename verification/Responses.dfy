/** What the server prints, and that the client's framing agrees with it. */
module Responses {
  import opened Wrappers
  import opened Framing
  import opened ClientFraming

  // ---------- Line endings ----------

  predicate LineChar(c: char) { c == '\r' || c == '\n' }

  function Trimmed(s: string): string
    decreases |s|
  {
    if s != "" && LineChar(s[|s| - 1]) then Trimmed(s[..|s| - 1]) else s
  }

  function ExpandChar(c: char): string { if c == '\r' then "" else if c == '\n' then "\r\n" else [c] }

  function Expand(s: string): string { if s == "" then "" else ExpandChar(s[0]) + Expand(s[1..]) }

  /** A response as it goes out: its lines end in CRLF, the last one included, with no empty lines at the end. */
  function Normalized(s: string): string { Expand(Trimmed(s)) + "\r\n" }

  /** CR and LF occur only together. */
  predicate Paired(s: string) {
    && (forall i :: 0 <= i < |s| && s[i] == '\r' ==> i + 1 < |s| && s[i + 1] == '\n')
    && (forall i :: 0 <= i < |s| && s[i] == '\n' ==> i > 0 && s[i - 1] == '\r')
  }

  predicate Normal(s: string) {
    Paired(s) && |s| >= 2 && s[|s| - 1] == '\n' && (|s| > 2 ==> s[|s| - 3] != '\n')
  }

  lemma ExpandFrom(s: string, i: nat)
    requires i <= |s|
    ensures i == |s| ==> Expand(s[i..]) == ""
    ensures i < |s| ==> Expand(s[i..]) == ExpandChar(s[i]) + Expand(s[i + 1..])
  {
    if i < |s| { assert s[i..][1..] == s[i + 1..]; }
  }

  method NormalizeResponse(response: string) returns (normalized: string)
    ensures normalized == Normalized(response)
  {
    hide Expand;
    var end := |response|;
    assert response[..end] == response;
    while end > 0 && (response[end - 1] == '\r' || response[end - 1] == '\n')
      invariant 0 <= end <= |response| && Trimmed(response[..end]) == Trimmed(response)
    {
      assert response[..end][..end - 1] == response[..end - 1];
      end := end - 1;
    }
    var text := response[..end];
    assert Trimmed(response) == text;
    normalized := "";
    var i := 0;
    assert text[0..] == text;
    while i < end
      invariant 0 <= i <= end && normalized + Expand(text[i..]) == Expand(text)
    {
      ExpandFrom(text, i);
      ghost var rest := Expand(text[i + 1..]);
      assert (normalized + ExpandChar(text[i])) + rest == normalized + (ExpandChar(text[i]) + rest);
      if response[i] == '\r' {
        assert normalized + "" == normalized;
      } else if response[i] == '\n' {
        normalized := normalized + "\r\n";
      } else {
        normalized := normalized + [response[i]];
      }
      i := i + 1;
    }
    ExpandFrom(text, end);
    assert normalized + "" == normalized;
    normalized := normalized + "\r\n";
  }

  lemma {:induction false} TrimmedEnd(s: string)
    ensures Trimmed(s) <= s && (Trimmed(s) != "" ==> !LineChar(Trimmed(s)[|Trimmed(s)| - 1]))
    decreases |s|
  {
    if s != "" && LineChar(s[|s| - 1]) { TrimmedEnd(s[..|s| - 1]); }
  }

  lemma {:induction false} ExpandConcat(s: string, t: string)
    ensures Expand(s + t) == Expand(s) + Expand(t)
  {
    if s == "" {
      assert s + t == t;
    } else {
      assert (s + t)[1..] == s[1..] + t;
      ExpandConcat(s[1..], t);
    }
  }

  lemma {:induction false} ExpandIsPaired(s: string)
    ensures Paired(Expand(s))
  {
    if s != "" {
      ExpandIsPaired(s[1..]);
      var t := Expand(s[1..]);
      assert s[0] == '\n' ==> forall i :: 0 <= i < |t| ==> Expand(s)[i + 2] == t[i];
      assert !LineChar(s[0]) ==> forall i :: 0 <= i < |t| ==> Expand(s)[i + 1] == t[i];
    }
  }

  lemma {:induction false} PairedExpandsToItself(s: string)
    requires Paired(s)
    ensures Expand(s) == s
    decreases |s|
  {
    if s != "" {
      if s[0] == '\r' {
        assert s[1] == '\n' && s == "\r\n" + s[2..] && s[1..][1..] == s[2..];
        PairedExpandsToItself(s[2..]);
      } else {
        assert s == [s[0]] + s[1..];
        PairedExpandsToItself(s[1..]);
      }
    }
  }

  lemma {:induction false} ExpandEnd(s: string)
    requires s != "" && !LineChar(s[|s| - 1])
    ensures Expand(s) != "" && Expand(s)[|Expand(s)| - 1] == s[|s| - 1]
  {
    if |s| > 1 {
      var t := s[1..];
      assert t[|t| - 1] == s[|s| - 1];
      ExpandEnd(t);
      var x, y := ExpandChar(s[0]), Expand(t);
      assert (x + y)[|x + y| - 1] == y[|y| - 1];
    } else {
      assert Expand(s[1..]) == "";
    }
  }

  lemma NormalizedIsNormal(s: string)
    ensures Normal(Normalized(s))
  {
    var t := Trimmed(s);
    TrimmedEnd(s);
    ExpandIsPaired(t);
    if t != "" { ExpandEnd(t); }
  }

  function NoCr(s: string): string { if s == "" then "" else (if s[0] == '\r' then "" else [s[0]]) + NoCr(s[1..]) }

  lemma {:induction false} NoCrConcat(s: string, t: string)
    ensures NoCr(s + t) == NoCr(s) + NoCr(t)
  {
    if s == "" {
      assert s + t == t;
    } else {
      assert (s + t)[1..] == s[1..] + t;
      NoCrConcat(s[1..], t);
    }
  }

  lemma {:induction false} ExpandKeepsText(s: string)
    ensures NoCr(Expand(s)) == NoCr(s)
  {
    if s != "" {
      ExpandKeepsText(s[1..]);
      NoCrConcat(ExpandChar(s[0]), Expand(s[1..]));
      CrLf();
      assert [s[0]][1..] == "";
    }
  }

  lemma CrLf()
    ensures NoCr("\r\n") == "\n"
  {
    assert "\r\n"[1..] == "\n" && "\n"[1..] == "";
    assert NoCr("\n") == "\n";
  }

  /** The text of a response stays as it is, but for CRs and for line ends at its end, of which one is left. */
  lemma NormalizedKeepsText(s: string)
    ensures exists t ::
      && t <= s && (forall i :: |t| <= i < |s| ==> LineChar(s[i])) && (t != "" ==> !LineChar(t[|t| - 1]))
      && NoCr(Normalized(s)) == NoCr(t) + "\n"
  {
    var t := Trimmed(s);
    TrimmedEnd(s);
    TrimmedRest(s);
    ExpandKeepsText(t);
    NoCrConcat(Expand(t), "\r\n");
    CrLf();
    assert t <= s && NoCr(Normalized(s)) == NoCr(t) + "\n";
  }

  lemma {:induction false} TrimmedRest(s: string)
    ensures |Trimmed(s)| <= |s| && forall i :: |Trimmed(s)| <= i < |s| ==> LineChar(s[i])
    decreases |s|
  {
    if s != "" && LineChar(s[|s| - 1]) { TrimmedRest(s[..|s| - 1]); }
  }

  /** Normalizing leaves exactly the normal responses alone; so it is idempotent. */
  lemma NormalFormsAreFixed(s: string)
    ensures Normalized(s) == s <==> Normal(s)
    ensures Normalized(Normalized(s)) == Normalized(s)
  {
    NormalizedIsNormal(s);
    if Normal(s) { NormalIsFixed(s); }
    NormalIsFixed(Normalized(s));
  }

  lemma NormalIsFixed(s: string)
    requires Normal(s)
    ensures Normalized(s) == s
  {
    var n := |s| - 2;
    var t := s[..n];
    assert s[n] == '\r' && s == t + "\r\n";
    assert s[..|s| - 1][..n] == t && s[..|s| - 1][n] == '\r';
    assert Trimmed(s) == Trimmed(s[..|s| - 1]) == Trimmed(t);
    if n > 0 { assert t[n - 1] == s[n - 1] && s[n - 1] != '\r'; }
    assert Trimmed(t) == t;
    assert Paired(t) by { assert forall i :: 0 <= i < n ==> t[i] == s[i]; }
    PairedExpandsToItself(t);
  }

  // ---------- Search results ----------

  predicate Holds(s: string, c: char) { exists i :: 0 <= i < |s| && s[i] == c }

  /** An id and its printed score. */
  datatype Row = Row(id: string, score: string)

  function Rows(results: seq<Row>): string {
    if results == [] then "" else results[0].id + " " + results[0].score + "\r\n" + Rows(results[1..])
  }

  function SimResults(results: seq<Row>): string { RESULTS + Decimal(|results|) + "\r\n" + Rows(results) }

  method FormatSimResults(results: seq<Row>) returns (s: string)
    ensures s == SimResults(results)
  {
    s := RESULTS + Decimal(|results|) + "\r\n";
    ghost var header := s;
    var i := 0;
    assert results[0..] == results;
    while i < |results|
      invariant 0 <= i <= |results| && s + Rows(results[i..]) == header + Rows(results)
    {
      assert results[i..][1..] == results[i + 1..];
      var row := results[i].id + " " + results[i].score + "\r\n";
      assert s + (row + Rows(results[i + 1..])) == (s + row) + Rows(results[i + 1..]);
      s := s + results[i].id + " " + results[i].score + "\r\n";
      i := i + 1;
    }
    assert s + Rows(results[i..]) == s;
  }

  // ---------- Counting lines ----------

  function LfCount(s: string): nat { if s == "" then 0 else (if s[0] == '\n' then 1 else 0) + LfCount(s[1..]) }

  lemma {:induction false} LfCountConcat(s: string, t: string)
    ensures LfCount(s + t) == LfCount(s) + LfCount(t)
  {
    if s == "" {
      assert s + t == t;
    } else {
      assert (s + t)[1..] == s[1..] + t;
      LfCountConcat(s[1..], t);
    }
  }

  lemma {:induction false} NoLfCount(s: string)
    ensures LfCount(s) == 0 <==> '\n' !in s
  {
    if s != "" {
      assert s == [s[0]] + s[1..];
      NoLfCount(s[1..]);
    }
  }

  lemma {:induction false} ExpandKeepsLfs(s: string)
    ensures LfCount(Expand(s)) == LfCount(s)
  {
    if s != "" {
      ExpandKeepsLfs(s[1..]);
      LfCountConcat(ExpandChar(s[0]), Expand(s[1..]));
      assert "\r\n"[1..] == "\n" && "\n"[1..] == "" && [s[0]][1..] == "";
      assert LfCount("\n") == 1;
      assert LfCount("\r\n") == 1;
    }
  }

  /** Skipping lines consumes exactly that many LFs and stops right after one. */
  lemma {:induction false} SkipCounts(b: string, cursor: nat, n: nat)
    requires cursor <= |b|
    ensures SkipLines(b, cursor, n).Some? <==> LfCount(b[cursor..]) >= n
    ensures SkipLines(b, cursor, n).Some? ==>
      var e := SkipLines(b, cursor, n).value;
      LfCount(b[cursor..e]) == n && (n > 0 ==> b[e - 1] == '\n')
    decreases n
  {
    if n > 0 {
      NextLine(b, cursor);
      if LineEnd(b, cursor).Some? {
        var e := LineEnd(b, cursor).value;
        SkipCounts(b, e, n - 1);
        if SkipLines(b, e, n - 1).Some? {
          var f := SkipLines(b, e, n - 1).value;
          assert b[cursor..f] == b[cursor..e] + b[e..f];
          LfCountConcat(b[cursor..e], b[e..f]);
          if n == 1 { assert f == e; }
        }
      }
    } else {
      assert b[cursor..cursor] == "";
    }
  }

  lemma NextLine(b: string, cursor: nat)
    requires cursor <= |b|
    ensures LineEnd(b, cursor).None? ==> LfCount(b[cursor..]) == 0
    ensures LineEnd(b, cursor).Some? ==>
      var e := LineEnd(b, cursor).value;
      b[e - 1] == '\n' && LfCount(b[cursor..e]) == 1 && LfCount(b[cursor..]) == 1 + LfCount(b[e..])
  {
    hide Find, LfCount;
    forall k | cursor <= k < |b| ensures At(b, "\n", k) <==> b[k] == '\n' { assert b[k..k + 1] == [b[k]]; }
    if LineEnd(b, cursor).None? {
      NoLfCount(b[cursor..]);
    } else {
      var e := LineEnd(b, cursor).value;
      assert At(b, "\n", e - 1);
      NoLfCount(b[cursor..e - 1]);
      assert b[cursor..e] == b[cursor..e - 1] + "\n" && b[cursor..] == b[cursor..e] + b[e..];
      LfCountConcat(b[cursor..e - 1], "\n");
      LfCountConcat(b[cursor..e], b[e..]);
      OneLf();
    }
  }

  lemma OneLf()
    ensures LfCount("\n") == 1 && LfCount("\r\n") == 1 && LfCount("") == 0
  {
    assert "\r\n"[1..] == "\n" && "\n"[1..] == "";
    assert LfCount("\n") == 1;
  }

  /** A text ending in LF is what skipping its number of lines skips, and only that number of lines. */
  lemma SkipText(p: string, s: string, t: string, n: nat)
    requires s != "" && s[|s| - 1] == '\n' && n > 0 && LfCount(s) >= n
    ensures SkipLines(p + s + t, |p|, n).Some?
    ensures SkipLines(p + s + t, |p|, n).value == |p + s| <==> LfCount(s) == n
  {
    hide LfCount, SkipLines;
    var b, st, c := p + s + t, s + t, |p|;
    assert b[c..] == st && |st| == |s| + |t|;
    LfCountConcat(s, t);
    SkipCounts(b, c, n);
    var e := SkipLines(b, c, n).value - c;
    assert b[c..c + e] == st[..e];
    if e < |s| {
      assert st[..e] == s[..e] && s == s[..e] + s[e..];
      LfCountConcat(s[..e], s[e..]);
      NoLfCount(s[e..]);
      assert s[e..][|s| - 1 - e] == '\n';
    } else {
      var more := t[..e - |s|];
      assert e > |s| ==> more[e - |s| - 1] == st[e - 1] == b[c + e - 1];
      assert st[..e] == s + more;
      LfCountConcat(s, more);
      NoLfCount(more);
    }
  }

  // ---------- Printer and framer agree ----------

  predicate Plain(text: string) { text != "" && '\r' !in text && '\n' !in text }

  predicate IdsHoldNoLf(results: seq<Row>) { forall i :: 0 <= i < |results| ==> '\n' !in results[i].id }

  predicate Scored(results: seq<Row>) { forall i :: 0 <= i < |results| ==> Plain(results[i].score) }

  lemma {:induction false} RowsCount(results: seq<Row>)
    requires Scored(results)
    ensures LfCount(Rows(results)) >= |results|
    ensures LfCount(Rows(results)) == |results| <==> IdsHoldNoLf(results)
  {
    hide LfCount;
    OneLf();
    if results != [] {
      var row, tail := results[0], results[1..];
      RowsCount(tail);
      assert Plain(row.score);
      NoLfCount(row.id);
      NoLfCount(row.score);
      NoLfCount(" ");
      LfCountConcat(row.id, " ");
      LfCountConcat(row.id + " ", row.score);
      LfCountConcat(row.id + " " + row.score, "\r\n");
      LfCountConcat(row.id + " " + row.score + "\r\n", Rows(tail));
      assert IdsHoldNoLf(results) <==> '\n' !in row.id && IdsHoldNoLf(tail) by {
        assert forall i :: 1 <= i < |results| ==> results[i] == tail[i - 1];
        assert forall i :: 0 <= i < |tail| ==> tail[i] == results[i + 1];
      }
    }
  }

  /** Texts whose lines are closed, and whose last line is not empty. */
  predicate Closed(s: string) { |s| > 2 && s[|s| - 2..] == "\r\n" && !LineChar(s[|s| - 3]) }

  lemma ClosedNormalized(s: string)
    requires Closed(s)
    ensures Normalized(s) == Expand(s) && Expand(s) != "" && Expand(s)[|Expand(s)| - 1] == '\n'
    ensures LfCount(Expand(s)) == LfCount(s)
  {
    hide LfCount, Expand;
    var n := |s| - 2;
    var core := s[..n];
    assert s == core + "\r\n" && s[n] == '\r' && s[n + 1] == '\n';
    assert s[..|s| - 1][n] == '\r' && s[..|s| - 1][..n] == core;
    assert Trimmed(s) == Trimmed(s[..|s| - 1]) == core;
    ExpandConcat(core, "\r\n");
    PairedExpandsToItself("\r\n");
    ExpandKeepsLfs(s);
  }

  lemma {:induction false} RowsClosed(results: seq<Row>)
    requires Scored(results) && results != []
    ensures Closed(Rows(results))
  {
    var row := results[0];
    var line := row.id + " " + row.score + "\r\n";
    assert Plain(row.score);
    assert line[|line| - 2..] == "\r\n" && line[|line| - 3] == row.score[|row.score| - 1];
    if |results| > 1 {
      RowsClosed(results[1..]);
      ClosedAppends(line, Rows(results[1..]));
    } else {
      assert line + Rows(results[1..]) == line;
    }
  }

  lemma ClosedAppends(s: string, t: string)
    requires Closed(t)
    ensures Closed(s + t)
  {
    assert (s + t)[|s + t| - 2..] == t[|t| - 2..];
  }

  /** The first line of a result list. */
  function Header(n: nat): string { RESULTS + Decimal(n) }

  lemma {:induction false} PlainLine(s: string)
    requires Plain(s)
    ensures Closed(s + "\r\n") && LfCount(s + "\r\n") == 1 && Expand(s + "\r\n") == s + "\r\n"
  {
    hide LfCount, Expand;
    OneLf();
    NoLfCount(s);
    LfCountConcat(s, "\r\n");
    assert (s + "\r\n")[|s|..] == "\r\n";
    PairedExpandsToItself(s + "\r\n");
  }

  lemma HeaderIsPlain(n: nat)
    ensures Plain(Header(n))
  {
    assert forall c :: c in RESULTS ==> !LineChar(c);
    assert forall c :: c in Decimal(n) ==> IsDigit(c);
  }

  lemma ReadLine(p: string, line: string, t: string)
    requires Plain(line)
    ensures LineEnd(p + (line + "\r\n") + t, |p|) == Some(|p| + |line| + 2)
    ensures LineText(p + (line + "\r\n") + t, |p|, |p| + |line| + 2) == line
  {
    hide Find;
    var b, e := p + (line + "\r\n") + t, |p| + |line| + 1;
    assert b[e..e + 1] == "\n";
    assert At(b, "\n", e);
    forall k | |p| <= k < e ensures !At(b, "\n", k) {
      assert b[k..k + 1][0] == b[k];
      assert k < |p| + |line| ==> b[k] == line[k - |p|];
    }
    assert b[|p|..e] == line + "\r";
  }

  /** The printed list: its header line and its rows, each CR of an id lost. */
  lemma PrintedResults(results: seq<Row>)
    requires Scored(results)
    ensures Closed(SimResults(results))
    ensures Expand(SimResults(results)) == (Header(|results|) + "\r\n") + Expand(Rows(results))
    ensures LfCount(SimResults(results)) >= |results| + 1
    ensures LfCount(SimResults(results)) == |results| + 1 <==> IdsHoldNoLf(results)
  {
    hide LfCount, Expand, Rows, Decimal, Scored, IdsHoldNoLf, Closed;
    var h := Header(|results|);
    HeaderIsPlain(|results|);
    PlainLine(h);
    RowsCount(results);
    assert SimResults(results) == (h + "\r\n") + Rows(results);
    LfCountConcat(h + "\r\n", Rows(results));
    ExpandConcat(h + "\r\n", Rows(results));
    if results == [] {
      NoRows();
      assert (h + "\r\n") + "" == h + "\r\n";
    } else {
      RowsClosed(results);
      ClosedAppends(h + "\r\n", Rows(results));
    }
  }

  lemma NoRows()
    ensures Rows([]) == "" && Expand("") == ""
  {
  }

  /** What the framer sees first in a result list. */
  lemma ResultsHeader(n: nat, rest: string, frame: ResponseFrame)
    requires !frame.endTerminated && n < 0x8000_0000
    ensures var b := (Header(n) + "\r\n") + rest;
      var lines := SkipLines(b, 0, n + 1);
      ResponseLength(b, frame) == if lines.None? || !frame.debugSimilarity then lines else DebugEnd(b, lines.value)
  {
    hide LineEnd, LineText, SkipLines, DebugEnd, Decimal, ParseDecimal, Plain;
    HeaderIsPlain(n);
    ReadLine("", Header(n), rest);
    assert "" + (Header(n) + "\r\n") + rest == (Header(n) + "\r\n") + rest;
    assert Header(n)[|RESULTS|..] == Decimal(n);
    DecimalRoundTrip(n);
  }

  /**
   The framer finds the end of a printed result list, whatever follows it, exactly when no id holds an LF.
   */
  lemma PrinterMeetsFramer(results: seq<Row>, t: string, frame: ResponseFrame)
    requires Scored(results) && |results| < 0x8000_0000 && !frame.endTerminated && !frame.debugSimilarity
    ensures var s := Normalized(SimResults(results));
      && ResponseLength(s + t, frame).Some?
      && (ResponseLength(s + t, frame).value == |s| <==> IdsHoldNoLf(results))
  {
    hide LfCount, Expand, SimResults, Scored, IdsHoldNoLf, Closed, Normalized, ResponseLength, SkipLines;
    PrintedResults(results);
    ClosedNormalized(SimResults(results));
    var s, h, n := Expand(SimResults(results)), Header(|results|) + "\r\n", |results|;
    SkipText("", s, t, n + 1);
    assert "" + s + t == s + t && |"" + s| == |s|;
    assert s + t == h + (Expand(Rows(results)) + t);
    ResultsHeader(n, Expand(Rows(results)) + t, frame);
  }

  // ---------- Debug blocks ----------

  function Fields(fields: seq<string>): string {
    if fields == [] then "" else fields[0] + "\r\n" + Fields(fields[1..])
  }

  /** The block announces how many fields it has; the server prints four. */
  function DebugBlock(fields: seq<string>): string { DEBUG + Decimal(|fields|) + "\r\n" + Fields(fields) }

  predicate AllPlain(fields: seq<string>) { forall i :: 0 <= i < |fields| ==> Plain(fields[i]) }

  lemma {:induction false} FieldsAreLines(fields: seq<string>)
    requires AllPlain(fields)
    ensures LfCount(Fields(fields)) == |fields| && Expand(Fields(fields)) == Fields(fields)
    ensures fields != [] ==> Closed(Fields(fields))
  {
    hide LfCount, Expand;
    OneLf();
    NoRows();
    if fields != [] {
      var line, tail := fields[0] + "\r\n", fields[1..];
      FieldsAreLines(tail);
      assert Plain(fields[0]);
      PlainLine(fields[0]);
      LfCountConcat(line, Fields(tail));
      ExpandConcat(line, Fields(tail));
      if tail == [] { assert line + Fields(tail) == line; } else { ClosedAppends(line, Fields(tail)); }
    }
  }

  lemma DebugHeaderIsPlain(n: nat)
    ensures Plain(DEBUG + Decimal(n))
  {
    assert forall c :: c in DEBUG ==> !LineChar(c);
    assert forall c :: c in Decimal(n) ==> IsDigit(c);
  }

  lemma PrintedBlock(fields: seq<string>)
    requires AllPlain(fields) && fields != []
    ensures Closed(DebugBlock(fields)) && Expand(DebugBlock(fields)) == DebugBlock(fields)
  {
    hide LfCount, Expand, Decimal, AllPlain, Closed;
    var h := DEBUG + Decimal(|fields|);
    DebugHeaderIsPlain(|fields|);
    PlainLine(h);
    FieldsAreLines(fields);
    ExpandConcat(h + "\r\n", Fields(fields));
    ClosedAppends(h + "\r\n", Fields(fields));
  }

  /** The framer on a debug block that starts at |p|. */
  lemma BlockEnd(p: string, fields: seq<string>, t: string)
    requires AllPlain(fields) && 0 < |fields| <= INT64_MAX
    ensures DebugEnd(p + DebugBlock(fields) + t, |p|) == Some(|p + DebugBlock(fields)|)
  {
    hide LfCount, Expand, Decimal, AllPlain, ParseDecimal, LineEnd, LineText, SkipLines, Plain;
    var h := DEBUG + Decimal(|fields|);
    var b := p + DebugBlock(fields) + t;
    DebugHeaderIsPlain(|fields|);
    FieldsAreLines(fields);
    ReadLine(p, h, Fields(fields) + t);
    assert b == p + (h + "\r\n") + (Fields(fields) + t);
    assert h[|DEBUG|..] == Decimal(|fields|);
    DecimalRoundTrip(|fields|);
    var q := p + (h + "\r\n");
    assert b == q + Fields(fields) + t && |q| == |p| + |h| + 2;
    SkipText(q, Fields(fields), t, |fields|);
    assert q + Fields(fields) == p + DebugBlock(fields);
  }

  /** With debugging on at both ends, the framer finds the end of the list and its debug block together. */
  lemma DebugPrinterMeetsFramer(results: seq<Row>, fields: seq<string>, t: string, frame: ResponseFrame)
    requires Scored(results) && IdsHoldNoLf(results) && |results| < 0x8000_0000
    requires AllPlain(fields) && 0 < |fields| <= INT64_MAX && !frame.endTerminated && frame.debugSimilarity
    ensures var s := Normalized(SimResults(results) + DebugBlock(fields)); ResponseLength(s + t, frame) == Some(|s|)
  {
    hide LfCount, Expand, SimResults, DebugBlock, Scored, IdsHoldNoLf, Closed, Normalized, ResponseLength, SkipLines, AllPlain, DebugEnd;
    var n, block := |results|, DebugBlock(fields);
    PrintedResults(results);
    PrintedBlock(fields);
    ClosedAppends(SimResults(results), block);
    ClosedNormalized(SimResults(results) + block);
    ClosedNormalized(SimResults(results));
    ExpandConcat(SimResults(results), block);
    var s := Expand(SimResults(results));
    SkipText("", s, block + t, n + 1);
    assert "" + s + (block + t) == s + block + t && |"" + s| == |s|;
    assert s + block + t == (Header(n) + "\r\n") + (Expand(Rows(results)) + block + t);
    ResultsHeader(n, Expand(Rows(results)) + block + t, frame);
    BlockEnd(s, fields, t);
  }
}
