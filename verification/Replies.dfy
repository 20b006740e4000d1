/** The replies a client understands, and that it finds the end of every one of them. */
module Replies {
  import opened Wrappers
  import opened ClientFraming
  import opened Responses

  /** A line, a value with its length in front and a line end behind, or a list of replies with their number in front. */
  datatype Reply = Line(text: string) | Bulk(payload: string, crlf: bool) | List(items: seq<Reply>)

  function LineEnding(crlf: bool): string { if crlf then "\r\n" else "\n" }

  function Printed(v: Reply): string {
    match v
    case Line(text) => text + "\r\n"
    case Bulk(payload, crlf) => ("$" + Decimal(|payload|) + "\r\n") + (payload + LineEnding(crlf))
    case List(items) => ("*" + Decimal(|items|) + "\r\n") + PrintedAll(items)
  }

  function PrintedAll(items: seq<Reply>): string {
    if items == [] then "" else Printed(items[0]) + PrintedAll(items[1..])
  }

  /** What a client takes for the header of a value; `$-1`, say, stands for itself. */
  predicate Announces(text: string)
    requires text != ""
  {
    (text[0] == '$' || text[0] == '*') && ParseDecimal(text[1..]).Some? && ParseDecimal(text[1..]).value >= 0
  }

  /** Lines are plain and no header; lists nest up to the client's limit. */
  predicate Sound(v: Reply, depth: nat) {
    match v
    case Line(text) => Plain(text) && !Announces(text) && depth <= 9
    case Bulk(_, _) => depth <= 8
    case List(items) => depth <= 8 && |items| <= INT64_MAX && forall i :: 0 <= i < |items| ==> Sound(items[i], depth + 1)
  }

  lemma CountIsPlain(mark: char, n: nat)
    requires mark == '$' || mark == '*'
    ensures Plain([mark] + Decimal(n)) && ([mark] + Decimal(n))[1..] == Decimal(n)
  {
    assert forall c :: c in Decimal(n) ==> IsDigit(c);
  }

  /** The header line of a value of known length or number. */
  lemma HeaderLine(p: string, mark: char, n: nat, rest: string)
    requires mark == '$' || mark == '*'
    ensures var h := [mark] + Decimal(n); var b := p + (h + "\r\n") + rest;
      LineEnd(b, |p|) == Some(|p| + |h| + 2) && LineText(b, |p|, |p| + |h| + 2) == h
  {
    CountIsPlain(mark, n);
    ReadLine(p, [mark] + Decimal(n), rest);
  }

  lemma BulkIsWhole(p: string, payload: string, crlf: bool, t: string, depth: nat)
    requires depth <= MAX_NESTING_DEPTH && |p + Printed(Bulk(payload, crlf)) + t| <= INT64_MAX
    ensures ValueLength(p + Printed(Bulk(payload, crlf)) + t, |p|, depth) == Some(|p| + |Printed(Bulk(payload, crlf))|)
  {
    hide Decimal, ParseDecimal, LineEnd, LineText;
    var n := |payload|;
    var h := ['$'] + Decimal(n);
    var rest := (payload + LineEnding(crlf)) + t;
    var b := p + Printed(Bulk(payload, crlf)) + t;
    assert b == p + (h + "\r\n") + rest;
    HeaderLine(p, '$', n, rest);
    CountIsPlain('$', n);
    DecimalRoundTrip(n);
    var lineEnd := |p| + |h| + 2;
    assert b[lineEnd..] == rest;
    assert b[lineEnd + n] == rest[n] && rest[n] == (if crlf then '\r' else '\n');
    assert crlf ==> b[lineEnd + n + 1] == rest[n + 1] == '\n';
  }

  lemma LineIsWhole(p: string, text: string, t: string, depth: nat)
    requires Sound(Line(text), depth)
    ensures ValueLength(p + Printed(Line(text)) + t, |p|, depth) == Some(|p| + |text| + 2)
  {
    hide LineEnd, LineText, ParseDecimal;
    ReadLine(p, text, t);
  }

  /** The client finds the end of a reply, whatever precedes and follows it. */
  lemma {:induction false} ReplyIsWhole(p: string, v: Reply, t: string, depth: nat)
    requires Sound(v, depth) && |p + Printed(v) + t| <= INT64_MAX
    ensures ValueLength(p + Printed(v) + t, |p|, depth) == Some(|p| + |Printed(v)|)
    decreases v, 0
  {
    hide ValueLength, Decimal;
    match v
    case Line(text) => LineIsWhole(p, text, t, depth);
    case Bulk(payload, crlf) => BulkIsWhole(p, payload, crlf, t, depth);
    case List(items) => ListIsWhole(p, items, t, depth);
  }

  lemma {:induction false} ListIsWhole(p: string, items: seq<Reply>, t: string, depth: nat)
    requires Sound(List(items), depth) && |p + Printed(List(items)) + t| <= INT64_MAX
    ensures ValueLength(p + Printed(List(items)) + t, |p|, depth) == Some(|p| + |Printed(List(items))|)
    decreases items, 1
  {
    hide Decimal, ParseDecimal, LineEnd, LineText, ItemsEnd;
    var n := |items|;
    var h := ['*'] + Decimal(n);
    var rest := PrintedAll(items) + t;
    var b := p + Printed(List(items)) + t;
    assert b == p + (h + "\r\n") + rest;
    HeaderLine(p, '*', n, rest);
    CountIsPlain('*', n);
    DecimalRoundTrip(n);
    var head := p + (h + "\r\n");
    assert b == head + PrintedAll(items) + t;
    ItemsAreWhole(head, items, t, depth, |head|);
  }

  lemma {:induction false} ItemsAreWhole(p: string, items: seq<Reply>, t: string, depth: nat, lineEnd: nat)
    requires depth <= MAX_NESTING_DEPTH && lineEnd <= |p| && |p + PrintedAll(items) + t| <= INT64_MAX
    requires forall i :: 0 <= i < |items| ==> Sound(items[i], depth + 1)
    ensures ItemsEnd(p + PrintedAll(items) + t, |p|, |items|, depth, lineEnd) == Some(|p| + |PrintedAll(items)|)
    decreases items, 0
  {
    hide ValueLength, Printed;
    if items != [] {
      var first, tail := Printed(items[0]), items[1..];
      var b := p + PrintedAll(items) + t;
      assert b == p + first + (PrintedAll(tail) + t);
      ReplyIsWhole(p, items[0], PrintedAll(tail) + t, depth + 1);
      assert b == (p + first) + PrintedAll(tail) + t;
      ItemsAreWhole(p + first, tail, t, depth, lineEnd);
    }
  }

  /** The first line of a reply does not announce a result list. */
  predicate NotAResultList(v: Reply) { v.Line? ==> !StartsWith(v.text, RESULTS) }

  /** A whole reply is recognised as soon as it is there, and not before. */
  lemma ReplyMeetsFramer(v: Reply, t: string)
    requires Sound(v, 0) && NotAResultList(v) && |Printed(v) + t| <= INT64_MAX
    ensures ResponseLength(Printed(v) + t, ResponseFrame(false, false)) == Some(|Printed(v)|)
    ensures forall s :: s <= Printed(v) && |s| < |Printed(v)| ==> ResponseLength(s, ResponseFrame(false, false)).None?
  {
    hide ValueLength, LineEnd, LineText, Printed, ResponseLength;
    var frame := ResponseFrame(false, false);
    LengthOfReply(v, t);
    LengthOfReply(v, "");
    assert Printed(v) + "" == Printed(v);
    forall s | s <= Printed(v) && |s| < |Printed(v)| ensures ResponseLength(s, frame).None? {
      if ResponseLength(s, frame).Some? {
        var rest := Printed(v)[|s|..];
        assert s + rest == Printed(v);
        ResponseLengthExtends(s, rest, frame);
      }
    }
  }

  lemma LengthOfReply(v: Reply, t: string)
    requires Sound(v, 0) && NotAResultList(v) && |Printed(v) + t| <= INT64_MAX
    ensures ResponseLength(Printed(v) + t, ResponseFrame(false, false)) == Some(|Printed(v)|)
  {
    hide ValueLength, LineEnd, LineText, Decimal;
    var b := Printed(v) + t;
    assert b == "" + Printed(v) + t;
    ReplyIsWhole("", v, t, 0);
    FirstLine(v, t);
  }

  /** The header the client looks at first. */
  lemma FirstLine(v: Reply, t: string)
    requires Sound(v, 0) && NotAResultList(v)
    ensures var b := Printed(v) + t; LineEnd(b, 0).Some? && !StartsWith(LineText(b, 0, LineEnd(b, 0).value), RESULTS)
  {
    hide LineEnd, LineText, Decimal;
    var b := Printed(v) + t;
    match v
    case Line(text) =>
      assert b == "" + (text + "\r\n") + t;
      ReadLine("", text, t);
    case Bulk(payload, crlf) =>
      assert b == "" + ((['$'] + Decimal(|payload|)) + "\r\n") + ((payload + LineEnding(crlf)) + t);
      HeaderLine("", '$', |payload|, (payload + LineEnding(crlf)) + t);
      NoResults(['$'] + Decimal(|payload|));
    case List(items) =>
      assert b == "" + ((['*'] + Decimal(|items|)) + "\r\n") + (PrintedAll(items) + t);
      HeaderLine("", '*', |items|, PrintedAll(items) + t);
      NoResults(['*'] + Decimal(|items|));
  }

  lemma NoResults(header: string)
    requires header != "" && header[0] != 'O'
    ensures !StartsWith(header, RESULTS)
  {
    assert RESULTS[0] == 'O';
  }

  // ---------- Replies closed by END ----------

  /** A line of its own that says END, after the first line. */
  ghost predicate HasEndLine(body: string) { exists k :: At(body, "\nEND\r\n", k) || At(body, "\nEND\n", k) }

  /** A text closed by the line END is found whole, whatever follows it, exactly when it has no such line inside. */
  lemma EndMeetsFramer(body: string, t: string)
    requires body != "" && body[|body| - 1] == '\n'
    ensures EndMarker(body + "END\r\n" + t) == Some(|body| + 5) <==> !HasEndLine(body)
  {
    hide Find, At;
    var p, q := "\nEND\r\n", "\nEND\n";
    var b, last := body + "END\r\n" + t, |body| - 1;
    ClosesAt(body, t);
    forall k | k < last ensures At(b, p, k) || At(b, q, k) <==> At(body, p, k) || At(body, q, k) { InsideBody(body, t, k); }
    AtTheEnd(body);
    var crlf, lf := Find(b, p, 0), Find(b, q, 0);
    if HasEndLine(body) {
      var k :| At(body, p, k) || At(body, q, k);
      assert 0 <= k < last;
      assert At(b, p, k) || At(b, q, k);
    }
  }

  lemma ClosesAt(body: string, t: string)
    requires body != "" && body[|body| - 1] == '\n'
    ensures At(body + "END\r\n" + t, "\nEND\r\n", |body| - 1) && !At(body + "END\r\n" + t, "\nEND\n", |body| - 1)
  {
    var b, last := body + "END\r\n" + t, |body| - 1;
    assert b[last..last + 6] == "\nEND\r\n";
    assert b[last..last + 5][4] == '\r' && "\nEND\n"[4] == '\n';
  }

  /** An END line cannot begin in the body and end behind it, but with the last line. */
  lemma InsideBody(body: string, t: string, k: int)
    requires body != "" && body[|body| - 1] == '\n' && k < |body| - 1
    ensures var b := body + "END\r\n" + t;
      At(b, "\nEND\r\n", k) || At(b, "\nEND\n", k) <==> At(body, "\nEND\r\n", k) || At(body, "\nEND\n", k)
  {
    var b, n := body + "END\r\n" + t, |body|;
    if 0 <= k && k + 6 <= n { assert b[k..k + 6] == body[k..k + 6]; }
    if 0 <= k && k + 5 <= n { assert b[k..k + 5] == body[k..k + 5]; }
    if 0 <= k && k + 6 > n && k + 6 <= |b| {
      assert b[k..k + 6][n - 1 - k] == b[n - 1] == '\n';
      if k + 5 == n { assert b[k..k + 6][5] == b[n] == 'E'; }
    }
    if 0 <= k && k + 5 > n && k + 5 <= |b| { assert b[k..k + 5][n - 1 - k] == b[n - 1] == '\n'; }
  }

  lemma AtTheEnd(body: string)
    ensures forall k :: At(body, "\nEND\r\n", k) || At(body, "\nEND\n", k) ==> 0 <= k < |body| - 1
  {
  }

  /** The three ways of reporting an error. */
  predicate ReportsError(header: string) { "ERROR" <= header || "-ERR" <= header || "(error)" <= header }

  /** So does the client, unless the first line reports an error. */
  lemma EndedReplyMeetsFramer(body: string, t: string, debug: bool)
    requires body != "" && body[|body| - 1] == '\n'
    requires var b := body + "END\r\n" + t; LineEnd(b, 0).Some? && !ReportsError(LineText(b, 0, LineEnd(b, 0).value))
    ensures ResponseLength(body + "END\r\n" + t, ResponseFrame(true, debug)) == Some(|body| + 5) <==> !HasEndLine(body)
  {
    hide LineEnd, LineText, EndMarker, HasEndLine;
    EndMeetsFramer(body, t);
  }

  /** An error is one line, whatever reply was expected. */
  lemma ErrorMeetsFramer(text: string, t: string, frame: ResponseFrame)
    requires Plain(text) && ReportsError(text)
    ensures ResponseLength((text + "\r\n") + t, frame) == Some(|text| + 2)
  {
    hide LineEnd, LineText, ParseDecimal;
    assert "" + (text + "\r\n") + t == (text + "\r\n") + t;
    ReadLine("", text, t);
    assert text[0] == '-' || text[0] == '(' || text[0] == 'E' by {
      assert "ERROR"[0] == 'E' && "-ERR"[0] == '-' && "(error)"[0] == '(';
    }
    NoResults(text);
  }
}
