/** How a client finds the end of a response in the bytes received so far. */
module ClientFraming {
  import opened Wrappers
  import opened Framing
  import opened Sequences

  const INT64_MAX: int := 0x7FFF_FFFF_FFFF_FFFF
  const INT64_MIN: int := -0x8000_0000_0000_0000
  const SIZE_MAX: int := 0xFFFF_FFFF_FFFF_FFFF
  const MAX_NESTING_DEPTH: nat := 8

  datatype ResponseFrame = ResponseFrame(endTerminated: bool, debugSimilarity: bool)

  // ---------- Numbers ----------

  predicate IsDigit(c: char) { '0' <= c <= '9' }

  predicate AllDigits(s: string) { forall i :: 0 <= i < |s| ==> IsDigit(s[i]) }

  function Value(digits: string): nat
    requires AllDigits(digits)
  {
    if digits == "" then 0 else 10 * Value(digits[..|digits| - 1]) + (digits[|digits| - 1] as nat - '0' as nat)
  }

  /** A whole text read as a 64-bit decimal number. */
  function ParseDecimal(text: string): Option<int> {
    var digits := if text != "" && text[0] == '-' then text[1..] else text;
    if digits == "" || !AllDigits(digits) then None
    else
      var magnitude: int := Value(digits);
      var v := if digits == text then magnitude else -magnitude;
      if INT64_MIN <= v <= INT64_MAX then Some(v) else None
  }

  /** Decimal digits of a number, as printed. */
  function Decimal(n: nat): (s: string)
    ensures s != "" && AllDigits(s)
    decreases n
  {
    (if n < 10 then "" else Decimal(n / 10)) + [('0' as nat + n % 10) as char]
  }

  lemma {:induction false} DecimalRoundTrip(n: nat)
    requires n <= INT64_MAX
    ensures ParseDecimal(Decimal(n)) == Some(n)
  {
    ValueOfDecimal(n);
  }

  /** A sign in front makes the number negative. */
  lemma NegativeRoundTrip(n: nat)
    requires n <= INT64_MAX
    ensures var minus := -(n as int); ParseDecimal("-" + Decimal(n)) == Some(minus)
  {
    hide Value, Decimal;
    ValueOfDecimal(n);
    var text := "-" + Decimal(n);
    assert text[1..] == Decimal(n) && text != Decimal(n);
  }

  lemma {:induction false} ValueOfDecimal(n: nat)
    ensures Value(Decimal(n)) == n
    decreases n
  {
    var d := Decimal(n);
    if n >= 10 {
      ValueOfDecimal(n / 10);
      assert d[..|d| - 1] == Decimal(n / 10);
    } else {
      assert d[..|d| - 1] == "";
    }
  }

  // ---------- Lines ----------

  predicate At(s: string, p: string, i: int) { 0 <= i && i + |p| <= |s| && s[i..i + |p|] == p }

  /** First occurrence of `p` at or after `i`, or -1. */
  function Find(s: string, p: string, i: nat): (r: int)
    ensures r == -1 || (i <= r && At(s, p, r))
    ensures forall k :: i <= k && (r < 0 || k < r) ==> !At(s, p, k)
    decreases |s| - i
  {
    if i + |p| > |s| then -1 else if At(s, p, i) then i else Find(s, p, i + 1)
  }

  function LineEnd(b: string, start: nat): (r: Option<nat>)
    ensures r.Some? ==> start < r.value <= |b|
  {
    if Find(b, "\n", start) >= 0 then Some(Find(b, "\n", start) + 1) else None
  }

  function LineText(b: string, start: nat, end: nat): string
    requires start < end <= |b|
  {
    StripCr(b[start..end - 1])
  }

  predicate StartsWith(s: string, prefix: string) { prefix <= s }

  function SkipLines(b: string, cursor: nat, n: nat): (r: Option<nat>)
    requires cursor <= |b|
    ensures r.Some? ==> cursor <= r.value <= |b| && (n > 0 ==> cursor < r.value)
    decreases n
  {
    if n == 0 then Some(cursor)
    else if LineEnd(b, cursor).None? then None
    else SkipLines(b, LineEnd(b, cursor).value, n - 1)
  }

  // ---------- Values ----------

  /** Where a bulk value of the given length ends, after its header line. */
  function BulkEnd(b: string, lineEnd: nat, length: nat): (r: Option<nat>)
    requires lineEnd <= |b|
    ensures r.Some? ==> lineEnd <= r.value <= |b|
  {
    var end := lineEnd + length;
    if length > SIZE_MAX - lineEnd - 2 then Some(lineEnd)
    else if end >= |b| then None
    else if b[end] == '\n' then Some(end + 1)
    else if b[end] == '\r' then
      if end + 1 >= |b| then None else if b[end + 1] == '\n' then Some(end + 2) else Some(lineEnd)
    else Some(lineEnd)
  }

  function ValueLength(b: string, start: nat, depth: nat): (r: Option<nat>)
    requires start <= |b| && depth <= MAX_NESTING_DEPTH + 1
    ensures r.Some? ==> start < r.value <= |b|
    decreases MAX_NESTING_DEPTH + 1 - depth, 0
  {
    if depth > MAX_NESTING_DEPTH || LineEnd(b, start).None? then LineEnd(b, start)
    else
      var lineEnd := LineEnd(b, start).value;
      var line := LineText(b, start, lineEnd);
      if line == "" || (line[0] != '$' && line[0] != '*') then Some(lineEnd)
      else
        var n := ParseDecimal(line[1..]);
        if n.None? || n.value < 0 then Some(lineEnd)
        else if line[0] == '$' then BulkEnd(b, lineEnd, n.value)
        else ItemsEnd(b, lineEnd, n.value, depth, lineEnd)
  }

  /** Where the remaining items of an array end. */
  function ItemsEnd(b: string, cursor: nat, count: nat, depth: nat, lineEnd: nat): (r: Option<nat>)
    requires lineEnd <= cursor <= |b| && depth <= MAX_NESTING_DEPTH
    ensures r.Some? ==> lineEnd <= r.value <= |b|
    decreases MAX_NESTING_DEPTH + 1 - depth - 1, 1, count
  {
    if count == 0 then Some(cursor)
    else
      match ValueLength(b, cursor, depth + 1)
      case None => None
      case Some(end) => if end <= cursor then Some(lineEnd) else ItemsEnd(b, end, count - 1, depth, lineEnd)
  }

  // ---------- Responses ----------

  const RESULTS := "OK RESULTS "
  const DEBUG := "# DEBUG "

  predicate IsError(header: string) {
    StartsWith(header, "ERROR") || StartsWith(header, "-ERR") || StartsWith(header, "(error)")
  }

  /** The end of a response closed by a line `END`, whichever line ending comes first. */
  function EndMarker(b: string): (r: Option<nat>)
    ensures r.Some? ==> 0 < r.value <= |b|
  {
    var crlf, lf := Find(b, "\nEND\r\n", 0), Find(b, "\nEND\n", 0);
    if crlf >= 0 && (lf < 0 || crlf <= lf) then Some(crlf + 6) else if lf >= 0 then Some(lf + 5) else None
  }

  /** The end of the debug block that starts at the cursor. */
  function DebugEnd(b: string, cursor: nat): (r: Option<nat>)
    requires cursor <= |b|
    ensures r.Some? ==> cursor < r.value <= |b|
  {
    if LineEnd(b, cursor).None? then None
    else
      var end := LineEnd(b, cursor).value;
      var header := LineText(b, cursor, end);
      if !StartsWith(header, DEBUG) then Some(end)
      else
        var n := ParseDecimal(header[|DEBUG|..]);
        if n.None? || n.value < 0 then Some(end) else SkipLines(b, end, n.value)
  }

  /** The length of the first complete response in a buffer, if there is one. */
  function ResponseLength(b: string, frame: ResponseFrame): (r: Option<nat>)
    ensures r.Some? ==> 0 < r.value <= |b|
  {
    if LineEnd(b, 0).None? then None
    else
      var lineEnd := LineEnd(b, 0).value;
      var header := LineText(b, 0, lineEnd);
      if frame.endTerminated && !IsError(header) then EndMarker(b)
      else if StartsWith(header, RESULTS) then
        var count := ParseDecimal(header[|RESULTS|..]);
        if count.None? || count.value < 0 || count.value > SIZE_MAX - 1 then Some(lineEnd)
        else
          var lines := SkipLines(b, 0, count.value + 1);
          if lines.None? || !frame.debugSimilarity then lines else DebugEnd(b, lines.value)
      else ValueLength(b, 0, 0)
  }

  // ---------- Prefix stability ----------

  lemma AtExtends(s: string, t: string, p: string, i: int)
    requires i + |p| <= |s|
    ensures At(s + t, p, i) <==> At(s, p, i)
  {
    if 0 <= i { assert (s + t)[i..i + |p|] == s[i..i + |p|]; }
  }

  lemma FindExtends(s: string, t: string, p: string, i: nat)
    requires Find(s, p, i) >= 0
    ensures Find(s + t, p, i) == Find(s, p, i)
  {
    hide Find, At;
    var r := Find(s, p, i);
    assert r + |p| <= |s| by { AtInside(s, p, r); }
    forall k | i <= k <= r ensures At(s + t, p, k) <==> At(s, p, k) { AtExtends(s, t, p, k); }
  }

  lemma AtInside(s: string, p: string, i: int)
    requires At(s, p, i)
    ensures 0 <= i && i + |p| <= |s|
  {
  }

  lemma LineExtends(b: string, t: string, start: nat)
    requires LineEnd(b, start).Some?
    ensures LineEnd(b + t, start) == LineEnd(b, start)
    ensures LineText(b + t, start, LineEnd(b, start).value) == LineText(b, start, LineEnd(b, start).value)
  {
    hide Find;
    FindExtends(b, t, "\n", start);
    var end := LineEnd(b, start).value;
    assert (b + t)[start..end - 1] == b[start..end - 1];
  }

  lemma {:induction false} SkipExtends(b: string, t: string, cursor: nat, n: nat)
    requires cursor <= |b| && SkipLines(b, cursor, n).Some?
    ensures SkipLines(b + t, cursor, n) == SkipLines(b, cursor, n)
    decreases n
  {
    hide LineEnd, LineText;
    if n > 0 {
      LineExtends(b, t, cursor);
      SkipExtends(b, t, LineEnd(b, cursor).value, n - 1);
    }
  }

  lemma {:induction false} ValueExtends(b: string, t: string, start: nat, depth: nat)
    requires start <= |b| && depth <= MAX_NESTING_DEPTH + 1 && ValueLength(b, start, depth).Some?
    ensures ValueLength(b + t, start, depth) == ValueLength(b, start, depth)
    decreases MAX_NESTING_DEPTH + 1 - depth, 0
  {
    hide LineEnd, LineText, ParseDecimal;
    LineExtends(b, t, start);
    if depth <= MAX_NESTING_DEPTH {
      var lineEnd := LineEnd(b, start).value;
      var line := LineText(b, start, lineEnd);
      if line != "" && line[0] == '*' {
        var n := ParseDecimal(line[1..]);
        if n.Some? && n.value >= 0 { ItemsExtend(b, t, lineEnd, n.value, depth, lineEnd); }
      }
    }
  }

  lemma {:induction false} ItemsExtend(b: string, t: string, cursor: nat, count: nat, depth: nat, lineEnd: nat)
    requires lineEnd <= cursor <= |b| && depth <= MAX_NESTING_DEPTH && ItemsEnd(b, cursor, count, depth, lineEnd).Some?
    ensures ItemsEnd(b + t, cursor, count, depth, lineEnd) == ItemsEnd(b, cursor, count, depth, lineEnd)
    decreases MAX_NESTING_DEPTH + 1 - depth - 1, 1, count
  {
    hide ValueLength;
    if count > 0 {
      ValueExtends(b, t, cursor, depth + 1);
      ItemsExtend(b, t, ValueLength(b, cursor, depth + 1).value, count - 1, depth, lineEnd);
    }
  }

  lemma EndMarkerExtends(b: string, t: string)
    requires EndMarker(b).Some?
    ensures EndMarker(b + t) == EndMarker(b)
  {
    hide Find, At;
    var p, q := "\nEND\r\n", "\nEND\n";
    var crlf, lf := Find(b, p, 0), Find(b, q, 0);
    if crlf >= 0 { FindExtends(b, t, p, 0); AtInside(b, p, crlf); }
    if lf >= 0 { FindExtends(b, t, q, 0); AtInside(b, q, lf); }
    if crlf >= 0 && lf < 0 {
      forall k | 0 <= k < crlf ensures !At(b + t, q, k) { AtExtends(b, t, q, k); }
    }
    if lf >= 0 && crlf < 0 {
      forall k | 0 <= k <= lf ensures !At(b + t, p, k) { NotBoth(b, t, lf, k); }
    }
  }

  lemma NotBoth(b: string, t: string, lf: nat, k: nat)
    requires At(b, "\nEND\n", lf) && Find(b, "\nEND\r\n", 0) < 0 && k <= lf
    ensures !At(b + t, "\nEND\r\n", k)
  {
    var p := "\nEND\r\n";
    if k + 6 <= |b| {
      AtExtends(b, t, p, k);
    } else {
      assert k == lf && (b + t)[k + 4] == b[lf..lf + 5][4] == '\n';
      assert k + 6 <= |b + t| ==> (b + t)[k..k + 6][4] == (b + t)[k + 4];
      assert p[4] == '\r';
    }
  }

  lemma DebugExtends(b: string, t: string, cursor: nat)
    requires cursor <= |b| && DebugEnd(b, cursor).Some?
    ensures DebugEnd(b + t, cursor) == DebugEnd(b, cursor)
  {
    hide LineEnd, LineText, ParseDecimal, SkipLines;
    LineExtends(b, t, cursor);
    var end := LineEnd(b, cursor).value;
    var header := LineText(b, cursor, end);
    if StartsWith(header, DEBUG) {
      var n := ParseDecimal(header[|DEBUG|..]);
      if n.Some? && n.value >= 0 { SkipExtends(b, t, end, n.value); }
    }
  }

  /** Once a response is complete, its length does not depend on what follows it. */
  lemma ResponseLengthExtends(b: string, t: string, frame: ResponseFrame)
    requires ResponseLength(b, frame).Some?
    ensures ResponseLength(b + t, frame) == ResponseLength(b, frame)
  {
    hide LineEnd, LineText, ParseDecimal, SkipLines, ValueLength, EndMarker, DebugEnd, IsError;
    LineExtends(b, t, 0);
    var header := LineText(b, 0, LineEnd(b, 0).value);
    if frame.endTerminated && !IsError(header) {
      EndMarkerExtends(b, t);
    } else if StartsWith(header, RESULTS) {
      var count := ParseDecimal(header[|RESULTS|..]);
      if count.Some? && 0 <= count.value <= SIZE_MAX - 1 {
        SkipExtends(b, t, 0, count.value + 1);
        if frame.debugSimilarity { DebugExtends(b, t, SkipLines(b, 0, count.value + 1).value); }
      }
    } else {
      ValueExtends(b, t, 0, 0);
    }
  }

  // ---------- The code that scans the buffer ----------

  method CompleteValueLength(b: string, start: nat, depth: nat) returns (r: Option<nat>)
    requires start <= |b| && depth <= MAX_NESTING_DEPTH + 1
    ensures r == ValueLength(b, start, depth)
    decreases MAX_NESTING_DEPTH + 1 - depth
  {
    hide Find, LineEnd, LineText, ParseDecimal, BulkEnd;
    if depth > MAX_NESTING_DEPTH { return LineEnd(b, start); }
    var end := LineEnd(b, start);
    if end.None? { return None; }
    var lineEnd := end.value;
    var line := LineText(b, start, lineEnd);
    if line == "" { return Some(lineEnd); }
    if line[0] == '$' {
      var length := ParseDecimal(line[1..]);
      if length.None? || length.value < 0 { return Some(lineEnd); }
      return BulkEnd(b, lineEnd, length.value);
    }
    if line[0] == '*' {
      var count := ParseDecimal(line[1..]);
      if count.None? || count.value < 0 { return Some(lineEnd); }
      var cursor := lineEnd;
      var index := 0;
      while index < count.value
        invariant 0 <= index <= count.value && lineEnd <= cursor <= |b|
        invariant ItemsEnd(b, lineEnd, count.value, depth, lineEnd) == ItemsEnd(b, cursor, count.value - index, depth, lineEnd)
      {
        var item := CompleteValueLength(b, cursor, depth + 1);
        if item.None? { return None; }
        if item.value <= cursor { return end; }
        cursor := item.value;
        index := index + 1;
      }
      return Some(cursor);
    }
    return Some(lineEnd);
  }

  lemma {:induction false} NewlinesAreLines(b: string, cursor: nat, index: nat, n: nat)
    requires cursor <= index <= |b| && n > 0
    requires forall k :: cursor <= k < index ==> b[k] != '\n'
    ensures index < |b| && b[index] == '\n' ==> SkipLines(b, cursor, n) == SkipLines(b, index + 1, n - 1)
    ensures index == |b| ==> SkipLines(b, cursor, n).None?
  {
    hide Find;
    forall k | cursor <= k < index ensures !At(b, "\n", k) { assert b[k..k + 1][0] == b[k]; }
    if index < |b| && b[index] == '\n' {
      assert b[index..index + 1] == "\n";
      assert At(b, "\n", index);
      assert LineEnd(b, cursor) == Some(index + 1);
    }
  }

  method CompleteResponseLength(b: string, frame: ResponseFrame) returns (r: Option<nat>)
    ensures r == ResponseLength(b, frame)
  {
    hide Find, LineEnd, LineText, ParseDecimal, EndMarker, IsError, ValueLength, SkipLines;
    var first := LineEnd(b, 0);
    if first.None? { return None; }
    var header := LineText(b, 0, first.value);
    if frame.endTerminated && !IsError(header) { return EndMarker(b); }
    if StartsWith(header, RESULTS) {
      var count := ParseDecimal(header[|RESULTS|..]);
      if count.None? || count.value < 0 || count.value > SIZE_MAX - 1 { return Some(first.value); }
      var expectedLines, newlines, index := count.value + 1, 0, 0;
      ghost var lineStart := 0;
      while index < |b|
        invariant 0 <= lineStart <= index <= |b| && 0 <= newlines < expectedLines
        invariant forall k :: lineStart <= k < index ==> b[k] != '\n'
        invariant SkipLines(b, 0, expectedLines) == SkipLines(b, lineStart, expectedLines - newlines)
      {
        NewlinesAreLines(b, lineStart, index, expectedLines - newlines);
        if b[index] == '\n' {
          newlines := newlines + 1;
          if newlines >= expectedLines {
            SkipNone(b, index + 1);
            if !frame.debugSimilarity { return Some(index + 1); }
            r := CompleteDebugBlock(b, index + 1);
            return;
          }
          lineStart := index + 1;
        }
        index := index + 1;
      }
      NewlinesAreLines(b, lineStart, index, expectedLines - newlines);
      return None;
    }
    r := CompleteValueLength(b, 0, 0);
  }

  lemma SkipNone(b: string, cursor: nat)
    requires cursor <= |b|
    ensures SkipLines(b, cursor, 0) == Some(cursor)
  {
  }

  method CompleteDebugBlock(b: string, start: nat) returns (r: Option<nat>)
    requires start <= |b|
    ensures r == DebugEnd(b, start)
  {
    hide Find, LineEnd, LineText, ParseDecimal;
    var headerEnd := LineEnd(b, start);
    if headerEnd.None? { return None; }
    var header := LineText(b, start, headerEnd.value);
    if !StartsWith(header, DEBUG) { return Some(headerEnd.value); }
    var fields := ParseDecimal(header[|DEBUG|..]);
    if fields.None? || fields.value < 0 { return Some(headerEnd.value); }
    var cursor: nat := headerEnd.value;
    var field := 0;
    while field < fields.value
      invariant 0 <= field <= fields.value && cursor <= |b|
      invariant SkipLines(b, headerEnd.value, fields.value) == SkipLines(b, cursor, fields.value - field)
    {
      var end := LineEnd(b, cursor);
      if end.None? { return None; }
      cursor := end.value;
      field := field + 1;
    }
    return Some(cursor);
  }

  // ---------- Receiving ----------

  const RECEIVE_LIMIT: nat := 64 * 1024 * 1024

  datatype Outcome = Complete(response: string, leftover: string, unread: seq<string>) | TooLarge | Closed

  /** Reading one response off a connection that delivers the given chunks and then closes. */
  function Received(buffer: string, chunks: seq<string>, frame: ResponseFrame): Outcome
    decreases |chunks|
  {
    if ResponseLength(buffer, frame).Some? then
      var n := ResponseLength(buffer, frame).value;
      Complete(buffer[..n], buffer[n..], chunks)
    else if chunks == [] then Closed
    else if |buffer + chunks[0]| > RECEIVE_LIMIT then TooLarge
    else Received(buffer + chunks[0], chunks[1..], frame)
  }

  class Client {
    var responseBuffer: string

    constructor ()
      ensures responseBuffer == ""
    {
      responseBuffer := "";
    }

    /** The receive loop of a command; a lost connection clears the buffer. */
    method Receive(chunks: seq<string>, frame: ResponseFrame) returns (outcome: Outcome)
      modifies this
      ensures outcome == Received(old(responseBuffer), chunks, frame)
      ensures responseBuffer == if outcome.Complete? then outcome.leftover else ""
    {
      hide ResponseLength;
      var unread := chunks;
      while true
        invariant Received(old(responseBuffer), chunks, frame) == Received(responseBuffer, unread, frame)
        decreases |unread|
      {
        var length := CompleteResponseLength(responseBuffer, frame);
        if length.Some? {
          outcome := Complete(responseBuffer[..length.value], responseBuffer[length.value..], unread);
          responseBuffer := responseBuffer[length.value..];
          return;
        }
        if unread == [] {
          responseBuffer := "";
          return Closed;
        }
        responseBuffer := responseBuffer + unread[0];
        if |responseBuffer| > RECEIVE_LIMIT {
          responseBuffer := "";
          return TooLarge;
        }
        unread := unread[1..];
      }
    }
  }

  /** What each outcome says about the whole stream. */
  lemma {:induction false} ReceivedMeans(buffer: string, chunks: seq<string>, frame: ResponseFrame)
    ensures var o, s := Received(buffer, chunks, frame), buffer + Joined(chunks);
      match o
      case Complete(response, leftover, unread) =>
        ResponseLength(s, frame) == Some(|response|) && s == response + (leftover + Joined(unread))
      case TooLarge => |s| > RECEIVE_LIMIT
      case Closed => ResponseLength(s, frame).None?
    decreases |chunks|
  {
    hide ResponseLength;
    if ResponseLength(buffer, frame).Some? {
      ResponseLengthExtends(buffer, Joined(chunks), frame);
    } else if chunks == [] {
      assert buffer + Joined(chunks) == buffer;
    } else {
      JoinedHead(chunks);
      assert buffer + Joined(chunks) == (buffer + chunks[0]) + Joined(chunks[1..]);
      if |buffer + chunks[0]| <= RECEIVE_LIMIT { ReceivedMeans(buffer + chunks[0], chunks[1..], frame); }
    }
  }

  /** Two ways of cutting a stream into chunks give the same response and leave the same bytes to come. */
  lemma ResponseIsChunkIndependent(buffer: string, chunks: seq<string>, chunks': seq<string>, frame: ResponseFrame)
    requires Joined(chunks) == Joined(chunks')
    requires Received(buffer, chunks, frame).Complete? && Received(buffer, chunks', frame).Complete?
    ensures var o, o' := Received(buffer, chunks, frame), Received(buffer, chunks', frame);
      o.response == o'.response && o.leftover + Joined(o.unread) == o'.leftover + Joined(o'.unread)
  {
    hide ResponseLength, Received;
    ReceivedMeans(buffer, chunks, frame);
    ReceivedMeans(buffer, chunks', frame);
    var s := buffer + Joined(chunks);
    var o, o' := Received(buffer, chunks, frame), Received(buffer, chunks', frame);
    assert o.response == s[..|o.response|] && o'.response == s[..|o'.response|];
    assert o.leftover + Joined(o.unread) == s[|o.response|..] && o'.leftover + Joined(o'.unread) == s[|o'.response|..];
  }

  /**
   With an incomplete buffer, a stream yields its response however it is cut exactly when it holds a complete
   one and stays within the receive limit.
   */
  lemma EveryChunkingSucceeds(buffer: string, rest: string, frame: ResponseFrame)
    requires ResponseLength(buffer, frame).None?
    ensures (forall chunks :: Joined(chunks) == rest ==> Received(buffer, chunks, frame).Complete?)
      <==> ResponseLength(buffer + rest, frame).Some? && |buffer + rest| <= 67_108_864
  {
    hide ResponseLength;
    JoinedOne(rest);
    if ResponseLength(buffer + rest, frame).Some? && |buffer + rest| <= RECEIVE_LIMIT {
      forall chunks | Joined(chunks) == rest ensures Received(buffer, chunks, frame).Complete? {
        ReceivedMeans(buffer, chunks, frame);
      }
    } else {
      assert [rest][1..] == [];
      ReceivedMeans(buffer, [rest], frame);
      assert !Received(buffer, [rest], frame).Complete?;
    }
  }
}
