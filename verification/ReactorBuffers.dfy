/**
 The buffers of one connection and the sections of code that change them under a lock, with the byte
 counts they take from and return to the budget shared by all connections.
 */
module ReactorBuffers {
  import opened Framing
  import opened Sequences
  import opened Responses

  const MAX_PENDING_FRAMES: nat := 1024
  const HIGH_WATERMARK: nat := 768
  const LOW_WATERMARK: nat := 512
  const MAX_WRITE_QUEUE: nat := 16 * 1024 * 1024

  datatype Limits = Limits(maxAccumulated: nat, maxQuery: nat)

  datatype Buffers = Buffers(
    accumulated: string, requests: seq<string>, requestBytes: int, readPaused: bool,
    responses: seq<string>, offset: nat, responseBytes: int)

  const NO_BUFFERS := Buffers("", [], 0, false, [], 0, 0)

  function Total(texts: seq<string>): nat
    decreases |texts|
  {
    if texts == [] then 0 else Total(texts[..|texts| - 1]) + |texts[|texts| - 1]|
  }

  /** Frames moved to the queue, the bytes left behind, and the delimiter bytes dropped. */
  datatype Moved = Moved(frames: seq<string>, rest: string, delimiters: nat, overflow: bool)

  /** The framing loop with its limits, for a queue of `count` requests and `bytes` bytes. */
  function Move(lim: Limits, s: string, count: nat, bytes: int): Moved
    decreases |s|
  {
    var end := NextEnd(s);
    if end < 0 then Moved([], s, 0, false)
    else if end > lim.maxQuery || count >= MAX_PENDING_FRAMES || bytes + end > lim.maxAccumulated then Moved([], s, 0, true)
    else
      var later := Move(lim, s[end + Delimiter(s)..], count + |Frame(s[..end])|, bytes + end);
      Moved(Frame(s[..end]) + later.frames, later.rest, Delimiter(s) + later.delimiters, later.overflow)
  }

  /** A received chunk is taken if it fits the connection's limit and the free budget. */
  predicate Fits(lim: Limits, b: Buffers, chunk: string, free: int) {
    |b.accumulated| + |chunk| <= lim.maxAccumulated && |chunk| <= free
  }

  function MovedIn(lim: Limits, b: Buffers, chunk: string): Moved {
    Move(lim, b.accumulated + chunk, |b.requests|, b.requestBytes)
  }

  function Accept(lim: Limits, b: Buffers, chunk: string): Buffers {
    var m := MovedIn(lim, b, chunk);
    b.(accumulated := m.rest, requests := b.requests + m.frames, requestBytes := b.requestBytes + Total(m.frames),
       readPaused := b.readPaused || |b.requests| + |m.frames| >= HIGH_WATERMARK)
  }

  /** A drainer takes the oldest request; reading resumes when the queue has run low. */
  function Take(b: Buffers): Buffers
    requires b.requests != []
  {
    b.(requests := b.requests[1..], requestBytes := b.requestBytes - |b.requests[0]|,
       readPaused := b.readPaused && |b.requests| - 1 > LOW_WATERMARK)
  }

  predicate CanPush(b: Buffers, framed: string, free: int) {
    b.responseBytes + |framed| <= MAX_WRITE_QUEUE && |framed| <= free
  }

  function Push(b: Buffers, framed: string): Buffers {
    b.(responses := b.responses + [framed], responseBytes := b.responseBytes + |framed|)
  }

  predicate CanSend(b: Buffers, n: nat) {
    b.responses != [] && 0 < n <= |b.responses[0]| - b.offset
  }

  /** `n` more bytes of the oldest response are on their way. */
  function Sent(b: Buffers, n: nat): Buffers
    requires CanSend(b, n)
  {
    var done := b.offset + n == |b.responses[0]|;
    b.(responses := if done then b.responses[1..] else b.responses,
       offset := if done then 0 else b.offset + n,
       responseBytes := b.responseBytes - n)
  }

  /** The bytes that go out in a send of `n`. */
  function Chunk(b: Buffers, n: nat): string
    requires CanSend(b, n)
  {
    b.responses[0][b.offset..b.offset + n]
  }

  /** What the connection holds of the shared budget, by its own counters. */
  function Held(b: Buffers): int { |b.accumulated| + b.requestBytes + b.responseBytes }

  /** Response bytes not sent yet. */
  function Unsent(b: Buffers): string {
    var all := Joined(b.responses);
    if b.offset <= |all| then all[b.offset..] else ""
  }

  /** Counters equal what is buffered, and every queue keeps its limit. */
  ghost predicate Sound(lim: Limits, b: Buffers) {
    && b.requestBytes == Total(b.requests) && b.responseBytes == Total(b.responses) - b.offset
    && (forall i :: 0 <= i < |b.responses| ==> b.responses[i] != "")
    && (if b.responses == [] then b.offset == 0 else b.offset < |b.responses[0]|)
    && |b.accumulated| <= lim.maxAccumulated && b.requestBytes <= lim.maxAccumulated
    && |b.requests| <= MAX_PENDING_FRAMES && b.responseBytes <= MAX_WRITE_QUEUE
    && (|b.requests| >= HIGH_WATERMARK ==> b.readPaused) && (b.readPaused ==> |b.requests| > LOW_WATERMARK)
  }

  // ---------- Sums ----------

  lemma {:induction false} TotalConcat(s: seq<string>, t: seq<string>)
    ensures Total(s + t) == Total(s) + Total(t)
    decreases |t|
  {
    if t == [] {
      assert s + t == s;
    } else {
      var n := |t| - 1;
      assert (s + t)[..|s + t| - 1] == s + t[..n];
      TotalConcat(s, t[..n]);
    }
  }

  lemma {:induction false} JoinedLength(s: seq<string>)
    ensures |Joined(s)| == Total(s)
    decreases |s|
  {
    if s != [] { JoinedLength(s[..|s| - 1]); }
  }

  lemma One(x: string)
    ensures Total([x]) == |x|
  {
    assert [x][..0] == [] && Total([x][..0]) == 0;
  }

  lemma HeadSums(s: seq<string>)
    requires s != []
    ensures Total(s) == |s[0]| + Total(s[1..]) && Joined(s) == s[0] + Joined(s[1..])
  {
    assert s == [s[0]] + s[1..];
    TotalConcat([s[0]], s[1..]);
    One(s[0]);
    JoinedHead(s);
  }

  // ---------- What the sections keep ----------

  /** The loop moves bytes without losing any but delimiters, stays within the limits, and is the plain loop unless it overflows. */
  lemma {:induction false} MoveKeeps(lim: Limits, s: string, count: nat, bytes: int)
    ensures var m := Move(lim, s, count, bytes);
      && |s| == Total(m.frames) + |m.rest| + m.delimiters
      && (count <= MAX_PENDING_FRAMES ==> count + |m.frames| <= MAX_PENDING_FRAMES)
      && (bytes <= lim.maxAccumulated ==> bytes + Total(m.frames) <= lim.maxAccumulated)
      && (!m.overflow ==> Framed(m.frames, m.rest) == Cut(s))
    decreases |s|
  {
    hide NextEnd, Delimiter, Move, Total;
    MoveStep(lim, s, count, bytes);
    NoText();
    var end := NextEnd(s);
    if end >= 0 && !(end > lim.maxQuery || count >= MAX_PENDING_FRAMES || bytes + end > lim.maxAccumulated) {
      var frame := Frame(s[..end]);
      var later := Move(lim, s[end + Delimiter(s)..], count + |frame|, bytes + end);
      MoveKeeps(lim, s[end + Delimiter(s)..], count + |frame|, bytes + end);
      TotalConcat(frame, later.frames);
      One(s[..end]);
    }
  }

  /** The loop stops when no complete line is left, or at a line that is too long or finds the queue full. */
  lemma {:induction false} MoveStops(lim: Limits, s: string, count: nat, bytes: int)
    ensures var m := Move(lim, s, count, bytes); var end := NextEnd(m.rest);
      && (!m.overflow ==> end < 0)
      && (m.overflow ==>
            && end >= 0
            && (end > lim.maxQuery || count + |m.frames| >= 1024 || bytes + Total(m.frames) + end > lim.maxAccumulated))
    decreases |s|
  {
    hide NextEnd, Delimiter, Move, Total;
    MoveStep(lim, s, count, bytes);
    NoText();
    var end := NextEnd(s);
    if end >= 0 && !(end > lim.maxQuery || count >= MAX_PENDING_FRAMES || bytes + end > lim.maxAccumulated) {
      var frame := Frame(s[..end]);
      MoveStops(lim, s[end + Delimiter(s)..], count + |frame|, bytes + end);
      TotalConcat(frame, Move(lim, s[end + Delimiter(s)..], count + |frame|, bytes + end).frames);
      One(s[..end]);
    }
  }

  lemma AcceptKeeps(lim: Limits, b: Buffers, chunk: string, free: int)
    requires Sound(lim, b) && Fits(lim, b, chunk, free)
    ensures Sound(lim, Accept(lim, b, chunk))
    ensures Held(Accept(lim, b, chunk)) == Held(b) + |chunk| - MovedIn(lim, b, chunk).delimiters
    ensures Unsent(Accept(lim, b, chunk)) == Unsent(b)
  {
    hide Move, Total, Joined;
    MoveKeeps(lim, b.accumulated + chunk, |b.requests|, b.requestBytes);
    TotalConcat(b.requests, MovedIn(lim, b, chunk).frames);
  }

  lemma TakeKeeps(lim: Limits, b: Buffers)
    requires Sound(lim, b) && b.requests != []
    ensures Sound(lim, Take(b)) && Held(Take(b)) == Held(b) - |b.requests[0]| && Unsent(Take(b)) == Unsent(b)
  {
    hide Total, Joined;
    HeadSums(b.requests);
  }

  lemma PushKeeps(lim: Limits, b: Buffers, framed: string, free: int)
    requires Sound(lim, b) && CanPush(b, framed, free) && framed != ""
    ensures Sound(lim, Push(b, framed)) && Held(Push(b, framed)) == Held(b) + |framed|
    ensures Unsent(Push(b, framed)) == Unsent(b) + framed
  {
    hide Total, Joined;
    TotalConcat(b.responses, [framed]);
    JoinedConcat(b.responses, [framed]);
    One(framed);
    JoinedOne(framed);
    JoinedLength(b.responses);
    if b.responses != [] { HeadSums(b.responses); } else { NoText(); }
    assert b.responses != [] ==> Push(b, framed).responses[0] == b.responses[0];
    var all := Joined(b.responses);
    assert (all + framed)[b.offset..] == all[b.offset..] + framed;
  }

  lemma NoText()
    ensures Total([]) == 0 && Joined([]) == ""
  {
  }

  lemma SendKeeps(lim: Limits, b: Buffers, n: nat)
    requires Sound(lim, b) && CanSend(b, n)
    ensures Sound(lim, Sent(b, n)) && Held(Sent(b, n)) == Held(b) - n
    ensures Unsent(b) == Chunk(b, n) + Unsent(Sent(b, n))
  {
    hide Total, Joined;
    HeadSums(b.responses);
    JoinedLength(b.responses);
    JoinedLength(b.responses[1..]);
    var all := Joined(b.responses);
    assert all[b.offset..] == all[b.offset..b.offset + n] + all[b.offset + n..];
    assert all[b.offset..b.offset + n] == Chunk(b, n);
    if b.offset + n == |b.responses[0]| { assert all[b.offset + n..] == Joined(b.responses[1..]); }
    if |b.responses| == 1 { NoText(); assert b.responses[1..] == []; }
  }

  // ---------- The connection's methods ----------

  class MemoryBudget {
    const limit: nat
    var used: int

    ghost predicate Valid()
      reads this
    {
      0 <= used <= limit
    }

    constructor (limit: nat)
      ensures Valid() && used == 0 && this.limit == limit
    {
      this.limit, used := limit, 0;
    }

    method TryAcquire(bytes: nat) returns (ok: bool)
      requires Valid()
      modifies this
      ensures Valid() && (ok <==> bytes <= limit - old(used)) && used == old(used) + (if ok then bytes else 0)
    {
      ok := bytes <= limit - used;
      if ok { used := used + bytes; }
    }

    method Release(bytes: nat)
      requires Valid() && bytes <= used
      modifies this
      ensures Valid() && used == old(used) - bytes
    {
      used := used - bytes;
    }
  }

  /** A connection with its buffers; each method is the body of one lock section. */
  class Connection {
    const limits: Limits
    const budget: MemoryBudget
    var accumulated: string
    var requests: seq<string>
    var requestBytes: int
    var readPaused: bool
    var responses: seq<string>
    var offset: nat
    var responseBytes: int

    ghost function Contents(): Buffers
      reads this
    {
      Buffers(accumulated, requests, requestBytes, readPaused, responses, offset, responseBytes)
    }

    /** Its own bytes are part of what the budget counts. */
    ghost predicate Valid()
      reads this, budget
    {
      budget.Valid() && Sound(limits, Contents()) && Held(Contents()) <= budget.used
    }

    constructor (limits: Limits, budget: MemoryBudget)
      requires budget.Valid()
      ensures Valid() && Contents() == NO_BUFFERS && this.limits == limits && this.budget == budget
    {
      this.limits, this.budget := limits, budget;
      accumulated, requests, requestBytes, readPaused := "", [], 0, false;
      responses, offset, responseBytes := [], 0, 0;
    }

    /** Moves complete frames to the queue until none is left or a limit is hit. */
    method QueueFrames() returns (overflow: bool, queued: bool)
      requires budget.Valid() && |accumulated| <= budget.used
      modifies `accumulated, `requests, `requestBytes, budget
      ensures var m := Move(limits, old(accumulated), |old(requests)|, old(requestBytes));
        && accumulated == m.rest && requests == old(requests) + m.frames && requestBytes == old(requestBytes) + Total(m.frames)
        && overflow == m.overflow && (queued <==> m.frames != [])
        && budget.Valid() && budget.used == old(budget.used) - m.delimiters
    {
      hide Total, Move, Cut, NextEnd, Delimiter, Continues;
      overflow, queued := false, false;
      ghost var m := Move(limits, accumulated, |requests|, requestBytes);
      ghost var moved: seq<string>, dropped: nat := [], 0;
      ContinuesFrom(m);
      NoText();
      while true
        invariant !overflow && requests == old(requests) + moved && requestBytes == old(requestBytes) + Total(moved)
        invariant Continues(m, moved, dropped, Move(limits, accumulated, |requests|, requestBytes))
        invariant queued <==> moved != []
        invariant budget.Valid() && budget.used == old(budget.used) - dropped && |accumulated| <= budget.used
        decreases |accumulated|
      {
        MoveStep(limits, accumulated, |requests|, requestBytes);
        ghost var now := Move(limits, accumulated, |requests|, requestBytes);
        ContinuesWith(m, moved, dropped, now);
        var end := NextEnd(accumulated);
        if end < 0 { break; }
        if end > limits.maxQuery || |requests| >= MAX_PENDING_FRAMES || requestBytes + end > limits.maxAccumulated {
          overflow := true;
          break;
        }
        var request := accumulated[..end];
        var delimiter := Delimiter(accumulated);
        budget.Release(delimiter);
        accumulated := accumulated[end + delimiter..];
        ContinuesOn(m, moved, dropped, now, Frame(request), delimiter,
                    Move(limits, accumulated, |requests| + |Frame(request)|, requestBytes + end));
        FrameSums(moved, request);
        moved, dropped := moved + Frame(request), dropped + delimiter;
        if request != "" {
          requestBytes := requestBytes + |request|;
          requests := requests + [request];
          queued := true;
        }
      }
      ContinuesWith(m, moved, dropped, Moved([], accumulated, 0, overflow));
    }

    /** One received chunk: appended, cut into frames, and the frames queued. */
    method Receive(chunk: string) returns (overflow: bool, queued: bool, pause: bool)
      requires Valid()
      modifies `accumulated, `requests, `requestBytes, `readPaused, budget
      ensures Valid()
      ensures var b, free := old(Contents()), old(budget.limit - budget.used);
        if !Fits(limits, b, chunk, free) then overflow && Contents() == b && budget.used == old(budget.used)
        else
          var m := MovedIn(limits, b, chunk);
          && Contents() == Accept(limits, b, chunk)
          && overflow == m.overflow && (queued <==> m.frames != []) && (pause <==> |requests| >= HIGH_WATERMARK)
          && budget.used == old(budget.used) + |chunk| - m.delimiters
    {
      hide Total, Move, Sound, Joined;
      HeldIsNatural(limits, Contents());
      if |accumulated| + |chunk| > limits.maxAccumulated { return true, false, false; }
      var ok := budget.TryAcquire(|chunk|);
      if !ok { return true, false, false; }
      AcceptKeeps(limits, Contents(), chunk, |chunk|);
      accumulated := accumulated + chunk;
      overflow, queued := QueueFrames();
      pause := |requests| >= HIGH_WATERMARK;
      if pause { readPaused := true; }
    }

    /** The oldest request, if there is one, and whether reading may resume. */
    method TakeRequest() returns (request: string, resume: bool)
      requires Valid() && requests != []
      modifies `requests, `requestBytes, `readPaused, budget
      ensures Valid() && Contents() == Take(old(Contents()))
      ensures request == old(requests[0]) && budget.used == old(budget.used) - |request|
      ensures resume <==> old(readPaused) && !readPaused
    {
      hide Total, Joined;
      HeldIsNatural(limits, Contents());
      TakeKeeps(limits, Contents());
      HeldIsNatural(limits, Take(Contents()));
      request, resume := requests[0], false;
      requestBytes := requestBytes - |request|;
      budget.Release(|request|);
      requests := requests[1..];
      if readPaused && |requests| <= LOW_WATERMARK {
        readPaused := false;
        resume := true;
      }
    }

    /** Queues a response for writing, unless it would exceed the write queue or the budget. */
    method EnqueueResponse(response: string) returns (ok: bool)
      requires Valid()
      modifies `responses, `responseBytes, budget
      ensures Valid()
      ensures var framed := Normalized(response);
        && (ok <==> CanPush(old(Contents()), framed, old(budget.limit - budget.used)))
        && Contents() == (if ok then Push(old(Contents()), framed) else old(Contents()))
        && budget.used == old(budget.used) + (if ok then |framed| else 0)
    {
      hide Total, Joined, Expand, Trimmed, Sound;
      var framed := NormalizeResponse(response);
      if responseBytes + |framed| > MAX_WRITE_QUEUE { return false; }
      var acquired := budget.TryAcquire(|framed|);
      if !acquired { return false; }
      PushKeeps(limits, Contents(), framed, |framed|);
      responseBytes := responseBytes + |framed|;
      responses := responses + [framed];
      ok := true;
    }

    /** One successful send of `n` bytes of the oldest response. */
    method SendSome(n: nat)
      requires Valid() && CanSend(Contents(), n)
      modifies `responses, `offset, `responseBytes, budget
      ensures Valid() && Contents() == Sent(old(Contents()), n) && budget.used == old(budget.used) - n
    {
      hide Total, Joined, Sound;
      SendKeeps(limits, Contents(), n);
      HeldIsNatural(limits, Sent(Contents(), n));
      offset := offset + n;
      responseBytes := responseBytes - n;
      budget.Release(n);
      if offset == |responses[0]| {
        responses := responses[1..];
        offset := 0;
      }
    }

    /** Destruction returns what the connection still holds. */
    method Destroy()
      requires Valid()
      modifies budget
      ensures budget.Valid() && budget.used == old(budget.used) - Held(Contents())
    {
      HeldIsNatural(limits, Contents());
      budget.Release(|accumulated| + requestBytes + responseBytes);
    }
  }

  /** The loop has moved some frames and `now` is what remains of its work. */
  ghost predicate Continues(m: Moved, moved: seq<string>, dropped: nat, now: Moved) {
    m == Moved(moved + now.frames, now.rest, dropped + now.delimiters, now.overflow)
  }

  lemma ContinuesFrom(m: Moved)
    ensures Continues(m, [], 0, m)
  {
  }

  lemma ContinuesWith(m: Moved, moved: seq<string>, dropped: nat, now: Moved)
    requires Continues(m, moved, dropped, now)
    ensures m.rest == now.rest && m.overflow == now.overflow && m.delimiters == dropped + now.delimiters
    ensures now.frames == [] ==> m.frames == moved
  {
  }

  lemma ContinuesOn(m: Moved, moved: seq<string>, dropped: nat, now: Moved, frame: seq<string>, delimiter: nat, later: Moved)
    requires Continues(m, moved, dropped, now)
    requires now == Moved(frame + later.frames, later.rest, delimiter + later.delimiters, later.overflow)
    ensures Continues(m, moved + frame, dropped + delimiter, later)
  {
  }

  lemma MoveStep(lim: Limits, s: string, count: nat, bytes: int)
    ensures var end, m := NextEnd(s), Move(lim, s, count, bytes);
      if end < 0 then m == Moved([], s, 0, false)
      else if end > lim.maxQuery || count >= MAX_PENDING_FRAMES || bytes + end > lim.maxAccumulated then m == Moved([], s, 0, true)
      else
        && 0 < end + Delimiter(s) <= |s|
        && var later := Move(lim, s[end + Delimiter(s)..], count + |Frame(s[..end])|, bytes + end);
           m == Moved(Frame(s[..end]) + later.frames, later.rest, Delimiter(s) + later.delimiters, later.overflow)
  {
  }

  lemma FrameSums(moved: seq<string>, request: string)
    ensures Total(moved + Frame(request)) == Total(moved) + |request|
  {
    TotalConcat(moved, Frame(request));
    if request != "" { One(request); } else { assert moved + Frame(request) == moved; }
  }

  lemma HeldIsNatural(lim: Limits, b: Buffers)
    requires Sound(lim, b)
    ensures Held(b) >= |b.accumulated| && b.requestBytes >= 0 && b.responseBytes >= 0
  {
    if b.responses != [] { HeadSums(b.responses); }
  }
}
