/** What whole callbacks and whole rounds of a drainer come to, step by step. */
module Turns {
  import opened Wrappers
  import opened Sequences
  import opened Framing
  import opened Responses
  import opened ReactorBuffers
  import opened Reactor

  /** An action together with the budget free at the time. */
  datatype Turn = Turn(action: Action, free: int)

  function Acts(lim: Limits, c: Conn, turns: seq<Turn>): Conn
    decreases |turns|
  {
    if turns == [] then c else Acts(lim, Act(lim, c, turns[0].action, turns[0].free).conn, turns[1..])
  }

  lemma {:induction false} ActsConcat(lim: Limits, c: Conn, xs: seq<Turn>, ys: seq<Turn>)
    ensures Acts(lim, c, xs + ys) == Acts(lim, Acts(lim, c, xs), ys)
    decreases |xs|
  {
    hide Act;
    if xs == [] {
      assert xs + ys == ys;
    } else {
      assert (xs + ys)[1..] == xs[1..] + ys;
      ActsConcat(lim, Act(lim, c, xs[0].action, xs[0].free).conn, xs[1..], ys);
    }
  }

  // ---------- Part of a run ----------

  function OnConn(k: nat, turns: seq<Turn>): seq<Step> { seq(|turns|, i requires 0 <= i < |turns| => On(k, turns[i].action)) }

  /** The free budget is what the world says it is at each turn. */
  predicate Budgeted(lim: Limits, limit: nat, steps: seq<Step>, k: nat, turns: seq<Turn>) {
    forall i :: 0 <= i < |turns| ==> turns[i].free == limit - Run(lim, limit, steps + OnConn(k, turns[..i])).used
  }

  /** Turns of one connection, after any run, are a run. */
  lemma {:induction false} TurnsAreARun(lim: Limits, limit: nat, steps: seq<Step>, k: nat, turns: seq<Turn>)
    requires Alive(Run(lim, limit, steps), k) && Budgeted(lim, limit, steps, k, turns)
    ensures var w := Run(lim, limit, steps + OnConn(k, turns));
      Alive(w, k) && w.conns[k].value == Acts(lim, Run(lim, limit, steps).conns[k].value, turns)
    decreases |turns|
  {
    hide Act, Next, OnConn, Acts;
    var all := steps + OnConn(k, turns);
    OnConnMore(k, turns);
    if turns == [] {
      assert all == steps;
      ActsNone(lim, Run(lim, limit, steps).conns[k].value);
    } else {
      var n := |turns| - 1;
      var init, last := turns[..n], turns[n];
      assert all[..|all| - 1] == steps + OnConn(k, init);
      forall i | 0 <= i < n ensures init[i].free == limit - Run(lim, limit, steps + OnConn(k, init[..i])).used {
        assert init[..i] == turns[..i];
      }
      TurnsAreARun(lim, limit, steps, k, init);
      var c := Run(lim, limit, steps).conns[k].value;
      assert turns == init + [last];
      ActsOnConn(lim, limit, Run(lim, limit, steps + OnConn(k, init)), k, last);
      ActsConcat(lim, c, init, [last]);
      ActsOne(lim, Acts(lim, c, init), last);
    }
  }

  lemma OnConnMore(k: nat, turns: seq<Turn>)
    ensures turns == [] ==> OnConn(k, turns) == []
    ensures turns != [] ==> OnConn(k, turns) == OnConn(k, turns[..|turns| - 1]) + [On(k, turns[|turns| - 1].action)]
  {
  }

  lemma ActsOnConn(lim: Limits, limit: nat, w: World, k: nat, t: Turn)
    requires Alive(w, k) && t.free == limit - w.used
    ensures var w' := Next(lim, limit, w, On(k, t.action));
      Alive(w', k) && w'.conns[k].value == Act(lim, w.conns[k].value, t.action, t.free).conn
  {
    hide Act;
  }

  lemma ActsNone(lim: Limits, c: Conn)
    ensures Acts(lim, c, []) == c
  {
  }

  lemma ActsOne(lim: Limits, c: Conn, t: Turn)
    ensures Acts(lim, c, [t]) == Act(lim, c, t.action, t.free).conn
  {
    hide Act;
    assert [t][1..] == [];
  }

  // ---------- The write callback ----------

  /** The steps of the reader, which `submitted` says whether the thread pool takes a task. */
  predicate ReaderTurns(turns: seq<Turn>, submitted: bool) {
    forall t :: t in turns ==> t.action == ReaderStep(submitted)
  }

  /** Sends everything that waits. */
  function Sends(b: Buffers): seq<nat> {
    if b.responses == [] then []
    else
      var first := if b.offset < |b.responses[0]| then |b.responses[0]| - b.offset else 0;
      [first] + seq(|b.responses| - 1, i requires 0 <= i < |b.responses| - 1 => |b.responses[i + 1]|)
  }

  /** Sending: each turn sends the rest of the oldest response. */
  predicate SendTurns(turns: seq<Turn>, b: Buffers) {
    |turns| == |Sends(b)| && forall i :: 0 <= i < |turns| ==> turns[i].action == Send(Sends(b)[i])
  }

  lemma {:induction false} AllIsSent(lim: Limits, c: Conn, turns: seq<Turn>)
    requires Sound(lim, c.buffers) && c.control.reader.Writing? && SendTurns(turns, c.buffers)
    ensures var c' := Acts(lim, c, turns);
      && c'.control == c.control && c'.buffers.responses == []
      && c'.history == c.history.(sent := c.history.sent + Unsent(c.buffers))
    decreases |turns|
  {
    hide Act, Sound, Unsent, Sends, Sent, Chunk, CanSend;
    var b := c.buffers;
    SendsAll(lim, b);
    if b.responses != [] {
      var n := Sends(b)[0];
      SendKeeps(lim, b, n);
      SendsRest(b, n);
      SendAct(lim, c, n, turns[0].free);
      AllIsSent(lim, Act(lim, c, Send(n), turns[0].free).conn, turns[1..]);
      var sent, now, rest := c.history.sent, Chunk(b, n), Unsent(Sent(b, n));
      assert (sent + now) + rest == sent + (now + rest);
    }
  }

  lemma SendsAll(lim: Limits, b: Buffers)
    requires Sound(lim, b)
    ensures b.responses == [] ==> Sends(b) == [] && Unsent(b) == ""
    ensures b.responses != [] ==> Sends(b) != [] && CanSend(b, Sends(b)[0]) && Sends(b)[0] == |b.responses[0]| - b.offset
  {
    hide Total;
    if b.responses == [] { NoText(); }
  }

  lemma SendAct(lim: Limits, c: Conn, n: nat, free: int)
    requires c.control.reader.Writing? && CanSend(c.buffers, n)
    ensures Act(lim, c, Send(n), free).conn == Conn(Sent(c.buffers, n), c.control, c.history.(sent := c.history.sent + Chunk(c.buffers, n)))
  {
  }

  lemma SendsRest(b: Buffers, n: nat)
    requires b.responses != [] && CanSend(b, n) && n == |b.responses[0]| - b.offset
    ensures |Sends(Sent(b, n))| == |Sends(b)| - 1 && forall i :: 0 <= i < |Sends(b)| - 1 ==> Sends(Sent(b, n))[i] == Sends(b)[i + 1]
  {
    var b' := Sent(b, n);
    assert b'.offset == 0 && b'.responses == b.responses[1..];
    hide Sent, CanSend;
  }

  /** A step of the reader that queues no notice only moves flags. */
  lemma ReaderAct(lim: Limits, c: Conn, t: Turn, submitted: bool)
    requires t.action == ReaderStep(submitted) && !c.control.reader.Overflowed? && !c.control.reader.Busy?
    ensures Act(lim, c, t.action, t.free).conn ==
      c.(control := ReaderControl(c.control, c.buffers.requests == [], c.buffers.responses == [], submitted))
  {
    hide ReaderControl, Enqueue;
  }

  lemma FirstTurn(lim: Limits, c: Conn, turns: seq<Turn>, submitted: bool)
    requires turns != [] && ReaderTurns(turns, submitted)
    ensures Acts(lim, c, turns) == Acts(lim, Act(lim, c, turns[0].action, turns[0].free).conn, turns[1..])
    ensures turns[0].action == ReaderStep(submitted) && ReaderTurns(turns[1..], submitted)
  {
    hide Act;
    assert turns[0] in turns;
  }

  /** A reader that has left its callback stays where it is. */
  lemma {:induction false} StaysResting(lim: Limits, c: Conn, turns: seq<Turn>, submitted: bool)
    requires c.control.reader.Resting? && ReaderTurns(turns, submitted)
    ensures Acts(lim, c, turns) == c
    decreases |turns|
  {
    hide Act;
    if turns != [] {
      FirstTurn(lim, c, turns, submitted);
      ReaderAct(lim, c, turns[0], submitted);
      StaysResting(lim, c, turns[1..], submitted);
    }
  }

  /** The last steps of a callback: to the poll loop, or out of it for good. */
  lemma Leaves(lim: Limits, c: Conn, turns: seq<Turn>, submitted: bool)
    requires ReaderTurns(turns, submitted) && |turns| >= 2
    requires var r := c.control.reader; r.Polled? || r.Dropping? || r.EofClosing? || r.OverflowClosing?
    ensures var ctl := c.control;
      Acts(lim, c, turns) == c.(control := ctl.(reader := Resting, registered := ctl.registered && !ctl.reader.Dropping?,
                                                closing := ctl.closing || ctl.reader.EofClosing? || ctl.reader.OverflowClosing?))
  {
    hide Act;
    FirstTurn(lim, c, turns, submitted);
    ReaderAct(lim, c, turns[0], submitted);
    var c1 := Act(lim, c, turns[0].action, turns[0].free).conn;
    if c1.control.reader.Resting? {
      StaysResting(lim, c1, turns[1..], submitted);
    } else {
      FirstTurn(lim, c1, turns[1..], submitted);
      ReaderAct(lim, c1, turns[1], submitted);
      StaysResting(lim, Act(lim, c1, turns[1].action, turns[1].free).conn, turns[1..][1..], submitted);
    }
  }

  /** With nothing left to send, a closing connection is dropped, and another one left as it was; so is one whose socket is full. */
  lemma WriteTurn(lim: Limits, c: Conn, turns: seq<Turn>, submitted: bool)
    requires c.control.reader.Writing? && ReaderTurns(turns, submitted) && |turns| >= 4
    ensures Acts(lim, c, turns) == c.(control := c.control.(
      reader := Resting, registered := c.control.registered && !(c.control.closing && c.buffers.responses == [])))
  {
    hide Act;
    FirstTurn(lim, c, turns, submitted);
    ReaderAct(lim, c, turns[0], submitted);
    var c1 := Act(lim, c, turns[0].action, turns[0].free).conn;
    if c.buffers.responses == [] {
      FirstTurn(lim, c1, turns[1..], submitted);
      ReaderAct(lim, c1, turns[1], submitted);
      var c2 := Act(lim, c1, turns[1].action, turns[1].free).conn;
      if c.control.closing {
        Leaves(lim, c2, turns[1..][1..], submitted);
      } else {
        StaysResting(lim, c2, turns[1..][1..], submitted);
      }
    } else {
      StaysResting(lim, c1, turns[1..], submitted);
    }
  }

  /** An error of the socket, in either callback, drops the connection. */
  lemma ErrorTurn(lim: Limits, c: Conn, turns: seq<Turn>, submitted: bool)
    requires |turns| >= 3 && ReaderTurns(turns[1..], submitted)
    requires turns[0].action == SocketError && (c.control.reader.Reading? || c.control.reader.Writing?)
    ensures Acts(lim, c, turns) == c.(control := c.control.(reader := Resting, registered := false))
  {
    hide ReaderControl;
    var c1 := Act(lim, c, turns[0].action, turns[0].free).conn;
    assert c1 == c.(control := c.control.(reader := Dropping));
    Leaves(lim, c1, turns[1..], submitted);
  }

  // ---------- The read callback ----------

  /** The end of a read at the end of input: everything answered and sent, the connection goes; all but sent, it is closing. */
  lemma EofTurn(lim: Limits, c: Conn, turns: seq<Turn>, submitted: bool)
    requires c.control.reader.AtEof? && ReaderTurns(turns, submitted) && |turns| >= 5
    ensures var ctl, silent := c.control, c.buffers.responses == [];
      var finished := ctl.readEof && c.buffers.requests == [] && !ctl.drainScheduled;
      Acts(lim, c, turns) == c.(control := ctl.(reader := Resting, closing := ctl.closing || (finished && !silent),
                                                registered := ctl.registered && !(finished && silent)))
  {
    hide Act;
    FirstTurn(lim, c, turns, submitted);
    ReaderAct(lim, c, turns[0], submitted);
    var c1 := Act(lim, c, turns[0].action, turns[0].free).conn;
    if c1.control.reader.Polled? { Leaves(lim, c1, turns[1..], submitted); } else { IdleTurn(lim, c1, turns[1..], submitted); }
  }

  lemma IdleTurn(lim: Limits, c: Conn, turns: seq<Turn>, submitted: bool)
    requires c.control.reader.AtEofIdle? && ReaderTurns(turns, submitted) && |turns| >= 4
    ensures var ctl, silent := c.control, c.buffers.responses == [];
      var finished := !ctl.drainScheduled;
      Acts(lim, c, turns) == c.(control := ctl.(reader := Resting, closing := ctl.closing || (finished && !silent),
                                                registered := ctl.registered && !(finished && silent)))
  {
    hide Act;
    FirstTurn(lim, c, turns, submitted);
    ReaderAct(lim, c, turns[0], submitted);
    var c1 := Act(lim, c, turns[0].action, turns[0].free).conn;
    if c1.control.reader.Polled? {
      Leaves(lim, c1, turns[1..], submitted);
    } else {
      FirstTurn(lim, c1, turns[1..], submitted);
      ReaderAct(lim, c1, turns[1], submitted);
      Leaves(lim, Act(lim, c1, turns[1].action, turns[1].free).conn, turns[1..][1..], submitted);
    }
  }

  /**
   The end of a read: a drain is started if requests were queued and none is scheduled.  If the thread pool refuses,
   the client is told so, room permitting, and the connection is closed and dropped.
   */
  lemma ReadTurn(lim: Limits, c: Conn, turns: seq<Turn>, submitted: bool)
    requires c.control.reader.Scheduling? && ReaderTurns(turns, submitted) && |turns| >= 7
    ensures var ctl, silent := c.control, c.buffers.responses == [];
      var start := ctl.reader.queued && !ctl.drainScheduled;
      var scheduled := ctl.drainScheduled || ctl.reader.queued;
      var finished := ctl.readEof && c.buffers.requests == [] && !scheduled;
      if start && !submitted then
        var refused := ctl.(reader := Resting, drainScheduled := false, closing := true, registered := false);
        Acts(lim, c, turns) == Enqueue(c, Notice("ERROR Server busy"), turns[3].free, refused).conn
      else
        Acts(lim, c, turns) ==
          c.(control := ctl.(reader := Resting, drainScheduled := scheduled,
                             drainers := if start then ctl.drainers + [Taking] else ctl.drainers,
                             closing := ctl.closing || (finished && !silent), registered := ctl.registered && !(finished && silent)))
  {
    hide Act, Enqueue;
    FirstTurn(lim, c, turns, submitted);
    ReaderAct(lim, c, turns[0], submitted);
    var c1 := Act(lim, c, turns[0].action, turns[0].free).conn;
    if c1.control.reader.AtEof? {
      EofTurn(lim, c1, turns[1..], submitted);
    } else {
      FirstTurn(lim, c1, turns[1..], submitted);
      ReaderAct(lim, c1, turns[1], submitted);
      var c2 := Act(lim, c1, turns[1].action, turns[1].free).conn;
      var rest := turns[1..][1..];
      if submitted {
        EofTurn(lim, c2, rest, submitted);
      } else {
        FirstTurn(lim, c2, rest, submitted);
        ReaderAct(lim, c2, rest[0], submitted);
        assert rest[1..][0] == turns[3];
        var c3 := Act(lim, c2, rest[0].action, rest[0].free).conn;
        var refused := c.control.(reader := Resting, drainScheduled := false, closing := true, registered := false);
        EnqueueIgnores(c, c3.control, Notice("ERROR Server busy"), turns[3].free, refused);
        BusyTurn(lim, c3, rest[1..], submitted);
      }
    }
  }

  lemma EnqueueControl(c: Conn, e: Entry, free: int, ctl: Control, ctl': Control)
    ensures Enqueue(c, e, free, ctl).conn.control == ctl
    ensures Enqueue(c, e, free, ctl).conn.(control := ctl') == Enqueue(c, e, free, ctl').conn
  {
    hide Room, Push, Normalized;
  }

  lemma EnqueueIgnores(c: Conn, before: Control, e: Entry, free: int, ctl: Control)
    ensures Enqueue(c.(control := before), e, free, ctl) == Enqueue(c, e, free, ctl)
  {
    hide Push, Normalized;
  }

  lemma NoticeAct(lim: Limits, c: Conn, t: Turn, submitted: bool)
    requires t.action == ReaderStep(submitted)
    ensures var c' := Act(lim, c, t.action, t.free).conn;
      && (c.control.reader.Busy? ==> c' == Enqueue(c, Notice("ERROR Server busy"), t.free, c.control.(reader := BusyClosing)).conn)
      && (c.control.reader.Overflowed? ==>
            c' == Enqueue(c, Notice("ERROR Request too large"), t.free, c.control.(reader := OverflowClosing)).conn)
  {
    hide Enqueue;
  }

  lemma BusyTurn(lim: Limits, c: Conn, turns: seq<Turn>, submitted: bool)
    requires c.control.reader.Busy? && ReaderTurns(turns, submitted) && |turns| >= 4
    ensures Acts(lim, c, turns) == Enqueue(c, Notice("ERROR Server busy"), turns[0].free,
                                           c.control.(reader := Resting, closing := true, registered := false)).conn
  {
    hide Act, Enqueue;
    FirstTurn(lim, c, turns, submitted);
    NoticeAct(lim, c, turns[0], submitted);
    var c1 := Act(lim, c, turns[0].action, turns[0].free).conn;
    var ctl1, ctl2 := c.control.(reader := BusyClosing), c.control.(reader := Resting, closing := true, registered := false);
    EnqueueControl(c, Notice("ERROR Server busy"), turns[0].free, ctl1, ctl2);
    FirstTurn(lim, c1, turns[1..], submitted);
    ReaderAct(lim, c1, turns[1], submitted);
    Leaves(lim, Act(lim, c1, turns[1].action, turns[1].free).conn, turns[1..][1..], submitted);
  }

  /** After an overflow the client is told so, room permitting, and the connection is closing but not dropped. */
  lemma OverflowTurn(lim: Limits, c: Conn, turns: seq<Turn>, submitted: bool)
    requires c.control.reader.Overflowed? && ReaderTurns(turns, submitted) && |turns| >= 3
    ensures Acts(lim, c, turns) == Enqueue(c, Notice("ERROR Request too large"), turns[0].free,
                                           c.control.(reader := Resting, closing := true)).conn
  {
    hide Act, Enqueue;
    FirstTurn(lim, c, turns, submitted);
    NoticeAct(lim, c, turns[0], submitted);
    var c1 := Act(lim, c, turns[0].action, turns[0].free).conn;
    var ctl1, ctl2 := c.control.(reader := OverflowClosing), c.control.(reader := Resting, closing := true);
    EnqueueControl(c, Notice("ERROR Request too large"), turns[0].free, ctl1, ctl2);
    Leaves(lim, c1, turns[1..], submitted);
  }

  /** Queuing an entry, in numbers: there is room for 16 MiB of responses, and for what the budget has free. */
  lemma EnqueueMeans(c: Conn, e: Entry, free: int, ctl: Control)
    ensures var b, framed := c.buffers, Normalized(e.text);
      var x := Enqueue(c, e, free, ctl);
      if b.responseBytes + |framed| <= 16_777_216 && |framed| <= free then
        && x.conn == Conn(b.(responses := b.responses + [framed], responseBytes := b.responseBytes + |framed|), ctl,
                          c.history.(entries := c.history.entries + [e]))
        && x.acquired == |framed| && x.released == 0
      else x.conn == c.(control := ctl) && x.acquired == 0 && x.released == 0
  {
    hide Normalized;
  }

  /**
   A received chunk that is too much for the connection or the budget is an overflow, with nothing changed; otherwise
   its frames are queued, and the read goes on unless a limit was hit or 768 requests are queued.
   */
  lemma ReceiveTurn(lim: Limits, c: Conn, chunk: string, free: int)
    requires c.control.reader.Reading? && !c.control.readEof && chunk != ""
    ensures var b, h, x := c.buffers, c.history, Act(lim, c, Receive(chunk), free);
      if |b.accumulated| + |chunk| > lim.maxAccumulated || |chunk| > free then
        && x.conn == Conn(b, c.control.(reader := Overflowed), h.(intact := false)) && x.acquired == 0 && x.released == 0
      else
        var m := Move(lim, b.accumulated + chunk, |b.requests|, b.requestBytes);
        var any := c.control.reader.queued || m.frames != [];
        && x.conn.buffers.requests == b.requests + m.frames && x.conn.buffers.accumulated == m.rest
        && x.conn.buffers.readPaused == (b.readPaused || |b.requests + m.frames| >= 768)
        && x.conn.buffers.responses == b.responses && x.conn.buffers.offset == b.offset
        && x.conn.control == c.control.(
             reader := if m.overflow then Overflowed else if |b.requests + m.frames| >= 768 then Scheduling(any) else Reading(any))
        && x.conn.history == h.(chunks := h.chunks + [chunk], queued := h.queued + m.frames, intact := h.intact && !m.overflow)
        && x.acquired == |chunk| && x.released == m.delimiters
  {
    hide Move;
  }

  // ---------- The drainer ----------

  /** Turns of one drainer, with the same reply whatever the request. */
  predicate DrainerTurns(turns: seq<Turn>, i: nat, reply: string) {
    forall j :: 0 <= j < |turns| ==> turns[j].action == DrainerStep(i, reply)
  }

  /** A round of a drainer: the oldest request is taken and answered, and the drainer goes on. */
  lemma AnswerTurn(lim: Limits, c: Conn, i: nat, turns: seq<Turn>, reply: string)
    requires i < |c.control.drainers| && c.control.drainers[i].Taking? && c.buffers.requests != []
    requires |turns| == 2 && DrainerTurns(turns, i, reply)
    requires CanPush(Take(c.buffers), Normalized(reply), turns[1].free)
    ensures var x := c.buffers.requests[0];
      Acts(lim, c, turns) == Conn(Push(Take(c.buffers), Normalized(reply)), c.control,
                                  c.history.(taken := c.history.taken + [x], entries := c.history.entries + [Answer(x, reply)]))
  {
    var ds, x := c.control.drainers, c.buffers.requests[0];
    var c1 := Act(lim, c, turns[0].action, turns[0].free).conn;
    assert c1 == Conn(Take(c.buffers), c.control.(drainers := ds[i := Processing(x)]), c.history.(taken := c.history.taken + [x]));
    assert ds[i := Processing(x)][i := Taking] == ds;
    ActsTwo(lim, c, turns);
    hide Take, Push, CanPush, Normalized;
    assert Act(lim, c1, turns[1].action, turns[1].free).conn.control == c.control;
  }

  lemma ActsThree(lim: Limits, c: Conn, turns: seq<Turn>)
    requires |turns| == 3
    ensures var c1 := Act(lim, c, turns[0].action, turns[0].free).conn;
      var c2 := Act(lim, c1, turns[1].action, turns[1].free).conn;
      Acts(lim, c, turns) == Act(lim, c2, turns[2].action, turns[2].free).conn
  {
    hide Act;
    assert turns[1..][1..] == [turns[2]];
    var c1 := Act(lim, c, turns[0].action, turns[0].free).conn;
    ActsOne(lim, Act(lim, c1, turns[1].action, turns[1].free).conn, turns[2]);
  }

  lemma ActsTwo(lim: Limits, c: Conn, turns: seq<Turn>)
    requires |turns| == 2
    ensures var c1 := Act(lim, c, turns[0].action, turns[0].free).conn;
      Acts(lim, c, turns) == Act(lim, c1, turns[1].action, turns[1].free).conn
  {
    hide Act;
    assert turns[1..] == [turns[1]];
    ActsOne(lim, Act(lim, c, turns[0].action, turns[0].free).conn, turns[1]);
  }

  /** One step of a drainer that is not processing and takes nothing only moves flags. */
  lemma DrainerAct(lim: Limits, c: Conn, i: nat, t: Turn, reply: string)
    requires i < |c.control.drainers| && t.action == DrainerStep(i, reply)
    requires !c.control.drainers[i].Processing? && !(c.control.drainers[i].Taking? && c.buffers.requests != [])
    ensures Act(lim, c, t.action, t.free).conn ==
      c.(control := DrainerControl(c.control, i, c.buffers.requests, c.buffers.responses == [], true))
  {
    hide Room, Enqueue;
  }

  /**
   A drainer that finds no request declares the drain over; past the end of input it closes the connection, and drops
   it if nothing waits to be sent.
   */
  lemma LeaveTurn(lim: Limits, c: Conn, i: nat, turns: seq<Turn>, reply: string)
    requires i < |c.control.drainers| && c.control.drainers[i].Leaving? && |turns| == 3 && DrainerTurns(turns, i, reply)
    ensures var ctl := c.control; var ends := ctl.readEof && c.buffers.requests == [];
      Acts(lim, c, turns) == c.(control := ctl.(
        drainers := ctl.drainers[i := Gone], closing := ctl.closing || ends,
        registered := ctl.registered && !(ends && c.buffers.responses == [])))
  {
    hide Act;
    var ds := c.control.drainers;
    DrainerAct(lim, c, i, turns[0], reply);
    var c1 := Act(lim, c, turns[0].action, turns[0].free).conn;
    DrainerAct(lim, c1, i, turns[1], reply);
    var c2 := Act(lim, c1, turns[1].action, turns[1].free).conn;
    DrainerAct(lim, c2, i, turns[2], reply);
    ActsThree(lim, c, turns);
    assert ds[i := LeavingClosing][i := LeavingSilent] == ds[i := LeavingSilent] && ds[i := LeavingSilent][i := Gone] == ds[i := Gone];
    assert ds[i := Gone][i := Gone] == ds[i := Gone];
  }

  /** With no request left the drain is over, whoever schedules the next one. */
  lemma EmptyTurn(lim: Limits, c: Conn, i: nat, t: Turn, reply: string)
    requires i < |c.control.drainers| && t.action == DrainerStep(i, reply)
    requires c.control.drainers[i].Taking? && c.buffers.requests == []
    ensures Act(lim, c, t.action, t.free).conn ==
      c.(control := c.control.(drainScheduled := false, drainers := c.control.drainers[i := Leaving]))
  {
  }

  /** An answer that finds no room is lost; the connection is closed, and no drain is ever scheduled again. */
  lemma NoRoomTurn(lim: Limits, c: Conn, i: nat, turns: seq<Turn>, reply: string)
    requires i < |c.control.drainers| && c.control.drainers[i].Processing? && |turns| == 2 && DrainerTurns(turns, i, reply)
    requires !CanPush(c.buffers, Normalized(reply), turns[0].free)
    ensures Acts(lim, c, turns) ==
      c.(control := c.control.(drainers := c.control.drainers[i := Leaving], abandoned := true, closing := true))
  {
    var ds := c.control.drainers;
    var c1 := Act(lim, c, turns[0].action, turns[0].free).conn;
    assert c1 == c.(control := c.control.(drainers := ds[i := Failing], abandoned := true));
    assert ds[i := Failing][i := Leaving] == ds[i := Leaving];
    ActsTwo(lim, c, turns);
  }

  // ---------- Closing ----------

  /** How many of its steps the reader needs to drop a closing connection, once it is about to. */
  function Needed(ctl: Control): nat
    requires !ctl.registered || ctl.reader.Emptied? || ctl.reader.Dropping?
  {
    if !ctl.registered then 0 else if ctl.reader.Dropping? then 1 else 2
  }

  /** Whatever the drainers do, a closing connection whose output is gone is dropped by the reader's next two steps. */
  lemma {:induction false} EmptiedIsDropped(lim: Limits, c: Conn, turns: seq<Turn>)
    requires c.control.closing && (!c.control.registered || c.control.reader.Emptied? || c.control.reader.Dropping?)
    requires (forall t :: t in turns ==> t.action.ReaderStep? || t.action.DrainerStep? || t.action.Fail?)
    requires ReaderCount(turns) >= Needed(c.control)
    ensures !Acts(lim, c, turns).control.registered
    decreases |turns|
  {
    if turns != [] {
      hide Act;
      assert turns[0] in turns;
      OthersLeaveReader(lim, c, turns[0]);
      EmptiedIsDropped(lim, Act(lim, c, turns[0].action, turns[0].free).conn, turns[1..]);
    }
  }

  function ReaderCount(turns: seq<Turn>): nat {
    if turns == [] then 0 else (if turns[0].action.ReaderStep? then 1 else 0) + ReaderCount(turns[1..])
  }

  /** Drainers neither move the reader nor take a closing back, and nobody registers a connection again. */
  lemma OthersLeaveReader(lim: Limits, c: Conn, t: Turn)
    requires t.action.ReaderStep? || t.action.DrainerStep? || t.action.Fail?
    ensures var c' := Act(lim, c, t.action, t.free).conn;
      && (!t.action.ReaderStep? ==> c'.control.reader == c.control.reader)
      && (c.control.closing ==> c'.control.closing) && (!c.control.registered ==> !c'.control.registered)
      && (t.action.ReaderStep? && c.control.reader.Emptied? && c.control.closing ==> c'.control.reader.Dropping?)
      && (t.action.ReaderStep? && c.control.reader.Dropping? ==> !c'.control.registered)
  {
    ActControl(lim, c, t);
    hide Act, Room;
  }

  lemma ActControl(lim: Limits, c: Conn, t: Turn)
    ensures var ctl, ctl' := c.control, Act(lim, c, t.action, t.free).conn.control;
      && (t.action.ReaderStep? ==>
            ctl' == ReaderControl(ctl, c.buffers.requests == [], c.buffers.responses == [], t.action.submitted))
      && (t.action.DrainerStep? || t.action.Fail? ==>
            ctl'.reader == ctl.reader && (ctl.closing ==> ctl'.closing) && (!ctl.registered ==> !ctl'.registered))
  {
    hide Room, ReaderControl, DrainerNext, Push, Normalized;
    if t.action.DrainerStep? && t.action.i < |c.control.drainers| { DrainerFlags(c, t.action.i, t.action.response, t.free); }
  }

  lemma DrainerFlags(c: Conn, i: nat, response: string, free: int)
    requires i < |c.control.drainers|
    ensures var ctl, ctl' := c.control, DrainerNext(c, i, response, free).conn.control;
      ctl'.reader == ctl.reader && (ctl.closing ==> ctl'.closing) && (!ctl.registered ==> !ctl'.registered)
  {
    hide Room, Enqueue, Take, DrainerControl;
    var b, d := c.buffers, c.control.drainers[i];
    var answer := Answer(if d.Processing? then d.request else "", response);
    var ctl' := DrainerControl(c.control, i, b.requests, b.responses == [], Room(c, answer, free));
    EnqueueControl(c, answer, free, ctl', ctl');
    ControlFlags(c.control, i, b.requests, b.responses == [], Room(c, answer, free));
  }

  lemma ControlFlags(ctl: Control, i: nat, requests: seq<string>, silent: bool, room: bool)
    requires i < |ctl.drainers|
    ensures var ctl' := DrainerControl(ctl, i, requests, silent, room);
      ctl'.reader == ctl.reader && (ctl.closing ==> ctl'.closing) && (!ctl.registered ==> !ctl'.registered)
  {
  }

  /** A flush alone never drops a connection that is not closing. */
  lemma {:induction false} FlushKeepsOpen(lim: Limits, c: Conn, turns: seq<Turn>)
    requires !c.control.closing && c.control.registered
    requires c.control.reader.Resting? || c.control.reader.Polled? || c.control.reader.Writing? || c.control.reader.Emptied?
    requires forall t :: t in turns ==> t.action.StartWriting? || t.action.Send? || t.action.ReaderStep?
    ensures var ctl := Acts(lim, c, turns).control; ctl.registered && !ctl.closing
    decreases |turns|
  {
    if turns != [] {
      hide Act;
      assert turns[0] in turns;
      FlushStep(lim, c, turns[0]);
      FlushKeepsOpen(lim, Act(lim, c, turns[0].action, turns[0].free).conn, turns[1..]);
    }
  }

  lemma FlushStep(lim: Limits, c: Conn, t: Turn)
    requires !c.control.closing && c.control.registered
    requires c.control.reader.Resting? || c.control.reader.Polled? || c.control.reader.Writing? || c.control.reader.Emptied?
    requires t.action.StartWriting? || t.action.Send? || t.action.ReaderStep?
    ensures var ctl := Act(lim, c, t.action, t.free).conn.control;
      && ctl.registered && !ctl.closing
      && (ctl.reader.Resting? || ctl.reader.Polled? || ctl.reader.Writing? || ctl.reader.Emptied?)
  {
    ActControl(lim, c, t);
    hide Enqueue, Sent, Chunk, CanSend;
  }

  // ---------- In every run ----------

  predicate ClosingTurns(turns: seq<Turn>, b: Buffers, submitted: bool) {
    var n := |Sends(b)| + 1;
    && |turns| == n + 4 && turns[0].action == StartWriting
    && SendTurns(turns[1..n], b) && ReaderTurns(turns[n..], submitted)
  }

  /**
   In every reachable state, once the poll loop is free to write and the socket takes the bytes, a closing connection
   sends everything it was to send and is then dropped; one that is not closing sends it and stays.
   */
  lemma ClosingFlushesAndDrops(lim: Limits, limit: nat, steps: seq<Step>, k: nat, turns: seq<Turn>, submitted: bool)
    requires Alive(Run(lim, limit, steps), k) && Budgeted(lim, limit, steps, k, turns)
    requires var c := Run(lim, limit, steps).conns[k].value;
      c.control.registered && (c.control.reader.Resting? || c.control.reader.Polled?) && ClosingTurns(turns, c.buffers, submitted)
    ensures var w, c := Run(lim, limit, steps + OnConn(k, turns)), Run(lim, limit, steps).conns[k].value;
      && Alive(w, k)
      && var c' := w.conns[k].value;
        && c'.history.sent == Written(c.history.entries) && c'.buffers.responses == []
        && c'.control == c.control.(reader := Resting, registered := !c.control.closing)
  {
    hide Run, Act, Written, Unsent, Sends;
    var c, n := Run(lim, limit, steps).conns[k].value, |Sends(Run(lim, limit, steps).conns[k].value.buffers)| + 1;
    TurnsAreARun(lim, limit, steps, k, turns);
    AliveIsSound(lim, limit, steps, k);
    assert turns == ([turns[0]] + turns[1..n]) + turns[n..];
    ActsConcat(lim, c, [turns[0]] + turns[1..n], turns[n..]);
    ActsConcat(lim, c, [turns[0]], turns[1..n]);
    ActsOne(lim, c, turns[0]);
    StartsWriting(lim, c, turns[0]);
    var c1 := c.(control := c.control.(reader := Writing));
    AllIsSent(lim, c1, turns[1..n]);
    WriteTurn(lim, Acts(lim, c1, turns[1..n]), turns[n..], submitted);
  }

  lemma StartsWriting(lim: Limits, c: Conn, t: Turn)
    requires t.action == StartWriting && c.control.registered && (c.control.reader.Resting? || c.control.reader.Polled?)
    ensures Act(lim, c, t.action, t.free).conn == c.(control := c.control.(reader := Writing))
  {
  }

  /** In every reachable state, a closing connection with its output gone is dropped by its reader, whatever its drainers do. */
  lemma EmptiedIsDroppedInRuns(lim: Limits, limit: nat, steps: seq<Step>, k: nat, turns: seq<Turn>)
    requires Alive(Run(lim, limit, steps), k) && Budgeted(lim, limit, steps, k, turns) && ReaderCount(turns) >= 2
    requires var ctl := Run(lim, limit, steps).conns[k].value.control; ctl.closing && ctl.reader.Emptied?
    requires forall t :: t in turns ==> t.action.ReaderStep? || t.action.DrainerStep? || t.action.Fail?
    ensures var w := Run(lim, limit, steps + OnConn(k, turns)); Alive(w, k) && !w.conns[k].value.control.registered
  {
    TurnsAreARun(lim, limit, steps, k, turns);
    EmptiedIsDropped(lim, Run(lim, limit, steps).conns[k].value, turns);
  }

  /** In every reachable state the queues of a connection are within their limits, and reading is paused between the watermarks. */
  lemma QueuesAreBounded(lim: Limits, limit: nat, steps: seq<Step>, k: nat)
    requires Alive(Run(lim, limit, steps), k)
    ensures var b := Run(lim, limit, steps).conns[k].value.buffers;
      && |b.requests| <= 1024 && |b.accumulated| <= lim.maxAccumulated && b.requestBytes <= lim.maxAccumulated
      && b.responseBytes <= 16_777_216
      && (|b.requests| >= 768 ==> b.readPaused) && (b.readPaused ==> |b.requests| > 512)
  {
    AliveIsSound(lim, limit, steps, k);
    hide Run;
  }
}
