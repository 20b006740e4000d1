/**
 The life of non-blocking connections: a reader thread queues requests, drainers on a thread pool answer
 them, and all connections share a byte budget.  A step is one section of code under a lock, or one access
 to an atomic flag.
 */
module Reactor {
  import opened Wrappers
  import opened Framing
  import opened Sequences
  import opened Responses
  import opened ReactorBuffers

  // ---------- One connection ----------

  /**
   Where the poll loop stands with the connection: in its read callback, done with it (`Polled`) but still holding
   the connection, in its write callback, or not at all.  `queued` tells whether this read has queued a request.
   */
  datatype Reader =
    | Resting
    | Reading(queued: bool)
    | Overflowed
    | OverflowClosing
    | Scheduling(queued: bool)
    | Submitting
    | Rejected
    | Busy
    | BusyClosing
    | AtEof
    | AtEofIdle
    | AtEofSilent
    | EofClosing
    | Polled
    | Writing
    | Emptied
    | Dropping

  datatype Drainer =
    | Taking
    | Processing(request: string)
    | Failing
    | Leaving
    | LeavingClosing
    | LeavingSilent
    | Gone

  /** Everything ever queued for writing: answers to requests, and notices of the reader. */
  datatype Entry = Answer(request: string, text: string) | Notice(text: string)

  /** Flags and phases of a connection's threads; `abandoned` tells whether a drainer gave up. */
  datatype Control = Control(
    readEof: bool, drainScheduled: bool, closing: bool, registered: bool, reader: Reader, drainers: seq<Drainer>, abandoned: bool)

  /**
   What happened so far: the chunks taken in, whether all of them were framed to the end, the requests queued
   and taken, the entries written and the bytes sent.
   */
  datatype History = History(
    chunks: seq<string>, intact: bool, queued: seq<string>, taken: seq<string>, entries: seq<Entry>, sent: string)

  datatype Conn = Conn(buffers: Buffers, control: Control, history: History)

  const NEW_CONN := Conn(NO_BUFFERS, Control(false, false, false, true, Resting, [], false), History([], true, [], [], [], ""))

  datatype Action =
    | StartReading
    | Receive(chunk: string)
    | StopReading(eof: bool)
    | SocketError
    | ReaderStep(submitted: bool)
    | DrainerStep(i: nat, response: string)
    | StartWriting
    | Send(n: nat)
    | Fail

  /** A connection after an action, with the bytes it took from and returned to the budget. */
  datatype Effect = Effect(conn: Conn, acquired: nat, released: nat)

  function Quiet(c: Conn, control: Control): Effect { Effect(c.(control := control), 0, 0) }

  /** Queues an entry if the write queue and the budget have room. */
  predicate Room(c: Conn, e: Entry, free: int) { CanPush(c.buffers, Normalized(e.text), free) }

  function Enqueue(c: Conn, e: Entry, free: int, control: Control): Effect {
    var framed := Normalized(e.text);
    if Room(c, e, free)
    then Effect(Conn(Push(c.buffers, framed), control, c.history.(entries := c.history.entries + [e])), |framed|, 0)
    else Quiet(c, control)
  }

  function ReceiveStep(lim: Limits, c: Conn, chunk: string, free: int): Effect
    requires c.control.reader.Reading?
  {
    var ctl, h := c.control, c.history;
    if !ReactorBuffers.Fits(lim, c.buffers, chunk, free)
    then Effect(Conn(c.buffers, ctl.(reader := Overflowed), h.(intact := false)), 0, 0)
    else
      var m := MovedIn(lim, c.buffers, chunk);
      var b := Accept(lim, c.buffers, chunk);
      var any := ctl.reader.queued || m.frames != [];
      var phase := if m.overflow then Overflowed else if |b.requests| >= HIGH_WATERMARK then Scheduling(any) else Reading(any);
      Effect(Conn(b, ctl.(reader := phase),
                  h.(chunks := h.chunks + [chunk], queued := h.queued + m.frames, intact := h.intact && !m.overflow)),
             |chunk|, m.delimiters)
  }

  /** The poll loop's way out of its callbacks; `idle` and `silent` tell whether the two queues are empty. */
  function NextPhase(ctl: Control, idle: bool, silent: bool, submitted: bool): Reader {
    match ctl.reader
    case Overflowed => OverflowClosing
    case OverflowClosing => Polled
    case Scheduling(queued) => if !queued || ctl.drainScheduled then AtEof else Submitting
    case Submitting => if submitted then AtEof else Rejected
    case Rejected => Busy
    case Busy => BusyClosing
    case BusyClosing => Dropping
    case AtEof => if ctl.readEof && idle then AtEofIdle else Polled
    case AtEofIdle => if !ctl.drainScheduled then AtEofSilent else Polled
    case AtEofSilent => if silent then Dropping else EofClosing
    case EofClosing => Polled
    case Writing => if silent then Emptied else Resting
    case Emptied => if ctl.closing then Dropping else Resting
    case Reading(_) => ctl.reader
    case _ => Resting
  }

  /** The flags it sets on the way. */
  function ReaderControl(ctl: Control, idle: bool, silent: bool, submitted: bool): Control {
    var r := ctl.reader;
    ctl.(reader := NextPhase(ctl, idle, silent, submitted),
         drainScheduled := if r.Scheduling? then ctl.drainScheduled || r.queued else ctl.drainScheduled && !r.Rejected?,
         drainers := if r.Submitting? && submitted then ctl.drainers + [Taking] else ctl.drainers,
         closing := ctl.closing || r.OverflowClosing? || r.BusyClosing? || r.EofClosing?,
         registered := ctl.registered && !r.Dropping?)
  }

  function ReaderNext(c: Conn, submitted: bool, free: int): Effect {
    var ctl := ReaderControl(c.control, c.buffers.requests == [], c.buffers.responses == [], submitted);
    match c.control.reader
    case Overflowed => Enqueue(c, Notice("ERROR Request too large"), free, ctl)
    case Busy => Enqueue(c, Notice("ERROR Server busy"), free, ctl)
    case _ => Quiet(c, ctl)
  }

  /** What a drainer does next; `room` tells whether its response can be queued. */
  function DrainerControl(ctl: Control, i: nat, requests: seq<string>, silent: bool, room: bool): Control
    requires i < |ctl.drainers|
  {
    match ctl.drainers[i]
    case Taking =>
      if requests == [] then ctl.(drainScheduled := false, drainers := ctl.drainers[i := Leaving])
      else ctl.(drainers := ctl.drainers[i := Processing(requests[0])])
    case Processing(_) =>
      if room then ctl.(drainers := ctl.drainers[i := Taking])
      else ctl.(drainers := ctl.drainers[i := Failing], abandoned := true)
    case Failing => ctl.(closing := true, drainers := ctl.drainers[i := Leaving])
    case Leaving => ctl.(drainers := ctl.drainers[i := if ctl.readEof && requests == [] then LeavingClosing else Gone])
    case LeavingClosing => ctl.(closing := true, drainers := ctl.drainers[i := LeavingSilent])
    case LeavingSilent => ctl.(registered := ctl.registered && !silent, drainers := ctl.drainers[i := Gone])
    case Gone => ctl
  }

  function DrainerNext(c: Conn, i: nat, response: string, free: int): Effect
    requires i < |c.control.drainers|
  {
    var b, d := c.buffers, c.control.drainers[i];
    var answer := Answer(if d.Processing? then d.request else "", response);
    var ctl := DrainerControl(c.control, i, b.requests, b.responses == [], Room(c, answer, free));
    if d.Taking? && b.requests != []
    then Effect(Conn(Take(b), ctl, c.history.(taken := c.history.taken + [b.requests[0]])), 0, |b.requests[0]|)
    else if d.Processing? then Enqueue(c, answer, free, ctl)
    else Quiet(c, ctl)
  }

  /** The remaining actions only move flags. */
  function OtherControl(ctl: Control, a: Action): Control {
    match a
    case StartReading =>
      if ctl.registered && ctl.reader.Resting? then ctl.(reader := if ctl.readEof then Scheduling(false) else Reading(false)) else ctl
    case StopReading(eof) =>
      if ctl.reader.Reading? then ctl.(reader := Scheduling(ctl.reader.queued), readEof := ctl.readEof || eof) else ctl
    case SocketError => if ctl.reader.Reading? || ctl.reader.Writing? then ctl.(reader := Dropping) else ctl
    case StartWriting =>
      if (ctl.registered && ctl.reader.Resting?) || ctl.reader.Polled? then ctl.(reader := Writing) else ctl
    case Fail => ctl.(registered := false)
    case _ => ctl
  }

  function Act(lim: Limits, c: Conn, a: Action, free: int): Effect {
    var ctl := c.control;
    var other := Quiet(c, OtherControl(ctl, a));
    match a
    case Receive(chunk) => if ctl.reader.Reading? && !ctl.readEof && chunk != "" then ReceiveStep(lim, c, chunk, free) else other
    case ReaderStep(submitted) => ReaderNext(c, submitted, free)
    case DrainerStep(i, response) => if i < |ctl.drainers| then DrainerNext(c, i, response, free) else other
    case Send(n) => if ctl.reader.Writing? && CanSend(c.buffers, n) then SendStep(c, n) else other
    case _ => other
  }

  function SendStep(c: Conn, n: nat): Effect
    requires CanSend(c.buffers, n)
  {
    Effect(Conn(Sent(c.buffers, n), c.control, c.history.(sent := c.history.sent + Chunk(c.buffers, n))), 0, n)
  }

  // ---------- All connections ----------

  datatype World = World(conns: seq<Option<Conn>>, used: int)

  datatype Step = Open | On(k: nat, action: Action) | Destroy(k: nat)

  /** No callback and no task refers to the connection any more. */
  predicate Unreferenced(c: Conn) {
    !c.control.registered && c.control.reader.Resting? && forall i :: 0 <= i < |c.control.drainers| ==> c.control.drainers[i].Gone?
  }

  function Next(lim: Limits, limit: nat, w: World, s: Step): World {
    match s
    case Open => w.(conns := w.conns + [Some(NEW_CONN)])
    case On(k, action) =>
      if k < |w.conns| && w.conns[k].Some? then
        var e := Act(lim, w.conns[k].value, action, limit - w.used);
        World(w.conns[k := Some(e.conn)], w.used + e.acquired - e.released)
      else w
    case Destroy(k) =>
      if k < |w.conns| && w.conns[k].Some? && Unreferenced(w.conns[k].value)
      then World(w.conns[k := None], w.used - Held(w.conns[k].value.buffers)) else w
  }

  const NO_WORLD := World([], 0)

  function Run(lim: Limits, limit: nat, steps: seq<Step>): World
    decreases |steps|
  {
    if steps == [] then NO_WORLD else Next(lim, limit, Run(lim, limit, steps[..|steps| - 1]), steps[|steps| - 1])
  }

  // ---------- Drainers ----------

  predicate Active(d: Drainer) { d.Taking? || d.Processing? }

  function Count(ds: seq<Drainer>): nat
    decreases |ds|
  {
    if ds == [] then 0 else Count(ds[..|ds| - 1]) + (if Active(ds[|ds| - 1]) then 1 else 0)
  }

  /** Requests taken but not answered. */
  function InFlight(ds: seq<Drainer>): seq<string>
    decreases |ds|
  {
    if ds == [] then []
    else InFlight(ds[..|ds| - 1]) + (if ds[|ds| - 1].Processing? then [ds[|ds| - 1].request] else [])
  }

  lemma {:induction false} CountUpdate(ds: seq<Drainer>, i: nat, d: Drainer)
    requires i < |ds|
    ensures Count(ds[i := d]) == Count(ds) - (if Active(ds[i]) then 1 else 0) + (if Active(d) then 1 else 0)
    ensures Active(ds[i]) ==> Count(ds) >= 1
    decreases |ds|
  {
    var n := |ds| - 1;
    if i < n {
      assert ds[i := d][..n] == ds[..n][i := d];
      CountUpdate(ds[..n], i, d);
    } else {
      assert ds[i := d][..n] == ds[..n];
    }
  }

  lemma {:induction false} NoneInFlight(ds: seq<Drainer>)
    ensures Count(ds) == 0 ==> InFlight(ds) == []
    ensures |InFlight(ds)| <= Count(ds)
    decreases |ds|
  {
    if ds != [] { NoneInFlight(ds[..|ds| - 1]); }
  }

  /** The only active drainer is the one with the request in flight. */
  lemma {:induction false} OneInFlight(ds: seq<Drainer>, i: nat, d: Drainer)
    requires i < |ds| && Active(ds[i]) && Count(ds) == 1
    ensures InFlight(ds) == (if ds[i].Processing? then [ds[i].request] else [])
    ensures InFlight(ds[i := d]) == (if d.Processing? then [d.request] else [])
    decreases |ds|
  {
    hide Count, InFlight;
    var n, ds' := |ds| - 1, ds[i := d];
    LastDrainer(ds);
    LastDrainer(ds');
    if i < n {
      assert ds'[..n] == ds[..n][i := d] && ds'[n] == ds[n];
      CountUpdate(ds[..n], i, d);
      OneInFlight(ds[..n], i, d);
    } else {
      assert ds'[..n] == ds[..n];
      NoneInFlight(ds[..n]);
    }
  }

  lemma LastDrainer(ds: seq<Drainer>)
    requires ds != []
    ensures var n := |ds| - 1;
      && Count(ds) == Count(ds[..n]) + (if Active(ds[n]) then 1 else 0)
      && InFlight(ds) == InFlight(ds[..n]) + (if ds[n].Processing? then [ds[n].request] else [])
  {
  }

  /** Updating a drainer that is not active to one that is not. */
  lemma {:induction false} IdleUpdate(ds: seq<Drainer>, i: nat, d: Drainer)
    requires i < |ds| && !Active(ds[i]) && !Active(d)
    ensures InFlight(ds[i := d]) == InFlight(ds) && Count(ds[i := d]) == Count(ds)
    decreases |ds|
  {
    CountUpdate(ds, i, d);
    var n := |ds| - 1;
    if i < n {
      assert ds[i := d][..n] == ds[..n][i := d];
      IdleUpdate(ds[..n], i, d);
    } else {
      assert ds[i := d][..n] == ds[..n];
    }
  }

  lemma {:induction false} AtMostOneActive(ds: seq<Drainer>, i: nat, j: nat)
    requires i < j < |ds| && Active(ds[i]) && Active(ds[j])
    ensures Count(ds) >= 2
    decreases |ds|
  {
    var n := |ds| - 1;
    if j < n { AtMostOneActive(ds[..n], i, j); } else { CountUpdate(ds[..n], i, Gone); }
  }

  // ---------- Invariants of one connection ----------

  /** Requests answered so far, in the order of their answers. */
  function Answered(entries: seq<Entry>): seq<string>
    decreases |entries|
  {
    if entries == [] then []
    else Answered(entries[..|entries| - 1]) + (if entries[|entries| - 1].Answer? then [entries[|entries| - 1].request] else [])
  }

  function Written(entries: seq<Entry>): string
    decreases |entries|
  {
    if entries == [] then "" else Written(entries[..|entries| - 1]) + Normalized(entries[|entries| - 1].text)
  }

  /** Who is in charge of the request queue: the reader submitting a task, an active drainer, or one that gave up. */
  function Owners(ctl: Control): nat {
    (if ctl.reader.Submitting? || ctl.reader.Rejected? then 1 else 0) + Count(ctl.drainers) + (if ctl.abandoned then 1 else 0)
  }

  /** The reader is on its way to schedule a drain, or to close or drop the connection. */
  predicate ReaderWillAct(r: Reader) {
    ((r.Reading? || r.Scheduling?) && r.queued)
    || r.Overflowed? || r.OverflowClosing? || r.Rejected? || r.Busy? || r.BusyClosing? || r.Dropping?
  }

  ghost predicate SomeFailing(ds: seq<Drainer>) { exists i :: 0 <= i < |ds| && ds[i].Failing? }

  ghost predicate Drained(ctl: Control, idle: bool) {
    && Owners(ctl) == (if ctl.drainScheduled then 1 else 0)
    && (ctl.abandoned ==> ctl.closing || SomeFailing(ctl.drainers))
    && (ctl.registered && !ctl.closing && !idle ==> ctl.drainScheduled || ReaderWillAct(ctl.reader))
  }

  ghost predicate Ordered(h: History, requests: seq<string>, ctl: Control) {
    && h.queued == h.taken + requests
    && (if ctl.abandoned then Answered(h.entries) <= h.taken && |h.taken| == |Answered(h.entries)| + 1
        else h.taken == Answered(h.entries) + InFlight(ctl.drainers))
  }

  /** Past the end of input, whoever is about to close has seen that no request can come any more. */
  ghost predicate Ending(ctl: Control, idle: bool) {
    && (ctl.reader.AtEofIdle? || ctl.reader.AtEofSilent? || ctl.reader.EofClosing? ==> ctl.readEof && idle)
    && (ctl.reader.AtEofSilent? || ctl.reader.EofClosing? ==> !ctl.drainScheduled)
    && (SomeEnding(ctl.drainers) ==> ctl.readEof && idle)
  }

  ghost predicate SomeEnding(ds: seq<Drainer>) { exists i :: 0 <= i < |ds| && (ds[i].LeavingClosing? || ds[i].LeavingSilent?) }

  ghost predicate Inv(lim: Limits, c: Conn) {
    && Sound(lim, c.buffers) && Drained(c.control, c.buffers.requests == []) && Ending(c.control, c.buffers.requests == [])
    && Ordered(c.history, c.buffers.requests, c.control)
    && Written(c.history.entries) == c.history.sent + Unsent(c.buffers)
    && (c.history.intact ==> Framed(c.history.queued, c.buffers.accumulated) == Fed(c.history.chunks))
  }

  /** An action keeps the invariant, and takes and returns exactly the bytes by which its holdings change. */
  ghost predicate Keeps(lim: Limits, c: Conn, e: Effect, free: int) {
    && Inv(lim, e.conn)
    && Held(e.conn.buffers) == Held(c.buffers) + e.acquired - e.released
    && (e.acquired == 0 || e.acquired <= free)
  }

  lemma NormalizedIsNotEmpty(s: string)
    ensures Normalized(s) != ""
  {
  }

  lemma EntryMore(entries: seq<Entry>, e: Entry)
    ensures Written(entries + [e]) == Written(entries) + Normalized(e.text)
    ensures Answered(entries + [e]) == Answered(entries) + (if e.Answer? then [e.request] else [])
  {
    assert (entries + [e])[..|entries + [e]| - 1] == entries;
  }

  lemma TaskMore(ds: seq<Drainer>)
    ensures InFlight(ds + [Taking]) == InFlight(ds) && Count(ds + [Taking]) == Count(ds) + 1
    ensures SomeFailing(ds) ==> SomeFailing(ds + [Taking])
  {
    assert (ds + [Taking])[..|ds + [Taking]| - 1] == ds;
    if SomeFailing(ds) {
      var j :| 0 <= j < |ds| && ds[j].Failing?;
      assert (ds + [Taking])[j].Failing?;
    }
  }

  lemma FailingUpdate(ds: seq<Drainer>, i: nat, d: Drainer)
    requires i < |ds|
    ensures d.Failing? || (SomeFailing(ds) && !ds[i].Failing?) ==> SomeFailing(ds[i := d])
  {
    if d.Failing? {
      assert ds[i := d][i].Failing?;
    } else if SomeFailing(ds) && !ds[i].Failing? {
      var j :| 0 <= j < |ds| && ds[j].Failing?;
      assert ds[i := d][j].Failing?;
    }
  }

  lemma ReceiveKeeps(lim: Limits, c: Conn, chunk: string, free: int)
    requires Inv(lim, c) && c.control.reader.Reading? && !c.control.readEof
    ensures Keeps(lim, c, ReceiveStep(lim, c, chunk, free), free)
  {
    hide Sound, Move, Answered, Written, InFlight, Count, Unsent, Joined, Cut, Held, SomeFailing, SomeEnding;
    var b := c.buffers;
    if ReactorBuffers.Fits(lim, b, chunk, free) {
      AcceptKeeps(lim, b, chunk, free);
      MoveKeeps(lim, b.accumulated + chunk, |b.requests|, b.requestBytes);
      var chunks := c.history.chunks + [chunk];
      assert chunks[..|chunks| - 1] == c.history.chunks;
    }
  }

  /** A step that only moves flags and phases. */
  lemma FlagsKeep(lim: Limits, c: Conn, ctl: Control, free: int)
    requires Inv(lim, c) && Drained(ctl, c.buffers.requests == []) && Ending(ctl, c.buffers.requests == [])
    requires InFlight(ctl.drainers) == InFlight(c.control.drainers) && ctl.abandoned == c.control.abandoned
    ensures Keeps(lim, c, Quiet(c, ctl), free)
  {
    hide Sound, Answered, Written, Unsent, Held, InFlight, Fed, Drained, Ending;
  }

  /** Queuing an entry, with flags that fit what becomes of it. */
  lemma EnqueueKeeps(lim: Limits, c: Conn, e: Entry, free: int, ctl: Control)
    requires Inv(lim, c) && Drained(ctl, c.buffers.requests == []) && Ending(ctl, c.buffers.requests == [])
    requires var entries := if Room(c, e, free) then c.history.entries + [e] else c.history.entries;
      Ordered(c.history.(entries := entries), c.buffers.requests, ctl)
    ensures Keeps(lim, c, Enqueue(c, e, free, ctl), free)
  {
    hide Sound, Normalized, Answered, Unsent, Held, InFlight, Count, Drained, Ending, Ordered, Written;
    var framed := Normalized(e.text);
    NormalizedIsNotEmpty(e.text);
    if CanPush(c.buffers, framed, free) {
      PushKeeps(lim, c.buffers, framed, free);
      EntryMore(c.history.entries, e);
      assert c.history.sent + (Unsent(c.buffers) + framed) == (c.history.sent + Unsent(c.buffers)) + framed;
    }
  }

  lemma ReaderDrained(ctl: Control, idle: bool, silent: bool, submitted: bool)
    requires Drained(ctl, idle)
    ensures var ctl' := ReaderControl(ctl, idle, silent, submitted);
      Drained(ctl', idle) && InFlight(ctl'.drainers) == InFlight(ctl.drainers) && ctl'.abandoned == ctl.abandoned
  {
    hide Count, InFlight, SomeFailing;
    if ctl.reader.Submitting? && submitted { TaskMore(ctl.drainers); }
  }

  lemma EndingUpdate(ds: seq<Drainer>, i: nat, d: Drainer)
    requires i < |ds|
    ensures SomeEnding(ds[i := d]) ==> SomeEnding(ds) || d.LeavingClosing? || d.LeavingSilent?
  {
    if SomeEnding(ds[i := d]) && !(d.LeavingClosing? || d.LeavingSilent?) {
      var j :| 0 <= j < |ds| && (ds[i := d][j].LeavingClosing? || ds[i := d][j].LeavingSilent?);
      assert ds[j] == ds[i := d][j];
    }
  }

  lemma EndingMore(ds: seq<Drainer>)
    ensures SomeEnding(ds + [Taking]) ==> SomeEnding(ds)
  {
    if SomeEnding(ds + [Taking]) {
      var j :| 0 <= j < |ds + [Taking]| && ((ds + [Taking])[j].LeavingClosing? || (ds + [Taking])[j].LeavingSilent?);
      assert ds[j] == (ds + [Taking])[j];
    }
  }

  lemma ReaderEnding(ctl: Control, idle: bool, silent: bool, submitted: bool)
    requires Ending(ctl, idle)
    ensures Ending(ReaderControl(ctl, idle, silent, submitted), idle)
  {
    hide SomeEnding;
    EndingMore(ctl.drainers);
  }

  lemma DrainerEnding(ctl: Control, i: nat, requests: seq<string>, silent: bool, room: bool)
    requires i < |ctl.drainers| && Ending(ctl, requests == [])
    ensures var ctl' := DrainerControl(ctl, i, requests, silent, room);
      Ending(ctl', requests == []) && (requests != [] && ctl.drainers[i].Taking? ==> Ending(ctl', requests[1..] == []))
  {
    hide SomeEnding;
    var d := ctl.drainers[i];
    assert d.LeavingClosing? || d.LeavingSilent? ==> SomeEnding(ctl.drainers) by { HasEnding(ctl.drainers, i); }
    EndingUpdate(ctl.drainers, i, DrainerControl(ctl, i, requests, silent, room).drainers[i]);
    assert ctl.drainers[i := d] == ctl.drainers;
  }

  lemma HasEnding(ds: seq<Drainer>, i: nat)
    requires i < |ds|
    ensures ds[i].LeavingClosing? || ds[i].LeavingSilent? ==> SomeEnding(ds)
  {
  }

  lemma OtherEnding(ctl: Control, a: Action, idle: bool)
    requires Ending(ctl, idle)
    ensures Ending(OtherControl(ctl, a), idle)
  {
    hide SomeEnding;
  }

  /** A notice does not disturb the order of answers. */
  lemma NoticeOrdered(h: History, requests: seq<string>, ctl: Control, ctl': Control, text: string)
    requires Ordered(h, requests, ctl) && InFlight(ctl'.drainers) == InFlight(ctl.drainers) && ctl'.abandoned == ctl.abandoned
    ensures Ordered(h, requests, ctl') && Ordered(h.(entries := h.entries + [Notice(text)]), requests, ctl')
  {
    hide Answered, InFlight;
    EntryMore(h.entries, Notice(text));
  }

  lemma ReaderKeeps(lim: Limits, c: Conn, submitted: bool, free: int)
    requires Inv(lim, c)
    ensures Keeps(lim, c, ReaderNext(c, submitted, free), free)
  {
    hide Drained, Ending, ReaderControl, Enqueue, Quiet, Keeps, Sound, Fed, Written, Unsent, InFlight, Answered, Ordered, Room;
    var idle, silent := c.buffers.requests == [], c.buffers.responses == [];
    var ctl := ReaderControl(c.control, idle, silent, submitted);
    ReaderDrained(c.control, idle, silent, submitted);
    ReaderEnding(c.control, idle, silent, submitted);
    if c.control.reader.Overflowed? || c.control.reader.Busy? {
      var e := Notice(if c.control.reader.Busy? then "ERROR Server busy" else "ERROR Request too large");
      NoticeOrdered(c.history, c.buffers.requests, c.control, ctl, e.text);
      assert c.history.(entries := c.history.entries) == c.history;
      EnqueueKeeps(lim, c, e, free, ctl);
    } else {
      FlagsKeep(lim, c, ctl, free);
    }
  }

  lemma DrainerOwners(ctl: Control, i: nat, requests: seq<string>, silent: bool, room: bool)
    requires i < |ctl.drainers| && Owners(ctl) == (if ctl.drainScheduled then 1 else 0)
    ensures var ctl' := DrainerControl(ctl, i, requests, silent, room);
      && Owners(ctl') == (if ctl'.drainScheduled then 1 else 0)
      && (Active(ctl.drainers[i]) ==> ctl.drainScheduled && (ctl'.drainScheduled || (ctl.drainers[i].Taking? && requests == [])))
      && (!Active(ctl.drainers[i]) ==> ctl'.drainScheduled == ctl.drainScheduled && ctl'.abandoned == ctl.abandoned)
  {
    hide Count;
    CountUpdate(ctl.drainers, i, DrainerControl(ctl, i, requests, silent, room).drainers[i]);
    assert ctl.drainers[i := ctl.drainers[i]] == ctl.drainers;
  }

  lemma DrainerRequests(ctl: Control, i: nat, requests: seq<string>, silent: bool, room: bool)
    requires i < |ctl.drainers| && Owners(ctl) == (if ctl.drainScheduled then 1 else 0)
    requires !Active(ctl.drainers[i]) || (ctl.drainers[i].Taking? && requests == [])
    ensures var ctl' := DrainerControl(ctl, i, requests, silent, room);
      InFlight(ctl'.drainers) == InFlight(ctl.drainers) && ctl'.abandoned == ctl.abandoned
  {
    hide Count, InFlight;
    var d := DrainerControl(ctl, i, requests, silent, room).drainers[i];
    assert ctl.drainers[i := ctl.drainers[i]] == ctl.drainers;
    CountUpdate(ctl.drainers, i, d);
    if Active(ctl.drainers[i]) { OneInFlight(ctl.drainers, i, d); } else { IdleUpdate(ctl.drainers, i, d); }
  }

  lemma DrainerDrained(ctl: Control, i: nat, requests: seq<string>, silent: bool, room: bool)
    requires i < |ctl.drainers| && Drained(ctl, requests == [])
    ensures var ctl' := DrainerControl(ctl, i, requests, silent, room);
      && Drained(ctl', requests == [])
      && (requests != [] && ctl.drainers[i].Taking? ==> Drained(ctl', requests[1..] == []))
      && (!Active(ctl.drainers[i]) || (ctl.drainers[i].Taking? && requests == []) ==>
            InFlight(ctl'.drainers) == InFlight(ctl.drainers) && ctl'.abandoned == ctl.abandoned)
  {
    hide Count, InFlight, SomeFailing, Owners;
    DrainerOwners(ctl, i, requests, silent, room);
    FailingUpdate(ctl.drainers, i, DrainerControl(ctl, i, requests, silent, room).drainers[i]);
    if !Active(ctl.drainers[i]) || (ctl.drainers[i].Taking? && requests == []) {
      DrainerRequests(ctl, i, requests, silent, room);
    }
  }

  /** The request in flight, before and after a drainer takes or answers it. */
  lemma DrainerInFlight(ctl: Control, i: nat, requests: seq<string>, silent: bool, room: bool)
    requires i < |ctl.drainers| && Drained(ctl, requests == [])
    ensures var ctl', d := DrainerControl(ctl, i, requests, silent, room), ctl.drainers[i];
      && (d.Taking? && requests != [] ==>
            InFlight(ctl.drainers) == [] && InFlight(ctl'.drainers) == [requests[0]] && !ctl.abandoned && !ctl'.abandoned)
      && (d.Processing? ==>
            InFlight(ctl.drainers) == [d.request] && InFlight(ctl'.drainers) == [] && !ctl.abandoned && ctl'.abandoned == !room)
  {
    hide Count, InFlight, SomeFailing;
    if Active(ctl.drainers[i]) {
      CountUpdate(ctl.drainers, i, Gone);
      OneInFlight(ctl.drainers, i, DrainerControl(ctl, i, requests, silent, room).drainers[i]);
    }
  }

  lemma DrainerKeeps(lim: Limits, c: Conn, i: nat, response: string, free: int)
    requires Inv(lim, c) && i < |c.control.drainers|
    ensures Keeps(lim, c, DrainerNext(c, i, response, free), free)
  {
    hide Drained, Ending, DrainerControl, Enqueue, Sound, Fed, Written, Unsent, InFlight, Answered, Held;
    var b, d := c.buffers, c.control.drainers[i];
    var answer := Answer(if d.Processing? then d.request else "", response);
    var room := Room(c, answer, free);
    var ctl := DrainerControl(c.control, i, b.requests, b.responses == [], room);
    DrainerDrained(c.control, i, b.requests, b.responses == [], room);
    DrainerInFlight(c.control, i, b.requests, b.responses == [], room);
    DrainerEnding(c.control, i, b.requests, b.responses == [], room);
    if d.Taking? && b.requests != [] {
      TakeKeeps(lim, b);
    } else if d.Processing? {
      EntryMore(c.history.entries, answer);
      EnqueueKeeps(lim, c, answer, free, ctl);
    } else {
      hide Inv, Keeps, Quiet, Ordered;
      FlagsKeep(lim, c, ctl, free);
    }
  }

  lemma SendingKeeps(lim: Limits, c: Conn, n: nat, free: int)
    requires Inv(lim, c) && CanSend(c.buffers, n)
    ensures Keeps(lim, c, SendStep(c, n), free)
  {
    hide Sound, Answered, Written, Unsent, Held, InFlight, Fed, Drained, Ending, Chunk;
    SendKeeps(lim, c.buffers, n);
    var sent, now, rest := c.history.sent, Chunk(c.buffers, n), Unsent(Sent(c.buffers, n));
    assert (sent + now) + rest == sent + (now + rest);
  }

  lemma OtherDrained(ctl: Control, a: Action, idle: bool)
    requires Drained(ctl, idle)
    ensures var ctl' := OtherControl(ctl, a);
      Drained(ctl', idle) && ctl'.drainers == ctl.drainers && ctl'.abandoned == ctl.abandoned
  {
    hide Count, SomeFailing;
  }

  lemma ActKeeps(lim: Limits, c: Conn, a: Action, free: int)
    requires Inv(lim, c)
    ensures Keeps(lim, c, Act(lim, c, a, free), free)
  {
    hide Keeps, Sound, Written, Unsent, Fed, ReceiveStep, ReaderNext, DrainerNext, SendStep, Ordered, Drained, Ending, InFlight, Quiet, OtherControl;
    OtherDrained(c.control, a, c.buffers.requests == []);
    OtherEnding(c.control, a, c.buffers.requests == []);
    FlagsKeep(lim, c, OtherControl(c.control, a), free);
    match a {
      case Receive(chunk) => if c.control.reader.Reading? && !c.control.readEof && chunk != "" { ReceiveKeeps(lim, c, chunk, free); }
      case ReaderStep(submitted) => ReaderKeeps(lim, c, submitted, free);
      case DrainerStep(i, response) => if i < |c.control.drainers| { DrainerKeeps(lim, c, i, response, free); }
      case Send(n) => if c.control.reader.Writing? && CanSend(c.buffers, n) { SendingKeeps(lim, c, n, free); }
      case _ =>
    }
  }

  // ---------- Invariants of the whole ----------

  function TotalHeld(conns: seq<Option<Conn>>): int
    decreases |conns|
  {
    if conns == [] then 0
    else TotalHeld(conns[..|conns| - 1]) + (if conns[|conns| - 1].Some? then Held(conns[|conns| - 1].value.buffers) else 0)
  }

  ghost predicate Healthy(lim: Limits, limit: nat, w: World) {
    && (forall k :: 0 <= k < |w.conns| && w.conns[k].Some? ==> Inv(lim, w.conns[k].value))
    && w.used == TotalHeld(w.conns) && 0 <= w.used <= limit
  }

  lemma {:induction false} TotalUpdate(conns: seq<Option<Conn>>, k: nat, x: Option<Conn>)
    requires k < |conns|
    ensures TotalHeld(conns[k := x]) == TotalHeld(conns)
      - (if conns[k].Some? then Held(conns[k].value.buffers) else 0) + (if x.Some? then Held(x.value.buffers) else 0)
    decreases |conns|
  {
    hide Held;
    var n := |conns| - 1;
    if k < n {
      assert conns[k := x][..n] == conns[..n][k := x];
      TotalUpdate(conns[..n], k, x);
    } else {
      assert conns[k := x][..n] == conns[..n];
    }
  }

  lemma {:induction false} TotalIsNatural(lim: Limits, conns: seq<Option<Conn>>)
    requires forall k :: 0 <= k < |conns| && conns[k].Some? ==> Inv(lim, conns[k].value)
    ensures TotalHeld(conns) >= 0
    ensures forall k :: 0 <= k < |conns| && conns[k].Some? ==> 0 <= Held(conns[k].value.buffers) <= TotalHeld(conns)
    decreases |conns|
  {
    hide Held, Drained, Ending, Ordered, Sound, Fed, Written, Unsent;
    if conns != [] {
      var n := |conns| - 1;
      TotalIsNatural(lim, conns[..n]);
      if conns[n].Some? { HeldIsNatural(lim, conns[n].value.buffers); }
    }
  }

  lemma NextIsHealthy(lim: Limits, limit: nat, w: World, s: Step)
    requires Healthy(lim, limit, w)
    ensures Healthy(lim, limit, Next(lim, limit, w, s))
  {
    hide Act, Inv, Held, Unreferenced;
    var w' := Next(lim, limit, w, s);
    match s {
      case Open =>
        assert w'.conns[..|w'.conns| - 1] == w.conns;
        NewIsSound(lim);
      case On(k, action) =>
        if k < |w.conns| && w.conns[k].Some? {
          ActKeeps(lim, w.conns[k].value, action, limit - w.used);
          TotalUpdate(w.conns, k, w'.conns[k]);
        }
      case Destroy(k) => if k < |w.conns| && w.conns[k].Some? { TotalUpdate(w.conns, k, None); }
    }
    TotalIsNatural(lim, w.conns);
    TotalIsNatural(lim, w'.conns);
  }

  lemma NewIsSound(lim: Limits)
    ensures Inv(lim, NEW_CONN) && Held(NEW_CONN.buffers) == 0
  {
    NoText();
  }

  /** In every run, every connection keeps its invariant and the budget counts exactly what the connections hold. */
  lemma {:induction false} RunIsHealthy(lim: Limits, limit: nat, steps: seq<Step>)
    ensures Healthy(lim, limit, Run(lim, limit, steps))
    decreases |steps|
  {
    if steps != [] {
      RunIsHealthy(lim, limit, steps[..|steps| - 1]);
      hide Healthy, Next;
      NextIsHealthy(lim, limit, Run(lim, limit, steps[..|steps| - 1]), steps[|steps| - 1]);
    }
  }

  // ---------- What holds in every run ----------

  lemma {:induction false} SomeActive(ds: seq<Drainer>)
    requires Count(ds) > 0
    ensures exists i :: 0 <= i < |ds| && Active(ds[i])
    decreases |ds|
  {
    var n := |ds| - 1;
    if !Active(ds[n]) {
      SomeActive(ds[..n]);
      var i :| 0 <= i < n && Active(ds[..n][i]);
      assert Active(ds[i]);
    }
  }

  /** The live connection in slot `k`. */
  predicate Alive(w: World, k: nat) { k < |w.conns| && w.conns[k].Some? }

  lemma AliveIsSound(lim: Limits, limit: nat, steps: seq<Step>, k: nat)
    requires Alive(Run(lim, limit, steps), k)
    ensures Inv(lim, Run(lim, limit, steps).conns[k].value)
  {
    RunIsHealthy(lim, limit, steps);
  }

  /**
   No request is stranded: while a registered connection that is not closing has queued requests, a drainer is
   at work, or the reader is about to submit one, or someone is about to close the connection.  Never are two
   drainers at work at once.
   */
  lemma QueuedRequestsAreDrained(lim: Limits, limit: nat, steps: seq<Step>, k: nat)
    requires Alive(Run(lim, limit, steps), k)
    ensures var c := Run(lim, limit, steps).conns[k].value; var ctl := c.control;
      && (ctl.registered && !ctl.closing && c.buffers.requests != [] ==>
            || ReaderWillAct(ctl.reader) || ctl.reader.Submitting?
            || (exists i :: 0 <= i < |ctl.drainers| && Active(ctl.drainers[i]))
            || SomeFailing(ctl.drainers))
      && (forall i, j :: 0 <= i < j < |ctl.drainers| ==> !(Active(ctl.drainers[i]) && Active(ctl.drainers[j])))
  {
    AliveIsSound(lim, limit, steps, k);
    hide Run, Sound, Ending, Ordered, Written, Unsent, Fed, SomeFailing;
    var ctl := Run(lim, limit, steps).conns[k].value.control;
    if Count(ctl.drainers) > 0 { SomeActive(ctl.drainers); }
    forall i, j | 0 <= i < j < |ctl.drainers| ensures !(Active(ctl.drainers[i]) && Active(ctl.drainers[j])) {
      if Active(ctl.drainers[i]) && Active(ctl.drainers[j]) {
        AtMostOneActive(ctl.drainers, i, j);
        assert false;
      }
    }
  }

  /**
   Answers leave in the order the requests came in, none twice and none out of turn; what was written is what
   was sent and what waits to be sent; and as long as no limit was hit, the requests of a uniform stream are its
   lines, however it was received.
   */
  lemma AnswersAreInOrder(lim: Limits, limit: nat, steps: seq<Step>, k: nat)
    requires Alive(Run(lim, limit, steps), k)
    ensures var c := Run(lim, limit, steps).conns[k].value; var h := c.history;
      && Answered(h.entries) <= h.queued
      && Written(h.entries) == h.sent + Unsent(c.buffers)
      && (h.intact && Uniform(Joined(h.chunks)) ==>
            h.queued == Lines(Joined(h.chunks)).frames && c.buffers.accumulated == Lines(Joined(h.chunks)).rest)
  {
    AliveIsSound(lim, limit, steps, k);
    hide Run, Sound, Drained, Ending, Written, Unsent, Fed, Uniform, Joined, Lines, InFlight, Answered;
    var h := Run(lim, limit, steps).conns[k].value.history;
    if Uniform(Joined(h.chunks)) { FedIsLines(h.chunks); }
  }

  /**
   The budget is conserved: in every run its counter is the sum of the bytes all connections hold, each counted
   from its buffers; it stays between 0 and the limit, and is 0 when all connections are gone.
   */
  lemma BudgetIsConserved(lim: Limits, limit: nat, steps: seq<Step>)
    ensures var w := Run(lim, limit, steps);
      && w.used == TotalHeld(w.conns) && 0 <= w.used <= limit
      && (forall k :: 0 <= k < |w.conns| && w.conns[k].Some? ==>
            var b := w.conns[k].value.buffers; Held(b) == |b.accumulated| + Total(b.requests) + |Unsent(b)|)
      && ((forall k :: 0 <= k < |w.conns| ==> w.conns[k].None?) ==> w.used == 0)
  {
    RunIsHealthy(lim, limit, steps);
    hide Run, Held;
    var w := Run(lim, limit, steps);
    forall k | 0 <= k < |w.conns| && w.conns[k].Some?
      ensures var b := w.conns[k].value.buffers; Held(b) == |b.accumulated| + Total(b.requests) + |Unsent(b)|
    {
      assert Inv(lim, w.conns[k].value);
      HeldIsBuffered(lim, w.conns[k].value.buffers);
    }
    if forall k :: 0 <= k < |w.conns| ==> w.conns[k].None? { NothingHeld(w.conns); }
  }

  lemma HeldIsBuffered(lim: Limits, b: Buffers)
    requires Sound(lim, b)
    ensures Held(b) == |b.accumulated| + Total(b.requests) + |Unsent(b)|
  {
    JoinedLength(b.responses);
    if b.responses != [] { HeadSums(b.responses); } else { NoText(); }
  }

  lemma {:induction false} NothingHeld(conns: seq<Option<Conn>>)
    requires forall k :: 0 <= k < |conns| ==> conns[k].None?
    ensures TotalHeld(conns) == 0
    decreases |conns|
  {
    if conns != [] { NothingHeld(conns[..|conns| - 1]); }
  }

  // ---------- End of input ----------

  /**
   When both queues are empty, what was sent is what was written, and every request has its answer exactly when
   none is in flight and no drainer gave up.  That no drain is scheduled is enough to know it.
   */
  lemma AllAnsweredIffNoneInFlight(lim: Limits, limit: nat, steps: seq<Step>, k: nat)
    requires Alive(Run(lim, limit, steps), k)
    ensures var c := Run(lim, limit, steps).conns[k].value;
      c.buffers.requests == [] && c.buffers.responses == [] ==>
        && Written(c.history.entries) == c.history.sent
        && (Answered(c.history.entries) == c.history.queued <==> InFlight(c.control.drainers) == [] && !c.control.abandoned)
        && (!c.control.drainScheduled ==> Answered(c.history.entries) == c.history.queued)
  {
    AliveIsSound(lim, limit, steps, k);
    hide Run, Sound, Ending, Written, Fed, InFlight, Answered, Count;
    var c := Run(lim, limit, steps).conns[k].value;
    if c.buffers.requests == [] && c.buffers.responses == [] {
      NothingUnsent(c.buffers);
      NoneInFlight(c.control.drainers);
    }
  }

  lemma NothingUnsent(b: Buffers)
    requires b.responses == []
    ensures Unsent(b) == ""
  {
    NoText();
  }

  /**
   Past the end of input the reader closes only when everything is answered, and drops a silent connection only when
   everything is also sent, since it asks whether a drain is scheduled.  A drainer that left its loop does not ask: with
   nothing queued it is right to drop the connection exactly when no request is in flight and no drainer gave up.
   */
  lemma ClosingAtEndOfInput(lim: Limits, limit: nat, steps: seq<Step>, k: nat)
    requires Alive(Run(lim, limit, steps), k)
    ensures var c := Run(lim, limit, steps).conns[k].value; var h := c.history;
      var complete := Answered(h.entries) == h.queued && Written(h.entries) == h.sent;
      && (c.control.reader.AtEofSilent? || c.control.reader.EofClosing? ==> Answered(h.entries) == h.queued)
      && (c.buffers.responses == [] ==>
        && (c.control.reader.AtEofSilent? ==> complete)
        && (SomeEnding(c.control.drainers) ==> (complete <==> InFlight(c.control.drainers) == [] && !c.control.abandoned)))
  {
    AliveIsSound(lim, limit, steps, k);
    AllAnsweredIffNoneInFlight(lim, limit, steps, k);
    hide Run, Sound, Written, Fed, InFlight, Answered, Count;
    NoneInFlight(Run(lim, limit, steps).conns[k].value.control.drainers);
  }
}
