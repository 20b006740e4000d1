/** A run in which a connection is closed at the end of input before its last answer is sent. */
module EndOfInput {
  import opened Wrappers
  import opened Framing
  import opened Responses
  import opened ReactorBuffers
  import opened Reactor

  // ---------- One connection on its own ----------

  /** The actions of the only connection, which has the whole budget to itself. */
  function Play(lim: Limits, limit: nat, c: Conn, actions: seq<Action>): Conn
    decreases |actions|
  {
    if actions == [] then c
    else
      var before := Play(lim, limit, c, actions[..|actions| - 1]);
      Act(lim, before, actions[|actions| - 1], limit - Held(before.buffers)).conn
  }

  function Acted(lim: Limits, limit: nat, c: Conn, a: Action): Conn { Act(lim, c, a, limit - Held(c.buffers)).conn }

  lemma {:induction false} PlayConcat(lim: Limits, limit: nat, c: Conn, s: seq<Action>, t: seq<Action>)
    ensures Play(lim, limit, c, s + t) == Play(lim, limit, Play(lim, limit, c, s), t)
    decreases |t|
  {
    hide Act, Held;
    if t == [] {
      assert s + t == s;
    } else {
      var n := |t| - 1;
      assert (s + t)[..|s + t| - 1] == s + t[..n];
      PlayConcat(lim, limit, c, s, t[..n]);
    }
  }

  lemma PlayOne(lim: Limits, limit: nat, c: Conn, a: Action)
    ensures Play(lim, limit, c, [a]) == Acted(lim, limit, c, a)
  {
    assert [a][..0] == [];
    assert Play(lim, limit, c, [a][..0]) == c;
  }

  lemma PlayThree(lim: Limits, limit: nat, c: Conn, x: Action, y: Action, z: Action)
    ensures Play(lim, limit, c, [x, y, z]) == Acted(lim, limit, Acted(lim, limit, Acted(lim, limit, c, x), y), z)
  {
    hide Play, Acted;
    assert [x, y, z] == [x] + [y] + [z];
    PlayConcat(lim, limit, c, [x] + [y], [z]);
    PlayConcat(lim, limit, c, [x], [y]);
    PlayOne(lim, limit, c, x);
    PlayOne(lim, limit, Acted(lim, limit, c, x), y);
    PlayOne(lim, limit, Acted(lim, limit, Acted(lim, limit, c, x), y), z);
  }

  function OnFirst(actions: seq<Action>): seq<Step> { seq(|actions|, i requires 0 <= i < |actions| => On(0, actions[i])) }

  lemma OneStep(lim: Limits, limit: nat, c: Conn, a: Action)
    requires Inv(lim, c)
    ensures var c' := Acted(lim, limit, c, a);
      Next(lim, limit, World([Some(c)], Held(c.buffers)), On(0, a)) == World([Some(c')], Held(c'.buffers)) && Inv(lim, c')
  {
    hide Act, Inv, Held;
    ActKeeps(lim, c, a, limit - Held(c.buffers));
    assert [Some(c)][0 := Some(Acted(lim, limit, c, a))] == [Some(Acted(lim, limit, c, a))];
  }

  lemma Opened(lim: Limits, limit: nat)
    ensures Run(lim, limit, [Open]) == World([Some(NEW_CONN)], 0)
  {
    assert [Open][..0] == [] && Run(lim, limit, [Open][..0]) == NO_WORLD;
    assert NO_WORLD.conns + [Some(NEW_CONN)] == [Some(NEW_CONN)];
  }

  /** Its actions are a run of the whole. */
  lemma {:induction false} PlayIsRun(lim: Limits, limit: nat, actions: seq<Action>)
    ensures var c := Play(lim, limit, NEW_CONN, actions);
      Run(lim, limit, [Open] + OnFirst(actions)) == World([Some(c)], Held(c.buffers)) && Inv(lim, c)
    decreases |actions|
  {
    hide Act, Inv, Held, Next;
    var steps := [Open] + OnFirst(actions);
    if actions == [] {
      Opened(lim, limit);
      NewIsSound(lim);
      assert steps == [Open];
    } else {
      var n := |actions| - 1;
      assert steps[..|steps| - 1] == [Open] + OnFirst(actions[..n]) && steps[|steps| - 1] == On(0, actions[n]);
      PlayIsRun(lim, limit, actions[..n]);
      OneStep(lim, limit, Play(lim, limit, NEW_CONN, actions[..n]), actions[n]);
    }
  }

  // ---------- Nobody left ----------

  /** Nothing happens any more to a connection no one refers to. */
  lemma UnreferencedIsFinal(lim: Limits, c: Conn, a: Action, free: int)
    requires Unreferenced(c)
    ensures Act(lim, c, a, free) == Effect(c, 0, 0)
  {
  }

  // ---------- The run ----------

  lemma MoveOneLine(lim: Limits, x: char)
    requires lim.maxQuery >= 1 && lim.maxAccumulated >= 2 && x != '\n' && x != '\r'
    ensures Move(lim, [x, '\n'], 0, 0) == Moved([[x]], "", 1, false)
  {
    hide FindLf, FindCrLf;
    var s := [x, '\n'];
    assert s[1] == '\n' && s[0] == x;
    assert FindLf(s) == 1;
    assert FindCrLf(s) < 0 && s[..1] == [x] && s[2..] == "";
    assert NextEnd("") < 0;
  }

  lemma ShortAnswer()
    ensures Normalized("r") == "r\r\n"
  {
    PairedExpandsToItself("r");
  }

  lemma LineReceived(lim: Limits, limit: nat, c: Conn, x: char)
    requires c.control.reader == Reading(false) && !c.control.readEof && c.buffers == NO_BUFFERS && c.history.intact
    requires x != '\n' && x != '\r' && lim.maxQuery >= 1 && lim.maxAccumulated >= 2 && limit >= 2
    ensures Acted(lim, limit, c, Receive([x, '\n'])) ==
      Conn(NO_BUFFERS.(requests := [[x]], requestBytes := 1), c.control.(reader := Reading(true)),
           c.history.(chunks := c.history.chunks + [[x, '\n']], queued := c.history.queued + [[x]]))
  {
    hide Move, Total;
    assert "" + [x, '\n'] == [x, '\n'] && [] + [[x]] == [[x]];
    MoveOneLine(lim, x);
    One([x]);
  }

  /** A request read, scheduled, and taken by drainer `i`, the last one submitted. */
  function Round(x: char, eof: bool, i: nat): seq<Action> {
    [StartReading, Receive([x, '\n']), StopReading(eof)]
      + ([ReaderStep(true), ReaderStep(true), DrainerStep(i, "")] + [ReaderStep(true), ReaderStep(true), ReaderStep(true)])
  }

  lemma RequestRead(lim: Limits, limit: nat, c: Conn, x: char, eof: bool)
    requires c.buffers == NO_BUFFERS && c.history.intact
    requires c.control == Control(false, false, false, true, Resting, c.control.drainers, false)
    requires x != '\n' && x != '\r' && lim.maxQuery >= 1 && lim.maxAccumulated >= 2 && limit >= 2
    ensures Play(lim, limit, c, [StartReading, Receive([x, '\n']), StopReading(eof)]) ==
      Conn(NO_BUFFERS.(requests := [[x]], requestBytes := 1), c.control.(reader := Scheduling(true), readEof := eof),
           c.history.(chunks := c.history.chunks + [[x, '\n']], queued := c.history.queued + [[x]]))
  {
    hide Play, Move;
    PlayThree(lim, limit, c, StartReading, Receive([x, '\n']), StopReading(eof));
    LineReceived(lim, limit, Acted(lim, limit, c, StartReading), x);
  }

  lemma RequestTaken(lim: Limits, limit: nat, c: Conn, x: char)
    requires c.buffers == NO_BUFFERS.(requests := [[x]], requestBytes := 1) && c.control.reader == Scheduling(true) && !c.control.drainScheduled
    ensures var i := |c.control.drainers|;
      Play(lim, limit, c, [ReaderStep(true), ReaderStep(true), DrainerStep(i, "")]) ==
        Conn(NO_BUFFERS, c.control.(drainScheduled := true, reader := AtEof, drainers := c.control.drainers + [Processing([x])]),
             c.history.(taken := c.history.taken + [[x]]))
  {
    hide Play;
    var ds := c.control.drainers;
    PlayThree(lim, limit, c, ReaderStep(true), ReaderStep(true), DrainerStep(|ds|, ""));
    assert (ds + [Taking])[|ds|] == Taking && (ds + [Taking])[|ds| := Processing([x])] == ds + [Processing([x])];
  }

  lemma ReaderRests(lim: Limits, limit: nat, c: Conn)
    requires c.buffers == NO_BUFFERS && c.control.reader.AtEof? && c.control.drainScheduled
    ensures Play(lim, limit, c, [ReaderStep(true), ReaderStep(true), ReaderStep(true)]) == c.(control := c.control.(reader := Resting))
  {
    hide Play, Enqueue;
    PlayThree(lim, limit, c, ReaderStep(true), ReaderStep(true), ReaderStep(true));
    var c0 := Acted(lim, limit, c, ReaderStep(true));
    assert c0 == c.(control := c.control.(reader := if c.control.readEof then AtEofIdle else Polled));
    var c1 := Acted(lim, limit, c0, ReaderStep(true));
    assert c1 == c.(control := c.control.(reader := if c.control.readEof then Polled else Resting));
  }

  lemma RoundTaken(lim: Limits, limit: nat, c: Conn, x: char, eof: bool)
    requires c.buffers == NO_BUFFERS && c.history.intact
    requires c.control == Control(false, false, false, true, Resting, c.control.drainers, false)
    requires x != '\n' && x != '\r' && lim.maxQuery >= 1 && lim.maxAccumulated >= 2 && limit >= 2
    ensures Play(lim, limit, c, Round(x, eof, |c.control.drainers|)) ==
      Conn(NO_BUFFERS, Control(eof, true, false, true, Resting, c.control.drainers + [Processing([x])], false),
           c.history.(chunks := c.history.chunks + [[x, '\n']], queued := c.history.queued + [[x]], taken := c.history.taken + [[x]]))
  {
    hide Play, Acted;
    var read: seq<Action> := [StartReading, Receive([x, '\n']), StopReading(eof)];
    var take: seq<Action> := [ReaderStep(true), ReaderStep(true), DrainerStep(|c.control.drainers|, "")];
    var rest: seq<Action> := [ReaderStep(true), ReaderStep(true), ReaderStep(true)];
    PlayConcat(lim, limit, c, read, take + rest);
    RequestRead(lim, limit, c, x, eof);
    var c0 := Play(lim, limit, c, read);
    PlayConcat(lim, limit, c0, take, rest);
    RequestTaken(lim, limit, c0, x);
    ReaderRests(lim, limit, Play(lim, limit, c0, take));
  }

  lemma AnswerQueued(lim: Limits, limit: nat, c: Conn, i: nat)
    requires c.buffers == NO_BUFFERS && i < |c.control.drainers| && c.control.drainers[i].Processing? && limit >= 3
    ensures Acted(lim, limit, c, DrainerStep(i, "r")) ==
      Conn(NO_BUFFERS.(responses := ["r\r\n"], responseBytes := 3), c.control.(drainers := c.control.drainers[i := Taking]),
           c.history.(entries := c.history.entries + [Answer(c.control.drainers[i].request, "r")]))
  {
    hide Normalized;
    ShortAnswer();
    assert [] + ["r\r\n"] == ["r\r\n"];
  }

  lemma AnswerSent(lim: Limits, limit: nat, c: Conn)
    requires c.buffers == NO_BUFFERS.(responses := ["r\r\n"], responseBytes := 3) && c.control.reader.Writing?
    ensures Acted(lim, limit, c, Send(3)) == Conn(NO_BUFFERS, c.control, c.history.(sent := c.history.sent + "r\r\n"))
  {
    assert "r\r\n"[0..3] == "r\r\n";
  }

  /** An answered request; the answer is sent and the drainer, finding no other, leaves its loop. */
  function Reply(i: nat): seq<Action> {
    [DrainerStep(i, "r"), StartWriting, Send(3)] + [ReaderStep(true), ReaderStep(true), DrainerStep(i, "")]
  }

  lemma AnsweredAndLeft(lim: Limits, limit: nat, c: Conn, i: nat)
    requires c.buffers == NO_BUFFERS && i < |c.control.drainers| && c.control.drainers[i].Processing? && limit >= 3
    requires c.control.registered && c.control.reader.Resting? && !c.control.closing
    ensures Play(lim, limit, c, Reply(i)) ==
      Conn(NO_BUFFERS, c.control.(drainScheduled := false, drainers := c.control.drainers[i := Leaving]),
           c.history.(entries := c.history.entries + [Answer(c.control.drainers[i].request, "r")], sent := c.history.sent + "r\r\n"))
  {
    hide Play, Acted;
    var first: seq<Action> := [DrainerStep(i, "r"), StartWriting, Send(3)];
    var after: seq<Action> := [ReaderStep(true), ReaderStep(true), DrainerStep(i, "")];
    PlayConcat(lim, limit, c, first, after);
    PlayThree(lim, limit, c, DrainerStep(i, "r"), StartWriting, Send(3));
    AnswerQueued(lim, limit, c, i);
    var c0 := Acted(lim, limit, c, DrainerStep(i, "r"));
    WritingStarts(lim, limit, c0);
    AnswerSent(lim, limit, Acted(lim, limit, c0, StartWriting));
    var c1 := Play(lim, limit, c, first);
    PlayThree(lim, limit, c1, ReaderStep(true), ReaderStep(true), DrainerStep(i, ""));
    WritingStops(lim, limit, c1, i);
    assert c.control.drainers[i := Taking][i := Leaving] == c.control.drainers[i := Leaving];
  }

  lemma WritingStarts(lim: Limits, limit: nat, c: Conn)
    requires c.control.registered && c.control.reader.Resting?
    ensures Acted(lim, limit, c, StartWriting) == c.(control := c.control.(reader := Writing))
  {
  }

  lemma WritingStops(lim: Limits, limit: nat, c: Conn, i: nat)
    requires c.buffers == NO_BUFFERS && c.control.reader.Writing? && !c.control.closing
    requires i < |c.control.drainers| && c.control.drainers[i].Taking?
    ensures Acted(lim, limit, Acted(lim, limit, Acted(lim, limit, c, ReaderStep(true)), ReaderStep(true)), DrainerStep(i, "")) ==
      c.(control := c.control.(reader := Resting, drainScheduled := false, drainers := c.control.drainers[i := Leaving]))
  {
    hide Enqueue;
    var c0 := Acted(lim, limit, c, ReaderStep(true));
    assert c0 == c.(control := c.control.(reader := Emptied));
    var c1 := Acted(lim, limit, c0, ReaderStep(true));
    assert c1 == c.(control := c.control.(reader := Resting));
  }

  /** A drainer past its loop, at the end of input, with nothing queued either way: it closes the connection. */
  lemma LateLeave(lim: Limits, limit: nat, c: Conn, i: nat)
    requires c.buffers == NO_BUFFERS && c.control.readEof && i < |c.control.drainers| && c.control.drainers[i].Leaving?
    ensures Play(lim, limit, c, [DrainerStep(i, ""), DrainerStep(i, ""), DrainerStep(i, "")]) ==
      c.(control := c.control.(closing := true, registered := false, drainers := c.control.drainers[i := Gone]))
  {
    hide Play;
    PlayThree(lim, limit, c, DrainerStep(i, ""), DrainerStep(i, ""), DrainerStep(i, ""));
    var ds := c.control.drainers;
    assert ds[i := LeavingClosing][i := LeavingSilent][i := Gone] == ds[i := Gone];
  }

  /** The other drainer answers into a connection that is gone, and leaves. */
  function LateReply(i: nat): seq<Action> {
    [DrainerStep(i, "r"), DrainerStep(i, ""), DrainerStep(i, "")] + [DrainerStep(i, ""), DrainerStep(i, ""), DrainerStep(i, "")]
  }

  lemma AnsweredTooLate(lim: Limits, limit: nat, c: Conn, i: nat)
    requires c.buffers == NO_BUFFERS && i < |c.control.drainers| && c.control.drainers[i].Processing? && limit >= 3
    requires !c.control.registered && c.control.readEof && c.control.closing
    ensures Play(lim, limit, c, LateReply(i)) ==
      Conn(NO_BUFFERS.(responses := ["r\r\n"], responseBytes := 3),
           c.control.(drainScheduled := false, drainers := c.control.drainers[i := Gone]),
           c.history.(entries := c.history.entries + [Answer(c.control.drainers[i].request, "r")]))
  {
    hide Play, Acted;
    var first: seq<Action> := [DrainerStep(i, "r"), DrainerStep(i, ""), DrainerStep(i, "")];
    var after: seq<Action> := [DrainerStep(i, ""), DrainerStep(i, ""), DrainerStep(i, "")];
    PlayConcat(lim, limit, c, first, after);
    PlayThree(lim, limit, c, DrainerStep(i, "r"), DrainerStep(i, ""), DrainerStep(i, ""));
    AnswerQueued(lim, limit, c, i);
    var c0 := Acted(lim, limit, c, DrainerStep(i, "r"));
    LeavesAfter(lim, limit, c0, i);
    var c1 := Play(lim, limit, c, first);
    PlayThree(lim, limit, c1, DrainerStep(i, ""), DrainerStep(i, ""), DrainerStep(i, ""));
    EndsAfter(lim, limit, c1, i);
    var ds := c.control.drainers;
    assert ds[i := Taking][i := LeavingClosing] == ds[i := LeavingClosing] && ds[i := LeavingClosing][i := Gone] == ds[i := Gone];
  }

  lemma LeavesAfter(lim: Limits, limit: nat, c: Conn, i: nat)
    requires c.buffers.requests == [] && c.control.readEof && i < |c.control.drainers| && c.control.drainers[i].Taking?
    ensures Acted(lim, limit, Acted(lim, limit, c, DrainerStep(i, "")), DrainerStep(i, "")) ==
      c.(control := c.control.(drainScheduled := false, drainers := c.control.drainers[i := LeavingClosing]))
  {
    assert c.control.drainers[i := Leaving][i := LeavingClosing] == c.control.drainers[i := LeavingClosing];
  }

  lemma EndsAfter(lim: Limits, limit: nat, c: Conn, i: nat)
    requires !c.control.registered && c.control.closing && i < |c.control.drainers| && c.control.drainers[i].LeavingClosing?
    ensures Acted(lim, limit, Acted(lim, limit, Acted(lim, limit, c, DrainerStep(i, "")), DrainerStep(i, "")), DrainerStep(i, "")) ==
      c.(control := c.control.(drainers := c.control.drainers[i := Gone]))
  {
    var ds := c.control.drainers;
    assert ds[i := LeavingSilent][i := Gone] == ds[i := Gone] && ds[i := Gone][i := Gone] == ds[i := Gone];
  }

  function Scenario(): seq<Action> {
    Round('a', false, 0) + Reply(0) + Round('b', true, 1) + [DrainerStep(0, ""), DrainerStep(0, ""), DrainerStep(0, "")] + LateReply(1)
  }

  /**
   Order is kept, but not every answer is sent: a drainer that left its loop before the last request arrived takes
   the connection for finished while another still processes that request.  The answer is queued, nothing can happen
   to the connection any more, and it is destroyed with the answer unsent.
   */
  lemma LateDrainerLosesAnswer(lim: Limits, limit: nat)
    requires lim.maxQuery >= 1 && lim.maxAccumulated >= 2 && limit >= 3
    ensures var c := Play(lim, limit, NEW_CONN, Scenario());
      && Run(lim, limit, [Open] + OnFirst(Scenario())) == World([Some(c)], 3)
      && c.history.intact && !c.control.abandoned && c.history.queued == ["a", "b"]
      && Answered(c.history.entries) == ["a", "b"] && Written(c.history.entries) == "r\r\nr\r\n" && c.history.sent == "r\r\n"
      && Unreferenced(c) && (forall a, free :: Act(lim, c, a, free) == Effect(c, 0, 0))
      && Next(lim, limit, World([Some(c)], 3), Destroy(0)) == World([None], 0)
  {
    hide Play, Act, Acted, Round, Reply, LateReply, Answered, Written, Normalized;
    var leave: seq<Action> := [DrainerStep(0, ""), DrainerStep(0, ""), DrainerStep(0, "")];
    var one, two, three := Round('a', false, 0), Reply(0), Round('b', true, 1);
    PlayConcat(lim, limit, NEW_CONN, one + two + three + leave, LateReply(1));
    PlayConcat(lim, limit, NEW_CONN, one + two + three, leave);
    PlayConcat(lim, limit, NEW_CONN, one + two, three);
    PlayConcat(lim, limit, NEW_CONN, one, two);
    RoundTaken(lim, limit, NEW_CONN, 'a', false);
    var c1 := Play(lim, limit, NEW_CONN, one);
    assert c1.control.drainers == [Processing("a")];
    AnsweredAndLeft(lim, limit, c1, 0);
    var c2 := Play(lim, limit, c1, two);
    assert c2.control.drainers == [Leaving];
    RoundTaken(lim, limit, c2, 'b', true);
    var c3 := Play(lim, limit, c2, three);
    assert c3.control.drainers == [Leaving, Processing("b")];
    LateLeave(lim, limit, c3, 0);
    var c4 := Play(lim, limit, c3, leave);
    assert c4.control.drainers == [Gone, Processing("b")];
    AnsweredTooLate(lim, limit, c4, 1);
    var c := Play(lim, limit, c4, LateReply(1));
    assert c.control.drainers == [Gone, Gone];
    PlayIsRun(lim, limit, Scenario());
    forall a, free ensures Act(lim, c, a, free) == Effect(c, 0, 0) { UnreferencedIsFinal(lim, c, a, free); }
    TwoAnswers(c.history.entries);
    assert [Some(c)][0 := None] == [None];
  }

  lemma TwoAnswers(entries: seq<Entry>)
    requires entries == [Answer("a", "r"), Answer("b", "r")]
    ensures Answered(entries) == ["a", "b"] && Written(entries) == "r\r\nr\r\n"
  {
    hide Normalized;
    ShortAnswer();
    EntryMore([], Answer("a", "r"));
    EntryMore([Answer("a", "r")], Answer("b", "r"));
    assert [] + [Answer("a", "r")] == [Answer("a", "r")] && [Answer("a", "r")] + [Answer("b", "r")] == entries;
    assert "" + "r\r\n" == "r\r\n" && [] + ["a"] == ["a"] && ["a"] + ["b"] == ["a", "b"];
    assert Answered([]) == [] && Written([]) == "";
  }
}
