/** The command-delivery session: one connection to the rover controller,
    the last command it transmitted and when, and the send-suppression
    policy that forwards every change at once and repeats an unchanged
    command only as a heartbeat.

    Time is exact seconds (`real`), standing for the wall clock read at each
    call. The transport is abstract: each call is told whether the write
    would succeed, and a reconnect is one atomic transition to a freshly
    connected handle (the blocking retry loop behind it returns only once
    connected). */
module CommandSession {

  import opened Wrappers
  import opened Commands
  import opened Wire

  /** An unchanged command is repeated only once strictly more than this
      many seconds have passed since it was last transmitted. */
  const Heartbeat: real := 0.5

  /** A connected transport. Every reconnect yields a new generation. */
  datatype Handle = Handle(generation: nat)

  datatype Session = Session(lastCommand: Option<Command>, lastSendTime: real, conn: Handle)

  /** The session right after the first blocking connect at start-up: no
      command sent yet, last send time zero. */
  function Start(): (s: Session)
    ensures s.lastCommand.None? && s.lastSendTime == 0.0
  {
    Session(None, 0.0, Handle(0))
  }

  /** Whether the policy attempts a transmission: the command differs from
      the last one transmitted, or the heartbeat interval has expired. */
  function Due(s: Session, cmd: Command, now: real): (due: bool)
    ensures s.lastCommand.None? ==> due
    ensures s.lastCommand.Some? && s.lastCommand.value != cmd ==> due
    ensures !due <==> s.lastCommand == Some(cmd) && now <= s.lastSendTime + Heartbeat
  {
    s.lastCommand != Some(cmd) || now - s.lastSendTime > Heartbeat
  }

  datatype Action = Suppressed | Transmitted | Reconnected

  /** The new session, the bytes that reached the wire, and which of the
      three things the call did. */
  datatype StepResult = StepResult(next: Session, emitted: seq<byte>, action: Action)

  /** One call of the send routine with command `cmd` at time `now`, the
      transport accepting the write iff `transportOk`. */
  function Step(s: Session, cmd: Command, now: real, transportOk: bool): (r: StepResult)
    ensures r.action == Suppressed <==> s.lastCommand == Some(cmd) && now - s.lastSendTime <= Heartbeat
    ensures r.action == Transmitted <==> Due(s, cmd, now) && transportOk
    ensures r.action == Reconnected <==> Due(s, cmd, now) && !transportOk
    ensures r.emitted == (if r.action == Transmitted then Message(cmd) else [])
    ensures r.action == Suppressed ==> r.next == s
    ensures r.action == Transmitted ==>
      r.next == Session(Some(cmd), now, s.conn)
    ensures r.action == Reconnected ==>
      && r.next.lastCommand == s.lastCommand
      && r.next.lastSendTime == s.lastSendTime
      && r.next.conn.generation == s.conn.generation + 1
  {
    if Due(s, cmd, now) then
      if transportOk then
        StepResult(s.(lastCommand := Some(cmd), lastSendTime := now), Message(cmd), Transmitted)
      else
        // best-effort close, then a blocking connect that returns only once connected
        StepResult(s.(conn := Handle(s.conn.generation + 1)), [], Reconnected)
    else
      StepResult(s, [], Suppressed)
  }

  /** The very first call always transmits (or reconnects), whatever the
      command and the time, because nothing has been sent yet. */
  lemma FirstCallIsNeverSuppressed(cmd: Command, now: real, transportOk: bool)
    ensures Step(Start(), cmd, now, transportOk).action != Suppressed
  {
  }

  /** The heartbeat comparison is strict: exactly half a second after the
      last transmission an unchanged command is still suppressed, and a
      changed command is attempted no matter how little time has passed. */
  lemma HeartbeatIsStrict(s: Session, cmd: Command, other: Command)
    requires s.lastCommand == Some(cmd) && other != cmd
    ensures Step(s, cmd, s.lastSendTime + Heartbeat, true).action == Suppressed
    ensures Step(s, other, s.lastSendTime, true).action == Transmitted
  {
  }

  /** After a failed write the command is retried by the next call with the
      same command: the failure did not record it as sent, so it is not
      suppressed, and on a working transport it is then transmitted. */
  lemma RetryAfterFailure(s: Session, cmd: Command, now: real, later: real, transportOk: bool)
    requires Step(s, cmd, now, false).action == Reconnected
    requires now <= later
    ensures var r := Step(Step(s, cmd, now, false).next, cmd, later, transportOk);
      r.action != Suppressed
      && (transportOk ==> r.next.lastCommand == Some(cmd) && r.emitted == Message(cmd))
  {
  }

  // ---------------------------------------------------------------------
  // Runs of calls
  // ---------------------------------------------------------------------

  datatype Call = Call(cmd: Command, now: real, transportOk: bool)

  /** A successful transmission: which command, and when. */
  datatype Sent = Sent(cmd: Command, at: real)

  /** The outcome of a run of calls: the final session, every byte written,
      the successful transmissions in order, and how many reconnects. */
  datatype Trace = Trace(final: Session, wire: seq<byte>, sent: seq<Sent>, reconnects: nat)

  function SentCommands(sent: seq<Sent>): (cmds: seq<Command>)
    ensures |cmds| == |sent|
    ensures forall i :: 0 <= i < |sent| ==> cmds[i] == sent[i].cmd
  {
    seq(|sent|, i requires 0 <= i < |sent| => sent[i].cmd)
  }

  /** The calls applied one after the other, starting from `s0`. */
  function Run(s0: Session, calls: seq<Call>): (t: Trace)
    ensures |t.sent| + t.reconnects <= |calls|
    ensures t.final.conn.generation == s0.conn.generation + t.reconnects
    decreases |calls|
  {
    if |calls| == 0 then Trace(s0, [], [], 0)
    else
      var t := Run(s0, calls[..|calls| - 1]);
      var c := calls[|calls| - 1];
      var r := Step(t.final, c.cmd, c.now, c.transportOk);
      Trace(r.next,
            t.wire + r.emitted,
            t.sent + (if r.action == Transmitted then [Sent(c.cmd, c.now)] else []),
            t.reconnects + (if r.action == Reconnected then 1 else 0))
  }

  /** Extending a run by one call is one more `Step` from where the run
      stood. */
  lemma RunExtend(s0: Session, calls: seq<Call>, i: nat)
    requires i < |calls|
    ensures var t := Run(s0, calls[..i]);
      var r := Step(t.final, calls[i].cmd, calls[i].now, calls[i].transportOk);
      Run(s0, calls[..i + 1]).final == r.next
      && Run(s0, calls[..i + 1]).wire == t.wire + r.emitted
  {
    assert calls[..i + 1][..i] == calls[..i];
  }

  /** The session remembers the last successful transmission of the run, or
      what it started with when the run transmitted nothing. */
  lemma {:induction false} RunRemembersLastSent(s0: Session, calls: seq<Call>)
    ensures var t := Run(s0, calls);
      if |t.sent| == 0 then
        t.final.lastCommand == s0.lastCommand && t.final.lastSendTime == s0.lastSendTime
      else
        t.final.lastCommand == Some(t.sent[|t.sent| - 1].cmd)
        && t.final.lastSendTime == t.sent[|t.sent| - 1].at
    decreases |calls|
  {
    if |calls| > 0 {
      RunRemembersLastSent(s0, calls[..|calls| - 1]);
    }
  }

  /** The bytes on the wire are exactly the messages of the successful
      transmissions, in order; nothing is written by suppressed or failed
      calls. */
  lemma {:induction false} RunWireIsFrames(s0: Session, calls: seq<Call>)
    ensures var t := Run(s0, calls); t.wire == Frames(SentCommands(t.sent))
    decreases |calls|
  {
    if |calls| > 0 {
      var init := calls[..|calls| - 1];
      var t0 := Run(s0, init);
      var t := Run(s0, calls);
      RunWireIsFrames(s0, init);
      var c := calls[|calls| - 1];
      var r := Step(t0.final, c.cmd, c.now, c.transportOk);
      if r.action == Transmitted {
        assert SentCommands(t.sent) == SentCommands(t0.sent) + [c.cmd];
        FramesAppend(SentCommands(t0.sent), [c.cmd]);
        assert Frames([c.cmd]) == Message(c.cmd) + Frames([]);
      } else {
        assert t.sent == t0.sent;
      }
    }
  }

  /** Heartbeat spacing: two consecutive successful transmissions of the
      same command are more than half a second apart, and so is the first
      one from the start state's last send if it repeats that command. */
  predicate Spaced(s0: Session, sent: seq<Sent>)
  {
    && (|sent| > 0 && s0.lastCommand == Some(sent[0].cmd) ==>
          sent[0].at - s0.lastSendTime > Heartbeat)
    && (forall i | 0 < i < |sent| ::
          sent[i].cmd == sent[i - 1].cmd ==> sent[i].at - sent[i - 1].at > Heartbeat)
  }

  /** The last call of a run adds at most its own transmission to the log. */
  lemma RunSentExtend(s0: Session, calls: seq<Call>)
    requires |calls| > 0
    ensures var t0 := Run(s0, calls[..|calls| - 1]);
      var c := calls[|calls| - 1];
      Run(s0, calls).sent == t0.sent +
        (if Step(t0.final, c.cmd, c.now, c.transportOk).action == Transmitted
         then [Sent(c.cmd, c.now)] else [])
  {
  }

  /** Appending a transmission keeps the log spaced when the session the
      transmission started from remembered the log's last entry (or the
      start state, for an empty log) and the heartbeat test let it through. */
  lemma SpacedSnoc(s0: Session, sent: seq<Sent>, x: Sent, last: Option<Command>, lastTime: real)
    requires Spaced(s0, sent)
    requires |sent| == 0 ==> last == s0.lastCommand && lastTime == s0.lastSendTime
    requires |sent| > 0 ==>
      last == Some(sent[|sent| - 1].cmd) && lastTime == sent[|sent| - 1].at
    requires last == Some(x.cmd) ==> x.at - lastTime > Heartbeat
    ensures Spaced(s0, sent + [x])
  {
    var all := sent + [x];
    forall i | 0 < i < |all| && all[i].cmd == all[i - 1].cmd
      ensures all[i].at - all[i - 1].at > Heartbeat
    {
      if i < |sent| {
        assert all[i] == sent[i] && all[i - 1] == sent[i - 1];
      }
    }
  }

  lemma {:induction false} RunIsSpaced(s0: Session, calls: seq<Call>)
    ensures Spaced(s0, Run(s0, calls).sent)
    decreases |calls|
  {
    if |calls| > 0 {
      var init := calls[..|calls| - 1];
      var c := calls[|calls| - 1];
      var t0 := Run(s0, init);
      RunIsSpaced(s0, init);
      RunRemembersLastSent(s0, init);
      RunSentExtend(s0, calls);
      if Step(t0.final, c.cmd, c.now, c.transportOk).action == Transmitted {
        SpacedSnoc(s0, t0.sent, Sent(c.cmd, c.now), t0.final.lastCommand, t0.final.lastSendTime);
      }
    }
  }

  /** From start-up, the wire is empty until the first transmission, and
      afterwards always ends with the message of the command the session
      remembers as last sent. */
  lemma RunFromStartEndsWithLastCommand(calls: seq<Call>)
    ensures var t := Run(Start(), calls);
      && (t.final.lastCommand.None? <==> t.wire == [])
      && (t.final.lastCommand.Some? ==>
            |t.wire| >= 2 && t.wire[|t.wire| - 2..] == Message(t.final.lastCommand.value))
  {
    var t := Run(Start(), calls);
    RunRemembersLastSent(Start(), calls);
    RunWireIsFrames(Start(), calls);
    if |t.sent| > 0 {
      FramesLast(SentCommands(t.sent));
    }
  }

  /** Every byte the session ever writes belongs to a well-formed message:
      the controller parses the whole stream back into the transmitted
      commands, each one of S, F, B, L, R followed by a line feed. */
  lemma RunWireParses(s0: Session, calls: seq<Call>)
    ensures var t := Run(s0, calls); ParseStream(t.wire) == Some(SentCommands(t.sent))
  {
    RunWireIsFrames(s0, calls);
    ParseFrames(SentCommands(Run(s0, calls).sent));
  }
}
