/** The main loop of the virtual steering wheel: every processed camera frame
    is classified into a command and handed to the session; pressing the
    quit key forces a final STOP before the loop ends. */
module Steering {

  import opened Wrappers
  import opened Commands
  import opened Gesture
  import opened Wire
  import opened CommandSession

  /** One processed frame: the pixel wrist of every detected hand (None when
      it falls outside the image), the clock at the send, and whether the
      transport accepts a write at that moment. */
  datatype Frame = Frame(hands: seq<Option<Point>>, now: real, transportOk: bool)

  /** How the loop ends: the capture is no longer open, which ends it with
      no final STOP, or the quit key is pressed, which sends STOP once more
      at time `now`. */
  datatype Ending = CaptureClosed | QuitKey(now: real, transportOk: bool)

  /** The command a frame produces, decided by how many detected hands have
      their wrist on screen: one backs up, two steer (see
      `FrameCommandPair`), any other number stops. */
  function FrameCommand(f: Frame): (c: Command)
    ensures c == Backward <==> OnScreen(f.hands) == 1
    ensures c == Stop <==> OnScreen(f.hands) != 1 && OnScreen(f.hands) != 2
  {
    Classify(ExtractWrists(f.hands))
  }

  /** With exactly two wrists on screen, at detection positions i < j, the
      frame steers by the lean of the rightmost of the two, whatever
      off-screen hands were detected around them. */
  lemma FrameCommandPair(f: Frame, i: nat, j: nat)
    requires i < j < |f.hands| && f.hands[i].Some? && f.hands[j].Some?
    requires OnScreen(f.hands) == 2
    ensures FrameCommand(f) == Leaning(f.hands[i].value, f.hands[j].value)
  {
    ExtractWristsPair(f.hands, i, j);
  }

  /** The send calls made by a whole session of frames. */
  function SessionCalls(frames: seq<Frame>, ending: Ending): (calls: seq<Call>)
    ensures |calls| == |frames| + (if ending.QuitKey? then 1 else 0)
    ensures forall i :: 0 <= i < |frames| ==>
      calls[i] == Call(FrameCommand(frames[i]), frames[i].now, frames[i].transportOk)
    ensures ending.QuitKey? ==> calls[|frames|] == Call(Stop, ending.now, ending.transportOk)
  {
    var perFrame := seq(|frames|, i requires 0 <= i < |frames| =>
                          Call(FrameCommand(frames[i]), frames[i].now, frames[i].transportOk));
    match ending
    case CaptureClosed => perFrame
    case QuitKey(now, ok) => perFrame + [Call(Stop, now, ok)]
  }

  /** The per-frame part of the loop: classify each frame and hand its
      command to the session. */
  method ProcessFrames(frames: seq<Frame>) returns (s: Session, wire: seq<byte>)
    ensures s == Run(Start(), SessionCalls(frames, CaptureClosed)).final
    ensures wire == Run(Start(), SessionCalls(frames, CaptureClosed)).wire
  {
    ghost var calls := SessionCalls(frames, CaptureClosed);
    s := Start();
    wire := [];
    var i := 0;
    while i < |frames|
      invariant 0 <= i <= |frames|
      invariant s == Run(Start(), calls[..i]).final
      invariant wire == Run(Start(), calls[..i]).wire
    {
      var cmd := FrameCommand(frames[i]);
      assert calls[i] == Call(cmd, frames[i].now, frames[i].transportOk);
      var r := Step(s, cmd, frames[i].now, frames[i].transportOk);
      RunExtend(Start(), calls, i);
      s, wire := r.next, wire + r.emitted;
      i := i + 1;
    }
    assert calls[..|frames|] == calls;
  }

  /** The whole loop: the frames, then, if the quit key ends it, one more
      STOP. Returns the final session and every byte written. */
  method Drive(frames: seq<Frame>, ending: Ending) returns (s: Session, wire: seq<byte>)
    ensures s == Run(Start(), SessionCalls(frames, ending)).final
    ensures wire == Run(Start(), SessionCalls(frames, ending)).wire
    ensures ending.QuitKey? && ending.transportOk ==>
      |wire| >= 2 && wire[|wire| - 2..] == Message(Stop)
  {
    s, wire := ProcessFrames(frames);
    ghost var head := SessionCalls(frames, CaptureClosed);
    if ending.QuitKey? {
      var r := Step(s, Stop, ending.now, ending.transportOk);
      s, wire := r.next, wire + r.emitted;
      QuitAppendsStop(frames, ending);
      if ending.transportOk {
        QuitLeavesStop(head, ending.now);
      }
    }
  }

  lemma QuitAppendsStop(frames: seq<Frame>, ending: Ending)
    requires ending.QuitKey?
    ensures SessionCalls(frames, ending)
      == SessionCalls(frames, CaptureClosed) + [Call(Stop, ending.now, ending.transportOk)]
  {
  }

  /** Quitting on a working transport leaves STOP as the last message the
      controller received: either it is sent now, or it is suppressed
      because STOP was the last command sent, at most a heartbeat ago. */
  lemma QuitLeavesStop(calls: seq<Call>, now: real)
    ensures var t := Run(Start(), calls + [Call(Stop, now, true)]);
      |t.wire| >= 2 && t.wire[|t.wire| - 2..] == Message(Stop)
  {
    var all := calls + [Call(Stop, now, true)];
    assert all[..|all| - 1] == calls;
    RunFromStartEndsWithLastCommand(all);
    var t := Run(Start(), all);
    assert t.final.lastCommand == Some(Stop);
  }

  /** End-to-end: one hand on screen sends "B\n", an empty frame sends
      "S\n", and two hands with the second one 100 pixels right and 80
      pixels lower send "L\n". Each is the first frame of a session on a
      working transport. */
  lemma EndToEndExamples(now: real)
    ensures var t := Run(Start(), SessionCalls([Frame([Some(Point(100, 100))], now, true)], CaptureClosed));
      t.wire == [0x42, 0x0A]
    ensures var t := Run(Start(), SessionCalls([Frame([], now, true)], CaptureClosed));
      t.wire == [0x53, 0x0A]
    ensures var t := Run(Start(), SessionCalls([Frame([Some(Point(100, 100)), Some(Point(200, 180))], now, true)], CaptureClosed));
      t.wire == [0x4C, 0x0A]
  {
    var one := [Some(Point(100, 100))];
    var two := [Some(Point(100, 100)), Some(Point(200, 180))];
    ExtractWristsAllPresent(one);
    ExtractWristsAllPresent(two);
    assert ExtractWrists(two) == [Point(100, 100), Point(200, 180)];
  }
}
