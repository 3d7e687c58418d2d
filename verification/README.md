# Virtual steering wheel: gesture classifier and command session

A Dafny model of the core of a hand-gesture teleoperation script for a
rover. A camera loop takes the wrist landmark of each detected hand,
projected to pixel coordinates, turns the wrist pixel points of one frame into one of five motion commands (STOP, FORWARD,
BACKWARD, LEFT, RIGHT), and sends the command's one-letter symbol plus a
line feed to an ESP32 controller over TCP. The send routine forwards every
change of command at once and repeats an unchanged command only as a
heartbeat, more than half a second after the last transmission; a failed
write closes the socket and reconnects, leaving the failed command to be
retried by the next frame.

Modules:

- `Wrappers` (`wrappers.dfy`): `Option`.
- `Commands` (`commands.dfy`): the five commands, their wire symbols, and
  the left/right swap used for mirroring.
- `Gesture` (`gesture.dfy`): wrist extraction, the classifier, and the
  feedback arrow geometry.
- `Wire` (`wire.dfy`): bytes, the two-byte message, and a parser for the
  byte stream as the controller would read it.
- `CommandSession` (`session.dfy`): the session record (`last_command`,
  `last_send_time`, connection handle), one send call as a pure `Step`, and
  runs of calls.
- `Steering` (`steering.dfy`): the main loop over frames and its two
  endings.

Time is exact seconds (`real`) given to each call in place of the wall
clock. The transport is an input: each call is told whether the write
succeeds. A reconnect is one atomic transition to a new handle generation;
the connect routine's retry loop returns only once connected, so it is
not modelled step by step.

Behaviour of the code worth noting:

- Two hands at (100,100) then (200,180) give LEFT: the second point is to
  the right and 80 pixels lower, so the rule at virtual_Steering.py:115
  fires. `Gesture.ClassifyExamples` and `Steering.EndToEndExamples` state
  this.
- The heartbeat test is strict (`> 0.5`). Exactly half a second after the
  last transmission, an unchanged command is still suppressed
  (`CommandSession.HeartbeatIsStrict`).
- The final STOP is sent only when the quit key ends the loop
  (virtual_Steering.py:152-154). When the capture is no longer open
  (line 67) the loop ends without the final STOP. A camera that stays open
  but delivers no frames hits the `continue` at lines 68-70 on every pass,
  so the loop spins with no further sends: no heartbeat and no STOP.
  `Steering.Ending` has both endings (`CaptureClosed` and `QuitKey`), and
  `Steering.QuitLeavesStop` holds only for `QuitKey` on a working
  transport.
- Frames with three or more wrist points fall to the final `else` and give
  STOP.

## Model

| member | source | states |
|---|---|---|
| `Gesture.ExtractWrists` | virtual_Steering.py:97-100 | One point per on-screen hand, as many as `OnScreen` counts. A point is kept iff some hand had it on screen. All hands are kept iff none was off-frame. |
| `Gesture.ExtractWristsAppend` | virtual_Steering.py:97-100 | Extraction goes hand by hand in detection order: the points of a concatenation are the concatenated points of the parts. |
| `Gesture.ExtractWristsPair` | virtual_Steering.py:97-100 | With exactly two wrists on screen, at detection positions i < j, the points are those two wrists in detection order, whatever off-screen hands surround them. |
| `Gesture.ExtractWristsAllPresent` | virtual_Steering.py:97-98 | When every hand is on screen, point i is hand i's wrist. |
| `Gesture.ClassifyPair` | virtual_Steering.py:110-133 | The four ordered rules equal the reference `Leaning`, which looks only at the strictly rightmost point. LEFT iff that point is lower by more than 65. RIGHT iff it is higher by more than 65. FORWARD iff the x coordinates are equal or the vertical gap is at most 65. |
| `Gesture.Classify` | virtual_Steering.py:102-143 | BACKWARD iff exactly one point. STOP iff the count is neither 1 nor 2 (0 and 3 or more). With two points, the lean of the rightmost point decides. |
| `Gesture.ClassifyOrderIndependent` | virtual_Steering.py:110-128 | Swapping the two points never changes the command. |
| `Gesture.ClassifyPermutationInvariant` | virtual_Steering.py:102-143 | Any two point lists with the same multiset get the same command, so detection order never matters. |
| `Gesture.MirrorSwapsTurns` | virtual_Steering.py:110-133 | Reflecting every x about any vertical line (negation included) swaps LEFT and RIGHT and keeps FORWARD, BACKWARD and STOP. |
| `Gesture.SameColumnIsForward` | virtual_Steering.py:110-131 | Two points in the same column give FORWARD whatever their vertical distance. |
| `Gesture.DeadbandBoundary` | virtual_Steering.py:115-131 | With the second point to the right, a vertical gap of exactly 65 is FORWARD. A gap of 66 is LEFT when that point is lower and RIGHT when it is higher. |
| `Gesture.ClassifyExamples` | virtual_Steering.py:105-142 | One point gives BACKWARD. No points give STOP. Three points give STOP. (100,100),(200,180) gives LEFT. |
| `Gesture.Midpoint` | virtual_Steering.py:106 | Python `int((a+b)/2)` truncation: the result lies between a and b, within one half of the true midpoint, and is rounded toward zero. |
| `Gesture.Render` | virtual_Steering.py:105-143 | There is an arrow iff the command is not STOP. The arrow is 100 pixels long and points left for LEFT, right for RIGHT, up for FORWARD, and down from the single wrist for BACKWARD. With two hands it starts at the wheel centre. |
| `Gesture.ArrowStartsBetweenWrists` | virtual_Steering.py:106-108 | The two-hand arrow starts inside the bounding box of the two wrists. |
| `Commands.Symbol` | virtual_Steering.py:102-142 | Every command travels as one of the five letters S, F, B, L, R used by the classifier. |
| `Commands.SymbolRoundTrip` | virtual_Steering.py:111-142 | Reading back a command's wire symbol gives the command, so the five symbols are distinct. |
| `Commands.Opposite` | virtual_Steering.py:110-128 | The mirror map swaps LEFT and RIGHT and fixes every other command. |
| `Wire.Encode` | virtual_Steering.py:50 | ASCII `encode()`: one byte per character, equal to the character code. |
| `Wire.Message` | virtual_Steering.py:50 | The message is two bytes: the symbol's code, then 0x0A. The parser reads it back as the same command. |
| `Wire.Frames` | virtual_Steering.py:50 | Successive writes put two bytes per transmitted command on the stream. |
| `Wire.FramesAt` | virtual_Steering.py:50 | In the stream of successive writes, command i's symbol sits at offset 2i and a line feed at offset 2i+1. |
| `Wire.ParseMessageOnlyMessages` | virtual_Steering.py:50 | A two-byte message parses as command c iff it is c's message. |
| `Wire.ParseFrames` | virtual_Steering.py:50 | The controller splits a stream of messages back into exactly the sent commands, in order. |
| `CommandSession.Start` | virtual_Steering.py:40-41 | After the start-up connect no command has been sent and the last send time is zero. |
| `CommandSession.Due` | virtual_Steering.py:48 | A send is attempted whenever nothing was sent yet or the command changed. It is withheld iff the command is unchanged and at most 0.5 s have passed. |
| `CommandSession.Step` | virtual_Steering.py:43-60 | The call is suppressed iff the command equals the last one sent and at most 0.5 s have passed; a suppressed call changes nothing. Otherwise, with a working transport, it writes exactly cmd + "\n" and records cmd and now. With a failing transport it writes nothing, keeps both fields, and moves to a new connection. |
| `CommandSession.FirstCallIsNeverSuppressed` | virtual_Steering.py:40-48 | Nothing has been sent at start-up, so the first call always attempts a send. |
| `CommandSession.HeartbeatIsStrict` | virtual_Steering.py:48 | Exactly 0.5 s later, an unchanged command is suppressed. A changed command is sent with no delay. |
| `CommandSession.RetryAfterFailure` | virtual_Steering.py:48-60 | After a failed write, a later call with the same command is not suppressed, and on a working transport it transmits and records the command. |
| `CommandSession.Run` | virtual_Steering.py:43-60 | Over a run of calls, transmissions plus reconnects never exceed the calls. The connection generation grows by exactly one per failed write. |
| `CommandSession.RunRemembersLastSent` | virtual_Steering.py:52-53 | After a run, the session holds the command and time of the run's last successful transmission, or its start values if nothing was sent. |
| `CommandSession.RunWireIsFrames` | virtual_Steering.py:48-53 | The bytes written are exactly the messages of the successful transmissions, in order. Suppressed and failed calls write nothing. |
| `CommandSession.RunIsSpaced` | virtual_Steering.py:48-53 | Two consecutive successful transmissions of the same command are more than 0.5 s apart. This holds for any clock, even one that is not monotone. |
| `CommandSession.RunFromStartEndsWithLastCommand` | virtual_Steering.py:40-53 | From start-up, the wire is empty iff nothing is remembered as sent. Otherwise it ends with the message of the remembered command. |
| `CommandSession.RunWireParses` | virtual_Steering.py:48-50 | Every byte ever written belongs to a well-formed message. The stream parses back into the transmitted commands. |
| `Steering.FrameCommand` | virtual_Steering.py:97-143 | Counting only hands whose wrist is on screen: BACKWARD iff exactly one, STOP iff neither one nor two (none included). |
| `Steering.FrameCommandPair` | virtual_Steering.py:97-133 | With exactly two wrists on screen, at detection positions i < j, the frame gives the lean of the rightmost of those two, whatever off-screen hands were detected. |
| `Steering.SessionCalls` | virtual_Steering.py:145-154 | One send call per frame, carrying that frame's classified command. If the quit key ends the loop, one final STOP follows. |
| `Steering.ProcessFrames` | virtual_Steering.py:67-146 | Running the per-frame loop gives the same session and bytes as the run of the frames' send calls. |
| `Steering.Drive` | virtual_Steering.py:67-156 | The whole loop gives the same session and bytes as the run of its calls, so `RunWireParses` and `RunIsSpaced` apply to it. When the quit key ends it on a working transport, the last message on the wire is "S\n". |
| `Steering.QuitLeavesStop` | virtual_Steering.py:152-154 | A quit on a working transport leaves STOP as the last message received. Either STOP is sent then, or it is suppressed because STOP was already the last command sent. |
| `Steering.EndToEndExamples` | virtual_Steering.py:102-146 | As the first frame of a session, one hand at (100,100) writes bytes 0x42 0x0A ("B\n"). No hands write "S\n". Hands at (100,100) and (200,180) write "L\n". |

## Left out

- Camera capture, MediaPipe hand detection and landmark-to-pixel conversion (virtual_Steering.py:37, 62-96): external vision libraries. Their output enters as each frame's `seq<Option<Point>>`.
- Wrist selection (virtual_Steering.py:90-96): the model takes exactly one `Option<Point>` per detected hand, the wrist's pixel point or None. The source selects the wrist by comparing `str(point)` with `"HandLandmark.WRIST"` (line 91). Whether that test matches depends on how the vision library's enum prints under the Python version in use. If it never matched, every frame would have no points and give STOP. That library is not part of this model.
- Frames whose camera read fails (virtual_Steering.py:68-70) are skipped by the loop before any classification and send nothing. The model's frames are the processed ones only, so a capture that stays open but never delivers is a loop that never reaches `Steering.Ending`.
- All drawing and display (`draw_landmarks`, `circle`, `line`, `putText`, `arrowedLine`, `imshow`, `flip`, `waitKey`). Only the arrow geometry and captions are kept, in `Gesture.Render`. The circle radii, colours and line widths are left out.
- `connect_socket` (virtual_Steering.py:12-23): socket creation, options, the retry loop with its 2-second sleep, and logging. It is blocking network I/O that only returns once connected, so it is modelled as an atomic move to a new `Handle` generation.
- `s.send`, `s.close` and the ignored close error (virtual_Steering.py:50, 56-59): the transport outcome is a boolean input, and partial writes are not modelled.
- The final `s.close()` (virtual_Steering.py:159) and `cap.release()` (line 158): resource release with no effect on state or wire.
- `print` logging (virtual_Steering.py:19, 22, 51, 55): console output only.
- `t.time()` and the `t.sleep(0.05)` throttle (virtual_Steering.py:46, 156): time is an exact `real` given to each call, with no floating-point rounding.
- Environment and library set-up (virtual_Steering.py:1-10, 27-34): configuration only.
- `CommandSession.RetryAfterFailure`: assumes the clock does not go backwards between the two calls. With a changed command this is not needed. For a heartbeat repeat, a wall clock that steps back could make the retry be suppressed.
