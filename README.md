# Hybrid gesture and voice robot control: command arbitration and dispatch

This project models, in Dafny, the decision logic of `Hybrid_Robot.py`, a front end
that drives a mobile robot over a serial link with single-character commands
(`W` forward, `S` backward, `A` left, `D` right, `X` stop):

- **Gesture mode.** Each camera frame yields zero or more detected hands. Each hand is
  classified from four landmark coordinates (wrist y, index-fingertip y, thumb-tip x,
  index-fingertip x, in pixels) by a priority-ordered chain with a fixed 50-pixel
  margin. The vertical tests come first, then the horizontal ones, and Neutral is the
  fallback. With no hand the frame is Neutral; with several, the last hand decides.
  The gesture's label is looked up in a command dictionary, with stop as the fallback
  (`gestures.dfy`, `commands.dfy`). A command is sent only when it differs from the
  last command. The last command starts as `None` and becomes the current command
  after every frame (`debounce.dfy`, `gesture_mode.dfy`).
- **Voice mode.** A transcript, if there is one and it is not empty, is embedded in a
  fixed prompt. The language model's reply, already evaluated to a list, is sent
  element by element, once each and in order. An empty list sends nothing and is
  reported to the user (`voice_mode.dfy`).
- **Command link.** `send_command` writes the command's characters to the port only
  when the port opened at start-up. It records the call either way and returns no
  status (`link.dfy`).

Camera frames, the hand detector, speech recognition and the language model are
inputs. A gesture-mode run is the sequence of per-frame hand lists seen before it
stops. A voice-mode call is given the transcript (`None` when speech was not
recognised) and the model's reply as a list (empty when the call failed).

The code does not check the model's reply against the command vocabulary. It sends
whatever strings the evaluated list holds. The model follows the code here:
`VoiceSendsReplyOrNothing` states that any non-empty reply is sent exactly as it stands.

## Model

| member | source | states |
|---|---|---|
| `Gestures.Classify` | Hybrid_Robot.py:108-117 | the gesture returned lies in that gesture's region of landmark space (up or down outside the vertical band, tilts inside it, Neutral inside both bands) |
| `Gestures.RegionsPartition` | Hybrid_Robot.py:108-117 | every hand lies in some region and in at most one, so the classifier is total with exactly one of five labels |
| `Gestures.ClassifyMatchesRegion` | Hybrid_Robot.py:108-117 | the classifier returns a gesture if and only if the hand lies in that gesture's region |
| `Gestures.HandUpIgnoresHorizontal` | Hybrid_Robot.py:108-109 | index tip more than 50 px above the wrist gives Hand Up whatever the x coordinates are: the vertical test has priority |
| `Gestures.HandDownWhenLowered` | Hybrid_Robot.py:108-111 | Hand Down exactly when the finger is not raised past the margin and is lowered past it |
| `Gestures.TiltOnlyInVerticalBand` | Hybrid_Robot.py:110-115 | Tilt Left or Tilt Right is only returned when the index tip is within 50 px of the wrist vertically |
| `Gestures.TiltWithinVerticalBand` | Hybrid_Robot.py:112-117 | inside the vertical band: index left of thumb by more than 50 px gives Tilt Left, right by more than 50 px gives Tilt Right, within the margin gives Neutral |
| `Gestures.NeutralIffWithinMargins` | Hybrid_Robot.py:108-117 | Neutral if and only if both coordinates are within the margin |
| `Gestures.ClassifyFrame` | Hybrid_Robot.py:97-117 | the per-frame loop over hands yields Neutral for no hands and otherwise the classification of the last hand |
| `Gestures.LastHandWins` | Hybrid_Robot.py:99-117 | hands before the last one in a frame have no effect on its gesture |
| `Commands.CommandFor` | Hybrid_Robot.py:121-129 | the lookup always yields one single-character command of the vocabulary W/S/A/D/X, and stop for a key not in the dictionary |
| `Commands.MapKeysAreLabels` | Hybrid_Robot.py:121-127 | the dictionary's keys are exactly the five gesture labels |
| `Commands.CommandMapMatchesDrive` | Hybrid_Robot.py:121-129 | every gesture label is a key, and Up, Down, Left, Right, Neutral map to W, S, A, D, X |
| `Commands.UnknownLabelStops` | Hybrid_Robot.py:129 | any string that is not a gesture label looks up to stop |
| `Commands.DriveInjective` | Hybrid_Robot.py:121-127 | distinct gestures map to distinct commands, so a command change is a gesture change |
| `Debouncing.DebounceStep` | Hybrid_Robot.py:131-134 | a further frame sends its command if and only if it differs from the last command at that point |
| `Debouncing.DebounceTracksLastSent` | Hybrid_Robot.py:131-134 | the last command after any frames equals the last command actually sent (or the start value when none was) |
| `Debouncing.DebounceNoRepeats` | Hybrid_Robot.py:131-134 | no send repeats the send before it, and the first send differs from the starting last command |
| `Debouncing.DebounceKeepsNoRepeats` | Hybrid_Robot.py:131-134 | a command sequence without repeats passes through the debouncer unchanged |
| `Debouncing.DebounceIdempotent` | Hybrid_Robot.py:131-134 | debouncing the sent sequence again sends the same sequence |
| `Debouncing.DebounceSendsFrameCommands` | Hybrid_Robot.py:129-134 | at most one send per frame, and every sent command is some frame's command |
| `Debouncing.FirstFrameSends` | Hybrid_Robot.py:85-134 | starting from `None`, the first frame always sends its own command |
| `Link.ConcatAppend` | Hybrid_Robot.py:75 | writing commands one after another puts their characters on the unframed stream in order |
| `Link.CommandLink.constructor` | Hybrid_Robot.py:28-34 | the link starts connected or not as the port opened, with nothing sent |
| `Link.CommandLink.Send` | Hybrid_Robot.py:73-78 | every call is recorded; the command's characters are written to the port exactly when it is connected; the port carries the concatenation of all calls |
| `GestureControl.FrameCommand` | Hybrid_Robot.py:97-129 | a frame's command is the drive command of its gesture |
| `GestureControl.FrameCommands` | Hybrid_Robot.py:88-129 | one command per frame, in frame order |
| `GestureControl.GestureSession.constructor` | Hybrid_Robot.py:85 | the last command starts as `None` |
| `GestureControl.GestureSession.ProcessFrame` | Hybrid_Robot.py:97-134 | one frame sends its command if and only if it differs from the last command, and afterwards the last command is the frame's command whether or not the link is connected |
| `GestureControl.GestureSendsStep` | Hybrid_Robot.py:129-134 | one more frame adds its command to a run's sends exactly when it differs from the last command, and leaves that command as the last command |
| `GestureControl.GestureMode` | Hybrid_Robot.py:85-134 | over a run of frames the link receives exactly the debounced per-frame commands, in order, and their characters reach the port only when the link is connected |
| `GestureControl.FirstFrameAlwaysSends` | Hybrid_Robot.py:85-134 | the first frame of every run sends its command |
| `GestureControl.RobotFollowsLastFrame` | Hybrid_Robot.py:131-134 | after a run, the last command sent is the last frame's command |
| `GestureControl.NoDuplicateAdjacentSends` | Hybrid_Robot.py:131-134 | no two consecutive sends of a run are equal |
| `GestureControl.UpUpNeutralNeutralUpSendsForwardStopForward` | Hybrid_Robot.py:97-134 | frames Hand Up, Hand Up, no hand, Neutral, Hand Up send W, X, W |
| `VoiceControl.VoicePrompt` | Hybrid_Robot.py:153 | the prompt is the fixed prefix followed by the transcript verbatim |
| `VoiceControl.VoicePlan` | Hybrid_Robot.py:148-158 | no transcript (missing or empty) ends the call before the model is asked; an empty reply ends it after; otherwise the reply is dispatched with the transcript's prompt |
| `VoiceControl.Notice` | Hybrid_Robot.py:149-156 | the user hears a notice exactly when nothing is dispatched |
| `VoiceControl.VoiceSendsReplyOrNothing` | Hybrid_Robot.py:148-160 | a missing transcript or empty reply sends nothing; otherwise exactly the reply is sent |
| `VoiceControl.VoiceMode` | Hybrid_Robot.py:147-160 | each listed command goes to `send_command` exactly once and in list order, and reaches the port only when the link is connected |

## Left out

- Camera capture, frame flip and colour conversion, hand detection, landmark drawing, the on-screen label and the quit key (Hybrid_Robot.py:82-96, 119, 136-144): external libraries and UI. The per-frame hand lists are the input, and the end of the list stands for the camera failing or the quit key.
- Scaling of normalised landmarks by frame width and height (Hybrid_Robot.py:102-106): the model takes the scaled pixel coordinates. The model computes the scaling and the sums `wrist_y - 50`, `wrist_y + 50`, `thumb_x - 50` and `thumb_x + 50` (Hybrid_Robot.py:102-114) exactly on `real`. The source computes them in floating point, where they can round. For example, with `wrist_y = 1e-20` and `index_y = -50.0`, the source's Hand Up test is false but the model's is true. That rounding is not modelled.
- The unused `pinky_y` (Hybrid_Robot.py:104): it does not affect the result.
- Speech capture and recognition, and text-to-speech (Hybrid_Robot.py:37-52, 150, 155): foreign I/O. The transcript is an input, and the spoken notice is returned as a value (`VoiceControl.Notice`).
- The language-model call and the `eval` of its reply (Hybrid_Robot.py:54-71): network I/O and arbitrary code evaluation. The reply is an input list of strings, empty when the call failed. Replies that evaluate to something other than a list of strings are not modelled. For example, a list holding an integer fails at `cmd.encode()` only when the link is connected, which ends the program. On a disconnected link any element is only reported, and the loop goes on to the next one.
- Link.CommandLink.Send: writes never fail in the model. In the source, `bt.write` (Hybrid_Robot.py:75) can raise pyserial's `SerialException`, for example when the link drops. It can also raise `PortNotOpenError` when the port was constructed without a device name (Hybrid_Robot.py:29). Nothing catches these exceptions, so the mode and the program end partway through: in voice mode the remaining commands are not sent (Hybrid_Robot.py:158-160), and in gesture mode the last command is not updated (Hybrid_Robot.py:134). The model has no failure outcome for a write, because the transport is outside the model.
- UTF-8 encoding in `cmd.encode()` (Hybrid_Robot.py:75): the port is modelled as a stream of characters. This is the same as bytes for the ASCII command vocabulary.
- Environment loading, client setup, opening and closing the serial port, and the `time.sleep` pauses (Hybrid_Robot.py:11-34, 160, 176-178): I/O and timing. The connection result is a constructor argument, and only the order of sends is modelled.
- The interactive menu loop in `main` (Hybrid_Robot.py:163-174): console orchestration.
