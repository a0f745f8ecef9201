/**
 * Gesture mode (Hybrid_Robot.py, lines 81-144): for every captured frame, classify
 * the detected hands, look the gesture up in the command map, and send the command
 * only when it differs from the last one. Camera, detector and display are inputs
 * or left out; a run is the sequence of per-frame hand lists seen before it stops.
 */
module GestureControl {
  import opened Wrappers
  import opened Gestures
  import opened Commands
  import opened Debouncing
  import opened Link

  /** The command one frame asks for. */
  function FrameCommand(hands: seq<Hand>): (c: string)
    ensures c == Drive(FrameGesture(hands))
  {
    CommandMapMatchesDrive(FrameGesture(hands));
    CommandFor(Label(FrameGesture(hands)))
  }

  /** The command of every frame, in order. */
  function FrameCommands(frames: seq<seq<Hand>>): (cmds: seq<string>)
    ensures |cmds| == |frames|
    ensures forall i :: 0 <= i < |frames| ==> cmds[i] == FrameCommand(frames[i])
  {
    seq(|frames|, i requires 0 <= i < |frames| => FrameCommand(frames[i]))
  }

  /** The commands a gesture-mode run sends, starting with no last command. */
  function GestureSends(frames: seq<seq<Hand>>): seq<string>
  {
    Debounce(FrameCommands(frames), None)
  }

  /** The state gesture mode keeps across frames. */
  class GestureSession {
    /** The last command sent in this run; `None` before the first frame. */
    var lastCommand: Option<string>

    constructor ()
      ensures lastCommand == None
    {
      lastCommand := None;
    }

    /**
     * One frame: send the frame's command iff it differs from the last command;
     * afterwards the last command is the frame's command, connected link or not.
     */
    method ProcessFrame(hands: seq<Hand>, link: CommandLink) returns (gesture: Gesture)
      requires link.Valid()
      modifies this, link
      ensures link.Valid()
      ensures gesture == FrameGesture(hands)
      ensures lastCommand == Some(FrameCommand(hands))
      ensures link.calls == old(link.calls)
                          + (if Some(FrameCommand(hands)) != old(lastCommand) then [FrameCommand(hands)] else [])
    {
      gesture := ClassifyFrame(hands);
      var current := CommandFor(Label(gesture));
      if Some(current) != lastCommand {
        link.Send(current);
        lastCommand := Some(current);
      }
    }
  }

  /** One more frame extends a run's sends exactly as one debouncer step does. */
  lemma GestureSendsStep(frames: seq<seq<Hand>>, i: nat)
    requires i < |frames|
    ensures After(FrameCommands(frames[..i + 1]), None) == Some(FrameCommand(frames[i]))
    ensures GestureSends(frames[..i + 1])
         == GestureSends(frames[..i])
            + (if Some(FrameCommand(frames[i])) != After(FrameCommands(frames[..i]), None)
               then [FrameCommand(frames[i])] else [])
  {
    assert FrameCommands(frames[..i + 1]) == FrameCommands(frames[..i]) + [FrameCommand(frames[i])];
    DebounceStep(FrameCommands(frames[..i]), FrameCommand(frames[i]), None);
  }

  /** The frame loop: the link receives exactly the debounced frame commands, in order. */
  method GestureMode(frames: seq<seq<Hand>>, link: CommandLink)
    requires link.Valid()
    modifies link
    ensures link.Valid()
    ensures link.calls == old(link.calls) + GestureSends(frames)
    ensures link.wire == if link.connected then old(link.wire) + Concat(GestureSends(frames)) else old(link.wire)
  {
    ghost var calls0 := link.calls;
    var session := new GestureSession();
    var i := 0;
    while i < |frames|
      invariant 0 <= i <= |frames|
      invariant link.Valid()
      invariant session.lastCommand == After(FrameCommands(frames[..i]), None)
      invariant link.calls == calls0 + GestureSends(frames[..i])
    {
      var gesture := session.ProcessFrame(frames[i], link);
      GestureSendsStep(frames, i);
      i := i + 1;
    }
    assert frames[..i] == frames;
    ConcatAppend(calls0, GestureSends(frames));
  }

  /** The first frame of a run always sends, since the last command starts as `None`. */
  lemma FirstFrameAlwaysSends(frames: seq<seq<Hand>>)
    requires frames != []
    ensures GestureSends(frames) != [] && GestureSends(frames)[0] == FrameCommand(frames[0])
  {
  }

  /** After a run, the last command sent is the command of the last frame. */
  lemma RobotFollowsLastFrame(frames: seq<seq<Hand>>)
    requires frames != []
    ensures GestureSends(frames) != []
    ensures GestureSends(frames)[|GestureSends(frames)| - 1] == FrameCommand(frames[|frames| - 1])
  {
    FirstFrameSends(FrameCommands(frames));
    DebounceTracksLastSent(FrameCommands(frames), None);
  }

  /** No two consecutive sends of a run are equal. */
  lemma NoDuplicateAdjacentSends(frames: seq<seq<Hand>>)
    ensures forall i :: 0 < i < |GestureSends(frames)| ==> GestureSends(frames)[i] != GestureSends(frames)[i - 1]
  {
    var sends := GestureSends(frames);
    DebounceNoRepeats(FrameCommands(frames), None);
    forall i | 0 < i < |sends|
      ensures sends[i] != sends[i - 1]
    {
      assert Some(sends[i]) != After(sends[..i], None);
      assert sends[..i][i - 1] == sends[i - 1];
    }
  }

  /**
   * Frames showing Hand Up, Hand Up, no hand, Neutral, Hand Up send forward, stop,
   * forward: repeated gestures are not sent again.
   */
  lemma UpUpNeutralNeutralUpSendsForwardStopForward()
    ensures GestureSends([[Hand(100.0, 0.0, 0.0, 0.0)], [Hand(100.0, 0.0, 0.0, 0.0)], [],
                          [Hand(0.0, 0.0, 0.0, 0.0)], [Hand(100.0, 0.0, 0.0, 0.0)]])
         == [FORWARD, STOP, FORWARD]
  {
    var frames := [[Hand(100.0, 0.0, 0.0, 0.0)], [Hand(100.0, 0.0, 0.0, 0.0)], [],
                   [Hand(0.0, 0.0, 0.0, 0.0)], [Hand(100.0, 0.0, 0.0, 0.0)]];
    var cmds := FrameCommands(frames);
    assert cmds == [FORWARD, FORWARD, STOP, STOP, FORWARD];
    assert cmds[1..] == [FORWARD, STOP, STOP, FORWARD];
    assert cmds[2..] == [STOP, STOP, FORWARD];
    assert cmds[3..] == [STOP, FORWARD];
    assert cmds[4..] == [FORWARD];
  }
}
