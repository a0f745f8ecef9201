/**
 * The command map of gesture mode (Hybrid_Robot.py, lines 121-129): a dictionary
 * from gesture labels to single-character drive commands, looked up with the stop
 * command as the fallback.
 */
module Commands {
  import opened Gestures

  const FORWARD: string := "W"
  const BACKWARD: string := "S"
  const LEFT: string := "A"
  const RIGHT: string := "D"
  const STOP: string := "X"

  /** The actuator vocabulary. */
  const VOCABULARY: set<string> := {FORWARD, BACKWARD, LEFT, RIGHT, STOP}

  /** The dictionary the source builds each frame, keyed by gesture label. */
  const COMMAND_MAP: map<string, string> :=
    map["Hand Up" := FORWARD, "Hand Down" := BACKWARD, "Tilt Left" := LEFT,
        "Tilt Right" := RIGHT, "Neutral" := STOP]

  /** `command_map.get(gesture, 'X')`: the mapped command, or stop for an unknown label. */
  function CommandFor(gesture: string): (c: string)
    ensures c in VOCABULARY && |c| == 1
    ensures gesture !in COMMAND_MAP ==> c == STOP
  {
    if gesture in COMMAND_MAP then COMMAND_MAP[gesture] else STOP
  }

  /** The intended drive action of each gesture, as a table over the gesture type. */
  function Drive(g: Gesture): string
  {
    match g
    case HandUp => FORWARD
    case HandDown => BACKWARD
    case TiltLeft => LEFT
    case TiltRight => RIGHT
    case Neutral => STOP
  }

  /** The dictionary's keys are exactly the five gesture labels. */
  lemma MapKeysAreLabels()
    ensures COMMAND_MAP.Keys == set g: Gesture :: Label(g)
  {
    var labels := set g: Gesture :: Label(g);
    forall k | k in COMMAND_MAP.Keys
      ensures k in labels
    {
      var g :=
        if k == "Hand Up" then HandUp else if k == "Hand Down" then HandDown
        else if k == "Tilt Left" then TiltLeft else if k == "Tilt Right" then TiltRight
        else Neutral;
      assert Label(g) == k;
    }
  }

  /** Looking up a gesture's label yields that gesture's drive command: the map is total over the labels. */
  lemma CommandMapMatchesDrive(g: Gesture)
    ensures Label(g) in COMMAND_MAP
    ensures CommandFor(Label(g)) == Drive(g)
  {
  }

  /** Any string that is not a gesture label falls back to stop. */
  lemma UnknownLabelStops(s: string)
    requires forall g: Gesture :: Label(g) != s
    ensures CommandFor(s) == STOP
  {
    MapKeysAreLabels();
  }

  /** Distinct gestures give distinct commands, so a command change is exactly a gesture change. */
  lemma DriveInjective(g1: Gesture, g2: Gesture)
    ensures Drive(g1) == Drive(g2) <==> g1 == g2
  {
  }
}
