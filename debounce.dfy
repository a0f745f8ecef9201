/**
 * The change-triggered debouncer of gesture mode (Hybrid_Robot.py, lines 85 and
 * 131-134), stated over the sequence of per-frame commands: a command is sent
 * only when it differs from the last command, which starts as `None` and becomes
 * the current command after every frame.
 */
module Debouncing {
  import opened Wrappers

  /** The value of `last_command` after the frames whose commands are `cmds`, starting from `last`. */
  function After(cmds: seq<string>, last: Option<string>): Option<string>
  {
    if cmds == [] then last else Some(cmds[|cmds| - 1])
  }

  /** The commands sent for the frame commands `cmds`, frame by frame, starting from `last`. */
  function Debounce(cmds: seq<string>, last: Option<string>): seq<string>
  {
    if cmds == [] then []
    else (if Some(cmds[0]) != last then [cmds[0]] else []) + Debounce(cmds[1..], Some(cmds[0]))
  }

  /** No sent command equals the one sent before it (or, for the first, the starting `last`). */
  predicate NoRepeats(sends: seq<string>, last: Option<string>)
  {
    forall i :: 0 <= i < |sends| ==> Some(sends[i]) != After(sends[..i], last)
  }

  /** One more frame sends its command exactly when it differs from `last_command` at that point. */
  lemma {:induction false} DebounceStep(cmds: seq<string>, c: string, last: Option<string>)
    ensures Debounce(cmds + [c], last)
         == Debounce(cmds, last) + (if Some(c) != After(cmds, last) then [c] else [])
  {
    if cmds == [] {
      assert [c][1..] == [];
    } else {
      assert (cmds + [c])[1..] == cmds[1..] + [c];
      DebounceStep(cmds[1..], c, Some(cmds[0]));
      assert After(cmds[1..], Some(cmds[0])) == After(cmds, last);
    }
  }

  /** `last_command` always equals the last command actually sent (or the start value if none was). */
  lemma {:induction false} DebounceTracksLastSent(cmds: seq<string>, last: Option<string>)
    ensures After(Debounce(cmds, last), last) == After(cmds, last)
  {
    if cmds != [] {
      var head := if Some(cmds[0]) != last then [cmds[0]] else [];
      var rest := Debounce(cmds[1..], Some(cmds[0]));
      DebounceTracksLastSent(cmds[1..], Some(cmds[0]));
      if rest != [] {
        assert (head + rest)[|head + rest| - 1] == rest[|rest| - 1];
      }
    }
  }

  /** No two consecutive sends are equal, and the first send differs from the starting value. */
  lemma {:induction false} DebounceNoRepeats(cmds: seq<string>, last: Option<string>)
    ensures NoRepeats(Debounce(cmds, last), last)
  {
    if cmds != [] {
      var head := if Some(cmds[0]) != last then [cmds[0]] else [];
      var rest := Debounce(cmds[1..], Some(cmds[0]));
      var sends := head + rest;
      DebounceNoRepeats(cmds[1..], Some(cmds[0]));
      forall i | 0 <= i < |sends|
        ensures Some(sends[i]) != After(sends[..i], last)
      {
        if i < |head| {
          assert sends[..i] == [];
        } else {
          var j := i - |head|;
          assert sends[i] == rest[j];
          if j == 0 {
            assert After(sends[..i], last) == Some(cmds[0]);
          } else {
            assert sends[..i][i - 1] == rest[..j][j - 1];
          }
        }
      }
    }
  }

  /** A sequence that already has no repeats passes through the debouncer unchanged. */
  lemma {:induction false} DebounceKeepsNoRepeats(sends: seq<string>, last: Option<string>)
    requires NoRepeats(sends, last)
    ensures Debounce(sends, last) == sends
  {
    if sends != [] {
      assert Some(sends[0]) != After(sends[..0], last);
      var tail := sends[1..];
      forall i | 0 <= i < |tail|
        ensures Some(tail[i]) != After(tail[..i], Some(sends[0]))
      {
        assert Some(sends[i + 1]) != After(sends[..i + 1], last);
        if i > 0 {
          assert sends[..i + 1][i] == tail[..i][i - 1];
        }
      }
      DebounceKeepsNoRepeats(tail, Some(sends[0]));
      assert [sends[0]] + tail == sends;
    }
  }

  /** Debouncing twice sends the same as debouncing once. */
  lemma DebounceIdempotent(cmds: seq<string>, last: Option<string>)
    ensures Debounce(Debounce(cmds, last), last) == Debounce(cmds, last)
  {
    DebounceNoRepeats(cmds, last);
    DebounceKeepsNoRepeats(Debounce(cmds, last), last);
  }

  /** At most one send per frame, and only commands that some frame produced. */
  lemma {:induction false} DebounceSendsFrameCommands(cmds: seq<string>, last: Option<string>)
    ensures |Debounce(cmds, last)| <= |cmds|
    ensures forall c :: c in Debounce(cmds, last) ==> c in cmds
  {
    if cmds != [] {
      DebounceSendsFrameCommands(cmds[1..], Some(cmds[0]));
      forall c | c in Debounce(cmds[1..], Some(cmds[0]))
        ensures c in cmds
      {
        assert c in cmds[1..];
      }
    }
  }

  /** Starting from `None`, the first frame always sends its command. */
  lemma FirstFrameSends(cmds: seq<string>)
    requires cmds != []
    ensures Debounce(cmds, None) != [] && Debounce(cmds, None)[0] == cmds[0]
  {
  }
}
