/**
 * The serial command link (Hybrid_Robot.py, lines 28-34 and 73-78): a handle that
 * exists only when the port opened at start-up, and `send_command`, which writes
 * the command's characters only when the handle exists and otherwise only reports
 * what it would have sent. It returns no status.
 */
module Link {

  /** The characters of the commands in `cmds`, one after the other: an unframed stream. */
  function Concat(cmds: seq<string>): string
  {
    if cmds == [] then [] else cmds[0] + Concat(cmds[1..])
  }

  /** Writing one command after others appends exactly its characters to the stream. */
  lemma {:induction false} ConcatAppend(cmds: seq<string>, more: seq<string>)
    ensures Concat(cmds + more) == Concat(cmds) + Concat(more)
  {
    if cmds != [] {
      assert (cmds + more)[1..] == cmds[1..] + more;
      ConcatAppend(cmds[1..], more);
    } else {
      assert cmds + more == more;
    }
  }

  class CommandLink {
    /** Whether the serial port opened at start-up (`bt` is not `None`); it never changes afterwards. */
    const connected: bool
    /** Every command passed to `send_command`, in call order, whether or not it reached the port. */
    var calls: seq<string>
    /** The characters written to the serial port, in order. */
    var wire: string

    /** The port carries exactly the commands of all calls when connected, and nothing otherwise. */
    ghost predicate Valid()
      reads this
    {
      wire == if connected then Concat(calls) else []
    }

    /** The link as left by start-up: connected or not, nothing sent yet. */
    constructor (connected: bool)
      ensures Valid()
      ensures this.connected == connected && calls == [] && wire == []
    {
      this.connected := connected;
      calls := [];
      wire := [];
    }

    /** `send_command`: write the command when the port is open, otherwise only report it. */
    method Send(cmd: string)
      requires Valid()
      modifies this
      ensures Valid()
      ensures calls == old(calls) + [cmd]
      ensures wire == if connected then old(wire) + cmd else old(wire)
    {
      if connected {
        wire := wire + cmd;
        ConcatAppend(calls, [cmd]);
        assert Concat([cmd]) == cmd;
      }
      calls := calls + [cmd];
    }
  }
}
