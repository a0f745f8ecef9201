/**
 * Voice mode (Hybrid_Robot.py, lines 147-160): a transcript is turned into a prompt,
 * the language model's reply (already evaluated to a list) is checked for emptiness,
 * and each listed command is sent once, in order. Speech capture, the model call and
 * the pause between sends are outside the model; the transcript and the reply are inputs.
 */
module VoiceControl {
  import opened Wrappers
  import opened Link

  /** The fixed text put before the transcript when asking the model. */
  const PROMPT_PREFIX: string := "Convert this to robot commands: "

  const RETRY_NOTICE: string := "Please try again."
  const NOT_UNDERSTOOD_NOTICE: string := "I couldn't understand your command."

  /** How one voice-mode call ends. */
  datatype VoiceOutcome =
    | NotHeard                                          // no transcript: the model is not asked
    | NotUnderstood(prompt: string)                     // the model was asked and returned an empty list
    | Dispatched(prompt: string, commands: seq<string>) // the non-empty list was sent

  /** The prompt handed to the model: the fixed prefix, then the transcript verbatim. */
  function VoicePrompt(text: string): (p: string)
    ensures |p| == |PROMPT_PREFIX| + |text|
    ensures p[..|PROMPT_PREFIX|] == PROMPT_PREFIX && p[|PROMPT_PREFIX|..] == text
  {
    PROMPT_PREFIX + text
  }

  /** `not text` is false: a transcript exists and is not empty. */
  predicate Heard(transcript: Option<string>)
  {
    transcript.Some? && transcript.value != ""
  }

  /** The decisions of one voice-mode call, given the transcript and the model's reply. */
  function VoicePlan(transcript: Option<string>, reply: seq<string>): (o: VoiceOutcome)
    ensures o.NotHeard? <==> !Heard(transcript)
    ensures Heard(transcript) ==> o.prompt == VoicePrompt(transcript.value)
    ensures o.NotUnderstood? <==> Heard(transcript) && reply == []
    ensures o.Dispatched? ==> o.commands == reply && reply != []
  {
    if !Heard(transcript) then NotHeard
    else if reply == [] then NotUnderstood(VoicePrompt(transcript.value))
    else Dispatched(VoicePrompt(transcript.value), reply)
  }

  /** The commands a call sends: the reply's elements when dispatched, none otherwise. */
  function Sent(o: VoiceOutcome): seq<string>
  {
    if o.Dispatched? then o.commands else []
  }

  /** What is spoken back to the user, if anything. */
  function Notice(o: VoiceOutcome): (n: Option<string>)
    ensures n.None? <==> o.Dispatched?
  {
    match o
    case NotHeard => Some(RETRY_NOTICE)
    case NotUnderstood(_) => Some(NOT_UNDERSTOOD_NOTICE)
    case Dispatched(_, _) => None
  }

  /** A missing transcript or an empty reply sends nothing; otherwise the reply is sent as it stands. */
  lemma VoiceSendsReplyOrNothing(transcript: Option<string>, reply: seq<string>)
    ensures !Heard(transcript) || reply == [] ==> Sent(VoicePlan(transcript, reply)) == []
    ensures Heard(transcript) ==> Sent(VoicePlan(transcript, reply)) == reply
  {
  }

  /**
   * One voice-mode call: every listed command goes through `send_command` exactly
   * once and in list order, and reaches the port only when the link is connected.
   */
  method VoiceMode(transcript: Option<string>, reply: seq<string>, link: CommandLink)
    returns (outcome: VoiceOutcome)
    requires link.Valid()
    modifies link
    ensures link.Valid()
    ensures outcome == VoicePlan(transcript, reply)
    ensures link.calls == old(link.calls) + Sent(outcome)
    ensures link.wire == if link.connected then old(link.wire) + Concat(Sent(outcome)) else old(link.wire)
  {
    if transcript.None? || transcript.value == "" {
      return NotHeard;
    }
    var prompt := VoicePrompt(transcript.value);
    var commands := reply;
    if commands == [] {
      return NotUnderstood(prompt);
    }
    for i := 0 to |commands|
      invariant link.Valid()
      invariant link.calls == old(link.calls) + commands[..i]
    {
      link.Send(commands[i]);
      assert commands[..i + 1] == commands[..i] + [commands[i]];
    }
    assert commands[..|commands|] == commands;
    ConcatAppend(old(link.calls), commands);
    outcome := Dispatched(prompt, commands);
  }
}
