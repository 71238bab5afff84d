/**
 * What the chat stage's main loop does over a whole input: the records it
 * prints, the history it leaves and why it stops.
 */
module ChatRun {
  import opened Protocol
  import opened Dialogue
  import opened ChatTurn

  datatype ChatTrace = ChatTrace(output: seq<string>, history: seq<Turn>, stop: ChatStop)

  function Prepend(out: seq<string>, t: ChatTrace): ChatTrace {
    ChatTrace(out + t.output, t.history, t.stop)
  }

  /** Printing `a` and then `b` ahead of a run is printing `a + b` ahead of it. */
  lemma PrependTwice(a: seq<string>, b: seq<string>, t: ChatTrace)
    ensures Prepend(a, Prepend(b, t)) == Prepend(a + b, t)
  {
    assert a + (b + t.output) == (a + b) + t.output;
  }

  /** How each input line is read; reading a line does not depend on what came before it. */
  function ReadLines(lines: seq<string>): (parsed: seq<ChatLine>)
    ensures |parsed| == |lines|
    ensures forall i :: 0 <= i < |lines| ==> parsed[i] == ReadChatLine(lines[i])
  {
    seq(|lines|, i requires 0 <= i < |lines| => ReadChatLine(lines[i]))
  }

  lemma ReadLinesAt(lines: seq<string>, i: nat)
    requires i < |lines|
    ensures ReadLines(lines)[i] == ReadChatLine(lines[i])
  {
  }

  /**
   * What the loop does from line `i` on, given how each line is read, with
   * `calls` backend calls made so far and history `h`: the records it
   * prints, the history it leaves and why it stops.
   */
  function Session(parsed: seq<ChatLine>, i: nat, calls: nat, h: seq<Turn>, backend: Backend): ChatTrace
    requires |h| >= 1
    decreases |parsed| - i
  {
    if i >= |parsed| then ChatTrace([], h, InputEnded)
    else
      match ChatStep(parsed[i], calls, h, backend)
      case Halt(h', stop) => ChatTrace([], h', stop)
      case Continue(records, calls', h') => Prepend(records, Session(parsed, i + 1, calls', h', backend))
  }

  /** The whole run on the input `lines`, starting from a history that holds only the system turn. */
  function ChatSession(prompt: string, lines: seq<string>, backend: Backend): ChatTrace {
    Session(ReadLines(lines), 0, 0, [Turn(System, prompt)], backend)
  }

  /** The loop on a line that halts it prints nothing more. */
  lemma SessionAtHalt(parsed: seq<ChatLine>, i: nat, calls: nat, h: seq<Turn>, backend: Backend)
    requires |h| >= 1 && i < |parsed| && ChatStep(parsed[i], calls, h, backend).Halt?
    ensures var step := ChatStep(parsed[i], calls, h, backend);
      Session(parsed, i, calls, h, backend) == ChatTrace([], step.history, step.stop)
  {
  }

  /** The loop on a line it reads past prints that line's records ahead of the rest of the run. */
  lemma SessionAtContinue(parsed: seq<ChatLine>, i: nat, calls: nat, h: seq<Turn>, backend: Backend)
    requires |h| >= 1 && i < |parsed| && ChatStep(parsed[i], calls, h, backend).Continue?
    ensures var step := ChatStep(parsed[i], calls, h, backend);
      Session(parsed, i, calls, h, backend) == Prepend(step.records, Session(parsed, i + 1, step.calls, step.history, backend))
  {
  }
}
