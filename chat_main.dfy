/**
 * The chat stage's main loop, and what holds of every run of it.
 */
module ChatMain {
  import opened Wrappers
  import opened PyStr
  import opened Protocol
  import opened Dialogue
  import opened Router
  import opened ChatTurn
  import opened ChatRun

  /**
   * The body of the loop for one line read as `read`: a blank line halts, a
   * line that is not a stop record is skipped, and an utterance is sent to
   * the backend and its reply routed.
   */
  method HandleLine(manager: DialogueManager, read: ChatLine, calls: nat, backend: Backend) returns (step: Step)
    requires manager.Valid()
    modifies manager
    ensures manager.Valid()
    ensures step == ChatStep(read, calls, old(manager.messages), backend)
    ensures manager.messages == step.history
  {
    match read
    case EndOfSession =>
      step := Halt(manager.messages, BlankLine);
    case Ignored =>
      step := Continue([], calls, manager.messages);
    case Utterance(u) =>
      var reply := manager.GenerateResponse(u, backend, calls);
      if reply.None? {
        step := Halt(manager.messages, NoReply);
      } else {
        var routed := Route(reply.value);
        if routed.Failure? {
          step := Halt(manager.messages, BadEmotion(routed.error));
        } else {
          step := Continue(routed.value, calls + 1, manager.messages);
        }
      }
  }

  /** The loop itself, over a fresh history that holds only the system turn. */
  method RunChat(prompt: string, lines: seq<string>, backend: Backend)
    returns (output: seq<string>, history: seq<Turn>, stop: ChatStop)
    ensures ChatTrace(output, history, stop) == ChatSession(prompt, lines, backend)
  {
    var manager := new DialogueManager(prompt);
    ghost var parsed := ReadLines(lines);
    ghost var whole := Session(parsed, 0, 0, manager.messages, backend);
    output := [];
    var i, calls := 0, 0;
    while true
      invariant manager.Valid()
      invariant whole == Prepend(output, Session(parsed, i, calls, manager.messages, backend))
      decreases |lines| - i
    {
      if i >= |lines| {
        return output, manager.messages, InputEnded;
      }
      var read := ReadChatLine(lines[i]);
      ReadLinesAt(lines, i);
      ghost var h := manager.messages;
      var step := HandleLine(manager, read, calls, backend);
      if step.Halt? {
        SessionAtHalt(parsed, i, calls, h, backend);
        return output, manager.messages, step.stop;
      }
      ghost var next := Session(parsed, i + 1, step.calls, manager.messages, backend);
      SessionAtContinue(parsed, i, calls, h, backend);
      PrependTwice(output, step.records, next);
      output := output + step.records;
      i, calls := i + 1, step.calls;
    }
  }

  /** Across any run of the loop the history keeps its shape, so its first turn is always the system turn. */
  lemma {:induction false} SessionKeepsHistoryValid(parsed: seq<ChatLine>, i: nat, calls: nat, h: seq<Turn>, prompt: string, backend: Backend)
    requires ValidHistory(h, prompt)
    ensures ValidHistory(Session(parsed, i, calls, h, backend).history, prompt)
    decreases |parsed| - i
  {
    if i < |parsed| {
      var step := ChatStep(parsed[i], calls, h, backend);
      ChatStepKeepsHistoryValid(parsed[i], calls, h, prompt, backend);
      if step.Continue? {
        SessionKeepsHistoryValid(parsed, i + 1, step.calls, step.history, prompt, backend);
      }
    }
  }

  /** The history a whole run leaves starts with the system turn and alternates user and assistant turns. */
  lemma ChatSessionKeepsHistoryValid(prompt: string, lines: seq<string>, backend: Backend)
    ensures ValidHistory(ChatSession(prompt, lines, backend).history, prompt)
  {
    SessionKeepsHistoryValid(ReadLines(lines), 0, 0, [Turn(System, prompt)], prompt, backend);
  }

  /**
   * Everything the loop prints is a motion or a synthesis command, and the
   * last record printed is a synthesis command.
   */
  lemma {:induction false} SessionPrintsCommands(parsed: seq<ChatLine>, i: nat, calls: nat, h: seq<Turn>, backend: Backend)
    requires |h| >= 1
    ensures ArePrintedCommands(Session(parsed, i, calls, h, backend).output)
    decreases |parsed| - i
  {
    if i < |parsed| {
      var step := ChatStep(parsed[i], calls, h, backend);
      if step.Continue? {
        ChatStepPrintsCommands(parsed[i], calls, h, backend);
        SessionPrintsCommands(parsed, i + 1, step.calls, step.history, backend);
        var rest := Session(parsed, i + 1, step.calls, step.history, backend);
        assert Session(parsed, i, calls, h, backend).output == step.records + rest.output;
        AppendCommands(step.records, rest.output);
      }
    }
  }

  /** The whole run's output consists of commands, and ends with a synthesis command. */
  lemma ChatSessionPrintsCommands(prompt: string, lines: seq<string>, backend: Backend)
    ensures ArePrintedCommands(ChatSession(prompt, lines, backend).output)
  {
    SessionPrintsCommands(ReadLines(lines), 0, 0, [Turn(System, prompt)], backend);
  }

  /** The loop stops on a blank line only if some line it reads is blank. */
  lemma {:induction false} SessionBlankStop(parsed: seq<ChatLine>, i: nat, calls: nat, h: seq<Turn>, backend: Backend)
    requires |h| >= 1
    ensures Session(parsed, i, calls, h, backend).stop == BlankLine ==> exists k :: i <= k < |parsed| && parsed[k] == EndOfSession
    decreases |parsed| - i
  {
    if i < |parsed| {
      var step := ChatStep(parsed[i], calls, h, backend);
      if step.Continue? {
        SessionAtContinue(parsed, i, calls, h, backend);
        SessionBlankStop(parsed, i + 1, step.calls, step.history, backend);
      } else {
        SessionAtHalt(parsed, i, calls, h, backend);
      }
    }
  }

  /**
   * The loop stops at the first line that ends the session: the lines after
   * it are never read.
   */
  lemma {:induction false} SessionStopsAtEnd(parsed: seq<ChatLine>, i: nat, calls: nat, h: seq<Turn>, backend: Backend, end: nat)
    requires |h| >= 1
    requires i <= end < |parsed| && parsed[end] == EndOfSession
    ensures Session(parsed, i, calls, h, backend) == Session(parsed[..end + 1], i, calls, h, backend)
    decreases end - i
  {
    var cut := parsed[..end + 1];
    assert cut[i] == parsed[i];
    var step := ChatStep(parsed[i], calls, h, backend);
    if step.Continue? {
      SessionStopsAtEnd(parsed, i + 1, step.calls, step.history, backend, end);
    }
  }

  /** A blank line ends the run: nothing after the first blank line is ever read. */
  lemma ChatSessionStopsAtBlank(prompt: string, lines: seq<string>, backend: Backend, blank: nat)
    requires blank < |lines| && Strip(lines[blank]) == []
    ensures ChatSession(prompt, lines, backend) == ChatSession(prompt, lines[..blank + 1], backend)
  {
    var parsed := ReadLines(lines);
    assert parsed[blank] == EndOfSession;
    assert ReadLines(lines[..blank + 1]) == parsed[..blank + 1];
    SessionStopsAtEnd(parsed, 0, 0, [Turn(System, prompt)], backend, blank);
  }
}
