/**
 * One iteration of the chat stage's main loop: read a line, strip it, stop
 * on a blank line, send the text of a `RECOG_EVENT_STOP|` record to the
 * backend and route the reply to records.
 */
module ChatTurn {
  import opened Wrappers
  import opened PyStr
  import opened Protocol
  import opened Dialogue
  import opened Router

  /**
   * Why the loop ended: input ran out (`input()` raises `EOFError`), a blank
   * line, a failed backend call (its `None` reaches `re.findall`, which
   * raises `TypeError`), or a reply whose emotion token `int` rejects.
   */
  datatype ChatStop = InputEnded | BlankLine | NoReply | BadEmotion(error: RouteError)

  /** The effect of one input line: the loop stops, or prints some records and reads on. */
  datatype Step = Halt(history: seq<Turn>, stop: ChatStop) | Continue(records: seq<string>, calls: nat, history: seq<Turn>)

  /**
   * One iteration of the loop on a line read as `read`, with `calls` backend
   * calls made before it and history `h`.
   */
  function ChatStep(read: ChatLine, calls: nat, h: seq<Turn>, backend: Backend): (s: Step)
    requires |h| >= 1
    ensures |s.history| >= 1
  {
    match read
    case EndOfSession => Halt(h, BlankLine)
    case Ignored => Continue([], calls, h)
    case Utterance(u) =>
      var ex := Exchange(h, u, backend(calls, h + [Turn(User, u)]));
      match ex.reply
      case None => Halt(ex.history, NoReply)
      case Some(reply) =>
        match Route(reply)
        case Failure(e) => Halt(ex.history, BadEmotion(e))
        case Success(records) => Continue(records, calls + 1, ex.history)
  }

  /** One step keeps the history's shape. */
  lemma ChatStepKeepsHistoryValid(read: ChatLine, calls: nat, h: seq<Turn>, prompt: string, backend: Backend)
    requires ValidHistory(h, prompt)
    ensures ValidHistory(ChatStep(read, calls, h, backend).history, prompt)
  {
    if read.Utterance? {
      var u := read.text;
      ExchangeKeepsValid(h, prompt, u, backend(calls, h + [Turn(User, u)]));
    }
  }

  ghost predicate IsCommand(r: string) {
    "MOTION_ADD|0|action|" <= r || "SYNTH_START|0|mei_voice_normal|" <= r
  }

  /**
   * Records that all are commands, the last being a synthesis command; what
   * a routed reply prints, and what the loop prints overall.
   */
  ghost predicate ArePrintedCommands(out: seq<string>) {
    (forall r :: r in out ==> IsCommand(r))
    && (out != [] ==> "SYNTH_START|0|mei_voice_normal|" <= out[|out| - 1])
  }

  /** What a routed reply prints: one or two commands, the last a synthesis command. */
  lemma RouteGivesCommands(reply: string)
    requires Route(reply).Success?
    ensures |Route(reply).value| >= 1 && ArePrintedCommands(Route(reply).value)
  {
  }

  /** Printing the commands of one reply after those of earlier ones keeps the shape. */
  lemma AppendCommands(a: seq<string>, b: seq<string>)
    requires ArePrintedCommands(a) && ArePrintedCommands(b)
    ensures ArePrintedCommands(a + b)
  {
    if b == [] {
      assert a + b == a;
    }
  }

  /** What one step prints: nothing, or the records of one routed reply. */
  lemma ChatStepPrintsCommands(read: ChatLine, calls: nat, h: seq<Turn>, backend: Backend)
    requires |h| >= 1
    ensures ChatStep(read, calls, h, backend).Continue? ==> ArePrintedCommands(ChatStep(read, calls, h, backend).records)
  {
    var step := ChatStep(read, calls, h, backend);
    if step.Continue? && step.records != [] {
      var u := read.text;
      var reply := Exchange(h, u, backend(calls, h + [Turn(User, u)])).reply.value;
      assert step.records == Route(reply).value;
      RouteGivesCommands(reply);
    }
  }

  /** A line that strips to nothing halts the loop at once, printing nothing and leaving the history alone. */
  lemma ChatStepAtBlank(line: string, calls: nat, h: seq<Turn>, backend: Backend)
    requires |h| >= 1 && Strip(line) == []
    ensures ChatStep(ReadChatLine(line), calls, h, backend) == Halt(h, BlankLine)
  {
    assert ReadChatLine(line) == EndOfSession;
  }

  /** A line that is neither blank nor a stop record is skipped: it prints nothing and calls no backend. */
  lemma ChatStepSkips(line: string, calls: nat, h: seq<Turn>, backend: Backend)
    requires |h| >= 1 && Strip(line) != [] && !(RecogStopTag <= Strip(line) && '\n' !in Strip(line))
    ensures ChatStep(ReadChatLine(line), calls, h, backend) == Continue([], calls, h)
  {
    assert ReadChatLine(line) == Ignored;
  }

}
