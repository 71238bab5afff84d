/**
 * The dialogue history of the chat stage: a process-wide list of turns that
 * starts with the system directive, gains a user turn and an assistant turn
 * per successful exchange, is rolled back when the backend raises, and loses
 * its oldest user/assistant pair when the backend reports more than
 * `TokenMax` tokens.
 */
module Dialogue {
  import opened Wrappers
  import opened PyStr

  datatype Role = System | User | Assistant

  datatype Turn = Turn(role: Role, content: string)

  /** The three exceptions of the OpenAI client that the source catches. */
  datatype ApiErrorKind = APIError | APIConnectionError | RateLimitError

  /** What one backend call gives back: an answer with its reported token usage, or a caught exception. */
  datatype BackendOutcome = Completed(answer: string, totalTokens: nat) | Raised(kind: ApiErrorKind)

  /**
   * The chat backend: given how many calls came before and the history sent,
   * its outcome. Any function may stand here, so nothing is assumed about
   * what the backend answers.
   */
  type Backend = (nat, seq<Turn>) -> BackendOutcome

  /** Usage above this many tokens purges the oldest exchange. */
  const TokenMax: nat := 3000

  /** Python's `list.pop(i)`, as a value: the list without its element at `i`. */
  function PopAt(s: seq<Turn>, i: nat): (r: seq<Turn>)
    requires i < |s|
    ensures |r| == |s| - 1
  {
    s[..i] + s[i + 1..]
  }

  /** Popping index 1 twice drops the two turns after the first. */
  lemma PopFirstPair(g: seq<Turn>)
    requires |g| >= 3
    ensures PopAt(PopAt(g, 1), 1) == [g[0]] + g[3..]
  {
    var once := PopAt(g, 1);
    assert once == [g[0]] + g[2..];
    assert once[2..] == g[3..];
  }

  /**
   * The shape every history keeps: the system turn with the directive first,
   * then whole user/assistant pairs, user first.
   */
  predicate ValidHistory(h: seq<Turn>, prompt: string) {
    |h| >= 1 && |h| % 2 == 1 && h[0] == Turn(System, prompt)
    && forall i :: 1 <= i < |h| ==> h[i].role == (if i % 2 == 1 then User else Assistant)
  }

  datatype ExchangeResult = ExchangeResult(history: seq<Turn>, reply: Option<string>)

  /**
   * One exchange on history `h` for user text `input`, given what the backend
   * did with the history `h + [user turn]`: on an exception the history is
   * left as it was and there is no reply; on an answer the stripped answer is
   * the reply and is recorded after the user turn, and when usage exceeded
   * `TokenMax` the oldest pair after the system turn is dropped.
   */
  function Exchange(h: seq<Turn>, input: string, outcome: BackendOutcome): (r: ExchangeResult)
    requires |h| >= 1
    ensures |h| <= |r.history| <= |h| + 2 && r.history[0] == h[0]
  {
    match outcome
    case Raised(_) => ExchangeResult(h, None)
    case Completed(answer, tokens) =>
      var grown := h + [Turn(User, input), Turn(Assistant, Strip(answer))];
      if tokens > TokenMax then ExchangeResult([h[0]] + grown[3..], Some(Strip(answer)))
      else ExchangeResult(grown, Some(Strip(answer)))
  }

  /** An exchange keeps the history's shape and its system turn. */
  lemma ExchangeKeepsValid(h: seq<Turn>, prompt: string, input: string, outcome: BackendOutcome)
    requires ValidHistory(h, prompt)
    ensures ValidHistory(Exchange(h, input, outcome).history, prompt)
  {
    if outcome.Completed? {
      var grown := h + [Turn(User, input), Turn(Assistant, Strip(outcome.answer))];
      assert forall i :: 1 <= i < |grown| ==> grown[i].role == (if i % 2 == 1 then User else Assistant);
      if outcome.totalTokens > TokenMax {
        var n := [h[0]] + grown[3..];
        assert forall i :: 1 <= i < |n| ==> n[i] == grown[i + 2];
      }
    }
  }

  /** A raised exception leaves the history exactly as it was and gives no reply. */
  lemma ExchangeRollsBack(h: seq<Turn>, input: string, outcome: BackendOutcome)
    requires |h| >= 1 && outcome.Raised?
    ensures Exchange(h, input, outcome) == ExchangeResult(h, None)
  {
  }

  /**
   * Within the budget, the history grows by the user turn and the stripped
   * answer, in that order, and the stripped answer is the reply.
   */
  lemma ExchangeWithinBudget(h: seq<Turn>, input: string, answer: string, tokens: nat)
    requires |h| >= 1 && tokens <= TokenMax
    ensures var r := Exchange(h, input, Completed(answer, tokens));
      && |r.history| == |h| + 2
      && r.history[..|h|] == h
      && r.history[|h|] == Turn(User, input)
      && r.history[|h| + 1] == Turn(Assistant, Strip(answer))
      && r.reply == Some(Strip(answer))
  {
  }

  /**
   * Over the budget, exactly one pair goes: the length is unchanged, the
   * dropped pair is the oldest one after the system turn, and on a history
   * holding only the system turn it is the pair just added.
   */
  lemma ExchangeOverBudget(h: seq<Turn>, input: string, answer: string, tokens: nat)
    requires |h| >= 1 && tokens > TokenMax
    ensures var r := Exchange(h, input, Completed(answer, tokens));
      var added := [Turn(User, input), Turn(Assistant, Strip(answer))];
      && |r.history| == |h|
      && r.history == [h[0]] + (h[1..] + added)[2..]
      && (|h| >= 3 ==> r.history == [h[0]] + h[3..] + added)
      && (|h| == 1 ==> r.history == h)
      && r.reply == Some(Strip(answer))
  {
    var added := [Turn(User, input), Turn(Assistant, Strip(answer))];
    var grown := h + added;
    assert grown == [h[0]] + (h[1..] + added);
    assert grown[3..] == (h[1..] + added)[2..];
    if |h| >= 3 {
      assert (h[1..] + added)[2..] == h[3..] + added;
    }
  }

  /**
   * The tail of the history after an exchange is a suffix of the old tail
   * followed by the turns just added: eviction only ever drops the oldest
   * turns, never reorders or rewrites one.
   */
  lemma ExchangeTailIsSuffix(h: seq<Turn>, input: string, outcome: BackendOutcome)
    requires |h| >= 1
    ensures var r := Exchange(h, input, outcome);
      var added := if outcome.Completed? then [Turn(User, input), Turn(Assistant, Strip(outcome.answer))] else [];
      IsSuffix(r.history[1..], h[1..] + added)
  {
    var r := Exchange(h, input, outcome);
    if outcome.Completed? {
      var added := [Turn(User, input), Turn(Assistant, Strip(outcome.answer))];
      var grown := h + added;
      assert grown[1..] == h[1..] + added;
      if outcome.totalTokens > TokenMax {
        assert r.history[1..] == grown[3..];
        assert (h[1..] + added)[2..] == grown[3..];
      }
    } else {
      assert h[1..] + [] == h[1..];
    }
  }

  ghost predicate IsSuffix(a: seq<Turn>, b: seq<Turn>) {
    |a| <= |b| && a == b[|b| - |a|..]
  }

  /**
   * The process-wide message list and the operation that extends it. The
   * list is a `seq` field that the method reassigns by the same steps as the
   * source: append, then delete the last turn or append again and pop index
   * 1 twice.
   */
  class DialogueManager {
    const prompt: string
    var messages: seq<Turn>

    ghost predicate Valid()
      reads this
    {
      ValidHistory(messages, prompt)
    }

    /** The list starts as the system turn alone. */
    constructor (prompt: string)
      ensures Valid()
      ensures this.prompt == prompt && messages == [Turn(System, prompt)]
    {
      this.prompt := prompt;
      messages := [Turn(System, prompt)];
    }

    /**
     * One call of the chat stage's response generator, with `call` the
     * number of calls before this one: the backend sees the history with the
     * new user turn, and the history afterwards and the reply are those of
     * `Exchange`.
     */
    method GenerateResponse(input: string, backend: Backend, call: nat) returns (reply: Option<string>)
      requires Valid()
      modifies this
      ensures Valid()
      ensures var r := Exchange(old(messages), input, backend(call, old(messages) + [Turn(User, input)]));
        messages == r.history && reply == r.reply
    {
      ghost var h := messages;
      messages := messages + [Turn(User, input)];
      var outcome := backend(call, messages);
      ghost var r := Exchange(h, input, outcome);
      if outcome.Raised? {
        messages := messages[..|messages| - 1];
        assert messages == h == r.history;
        return None;
      }
      var answer := Strip(outcome.answer);
      messages := messages + [Turn(Assistant, answer)];
      assert messages == h + [Turn(User, input), Turn(Assistant, answer)];
      if outcome.totalTokens > TokenMax {
        PopFirstPair(messages);
        messages := PopAt(messages, 1);
        messages := PopAt(messages, 1);
      }
      assert messages == r.history;
      ExchangeKeepsValid(h, prompt, input, outcome);
      return Some(answer);
    }
  }
}
