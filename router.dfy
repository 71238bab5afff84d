/**
 * The reply router of the chat stage. The reply is matched against
 * `^.*(\w+) +(.*)$`; on a match the first group goes through `int` and picks
 * a motion asset, and the second group is spoken. Without a match the whole
 * reply is spoken.
 */
module Router {
  import opened Wrappers
  import opened PyStr
  import opened Protocol

  /** The motion assets by emotion index. */
  const EmotionList: seq<string> := [
    "gene/motion/00_normal.vmd",
    "gene/motion/01_happy.vmd",
    "gene/motion/02_laugh.vmd",
    "gene/motion/03_smile.vmd",
    "gene/motion/08_surprise.vmd",
    "gene/motion/21_disgust.vmd",
    "gene/motion/25_sharpeyessuspicion.vmd",
    "gene/motion/32_frustrated.vmd",
    "gene/motion/33_angry.vmd",
    "gene/motion/34_sad.vmd"
  ]

  /** Ten motions, one per decimal digit; index 3 is the smile and index 4 the surprise. */
  lemma EmotionTable()
    ensures |EmotionList| == 10
    ensures forall d :: 0 <= d < |EmotionList| ==> "gene/motion/" <= EmotionList[d]
    ensures EmotionList[3] == "gene/motion/03_smile.vmd" && EmotionList[4] == "gene/motion/08_surprise.vmd"
  {
  }

  /** The text a pattern ending in `$` has to cover: `$` also matches just before a final newline. */
  function BeforeEndAnchor(s: string): string {
    if |s| > 0 && s[|s| - 1] == '\n' then s[..|s| - 1] else s
  }

  /**
   * One way for `.*(\w+) +(.*)` to cover all of `t`: `.*` takes `t[..k]`,
   * `\w+` takes `t[k..j]`, ` +` takes `t[j..m]` and the last `.*` the rest.
   * Neither `.*` can take a newline.
   */
  ghost predicate IsMatch(t: string, k: int, j: int, m: int) {
    && 0 <= k < j < m <= |t|
    && '\n' !in t
    && (forall i :: k <= i < j ==> IsWordChar(t[i]))
    && (forall i :: j <= i < m ==> t[i] == ' ')
  }

  ghost predicate LexAtMost(k: int, j: int, m: int, k': int, j': int, m': int) {
    k < k' || (k == k' && (j < j' || (j == j' && m <= m')))
  }

  /**
   * The match that backtracking finds first. Every quantifier is greedy, so
   * it is the one whose `.*` is longest, then whose `\w+` is longest, then
   * whose ` +` is longest.
   */
  ghost predicate IsGreedyMatch(t: string, k: int, j: int, m: int) {
    IsMatch(t, k, j, m)
    && forall k', j', m' :: IsMatch(t, k', j', m') ==> LexAtMost(k', j', m', k, j, m)
  }

  /** `t[k]` is a word character and a space follows it. */
  predicate WordBeforeSpace(t: string, k: nat) {
    k + 1 < |t| && IsWordChar(t[k]) && t[k + 1] == ' '
  }

  /** The last position below `n` where a word character precedes a space. */
  function LastWordBeforeSpace(t: string, n: nat): (r: Option<nat>)
    requires n <= |t|
    ensures r.Some? ==> r.value < n && WordBeforeSpace(t, r.value)
    ensures r.Some? ==> forall k :: r.value < k < n ==> !WordBeforeSpace(t, k)
    ensures r.None? ==> forall k :: 0 <= k < n ==> !WordBeforeSpace(t, k)
  {
    if n == 0 then None
    else if WordBeforeSpace(t, n - 1) then Some(n - 1)
    else LastWordBeforeSpace(t, n - 1)
  }

  /** The position found is the only one the contract allows. */
  lemma {:induction false} LastWordBeforeSpaceAt(t: string, n: nat, k: nat)
    requires k < n <= |t| && WordBeforeSpace(t, k)
    requires forall p :: k < p < n ==> !WordBeforeSpace(t, p)
    ensures LastWordBeforeSpace(t, n) == Some(k)
    decreases n
  {
    if k < n - 1 {
      LastWordBeforeSpaceAt(t, n - 1, k);
    }
  }

  /** The end of the run of spaces that starts at `i`. */
  function SpaceRunEnd(t: string, i: nat): (m: nat)
    requires i <= |t|
    ensures i <= m <= |t|
    ensures forall p :: i <= p < m ==> t[p] == ' '
    ensures m == |t| || t[m] != ' '
    decreases |t| - i
  {
    if i < |t| && t[i] == ' ' then SpaceRunEnd(t, i + 1) else i
  }

  /** In every match, the last character of the word group is a word character followed by a space. */
  lemma MatchEndsWithWordBeforeSpace(t: string, k: int, j: int, m: int)
    requires IsMatch(t, k, j, m)
    ensures k <= j - 1 && WordBeforeSpace(t, j - 1)
  {
    assert IsWordChar(t[j - 1]);
    assert t[j] == ' ';
  }

  lemma LastWordBeforeSpaceIsGreedy(t: string, k: nat)
    requires '\n' !in t
    requires k < |t| && WordBeforeSpace(t, k)
    requires forall p :: k < p < |t| ==> !WordBeforeSpace(t, p)
    ensures IsGreedyMatch(t, k, k + 1, SpaceRunEnd(t, k + 1))
  {
    var m := SpaceRunEnd(t, k + 1);
    assert IsMatch(t, k, k + 1, m);
    forall k', j', m' | IsMatch(t, k', j', m')
      ensures LexAtMost(k', j', m', k, k + 1, m)
    {
      MatchEndsWithWordBeforeSpace(t, k', j', m');
      if k' == k {
        assert j' == k + 1;
      }
    }
  }

  /**
   * The match of `.*(\w+) +(.*)` on a text without its final newline, as
   * positions `(k, j, m)`: it is the first match backtracking finds, and its
   * word group is always a single character. `None` when there is no match.
   */
  function GreedyMatch(t: string): (r: Option<(nat, nat, nat)>)
    ensures r.Some? ==> IsGreedyMatch(t, r.value.0, r.value.1, r.value.2) && r.value.1 == r.value.0 + 1
    ensures r.None? ==> forall k, j, m :: !IsMatch(t, k, j, m)
  {
    if '\n' in t then None
    else
      match LastWordBeforeSpace(t, |t|)
      case Some(k) =>
        LastWordBeforeSpaceIsGreedy(t, k);
        Some((k, k + 1, SpaceRunEnd(t, k + 1)))
      case None =>
        assert forall k, j, m :: !IsMatch(t, k, j, m) by {
          forall k, j, m | IsMatch(t, k, j, m) ensures false {
            MatchEndsWithWordBeforeSpace(t, k, j, m);
          }
        }
        None
  }

  /** `re.findall('^.*(\w+) +(.*)$', s)`: the two groups of the match, if there is one. */
  function SplitReply(s: string): Option<(string, string)> {
    var t := BeforeEndAnchor(s);
    match GreedyMatch(t)
    case None => None
    case Some((k, j, m)) => Some((t[k..j], t[m..]))
  }

  /** Two greedy matches of the same text are the same match. */
  lemma GreedyMatchUnique(t: string, k: int, j: int, m: int, k': int, j': int, m': int)
    requires IsGreedyMatch(t, k, j, m) && IsGreedyMatch(t, k', j', m')
    ensures k == k' && j == j' && m == m'
  {
    assert LexAtMost(k, j, m, k', j', m');
    assert LexAtMost(k', j', m', k, j, m);
  }

  /** Why the router gave up on a reply: `int` raised, or the index fell outside the table. */
  datatype RouteError = NotAnInteger(token: string) | IndexOutOfRange(index: nat)

  /** The records the chat stage prints for a reply, or the exception that stops it first. */
  function Route(reply: string): Result<seq<string>, RouteError> {
    match SplitReply(reply)
    case None => Success([SynthRecord(reply)])
    case Some((token, rest)) =>
      match ParseInt(token)
      case None => Failure(NotAnInteger(token))
      case Some(d) =>
        if d < |EmotionList| then Success([MotionRecord(EmotionList[d]), SynthRecord(rest)])
        else Failure(IndexOutOfRange(d))
  }

  /**
   * When the pattern matches, the router's output is fixed by the greedy
   * match: a digit before the last run of spaces picks the motion at that
   * index and the text after the spaces is spoken; any other word character
   * there makes `int` raise.
   */
  lemma RouteMatched(reply: string, k: int, j: int, m: int)
    requires IsGreedyMatch(BeforeEndAnchor(reply), k, j, m)
    ensures j == k + 1
    ensures var t := BeforeEndAnchor(reply);
      if IsDigit(t[k]) then
        Route(reply) == Success([MotionRecord(EmotionList[t[k] as int - '0' as int]), SynthRecord(t[m..])])
      else
        Route(reply) == Failure(NotAnInteger([t[k]]))
  {
    var t := BeforeEndAnchor(reply);
    var g := GreedyMatch(t);
    assert g.Some?;
    GreedyMatchUnique(t, k, j, m, g.value.0, g.value.1, g.value.2);
    assert t[k..j] == [t[k]];
    ParseIntOneChar([t[k]]);
  }

  /** Without a match, and only then, the whole reply is spoken and nothing else is printed. */
  lemma RouteUnmatched(reply: string)
    ensures SplitReply(reply).None? <==> forall k, j, m :: !IsMatch(BeforeEndAnchor(reply), k, j, m)
    ensures SplitReply(reply).None? ==> Route(reply) == Success([SynthRecord(reply)])
  {
    var t := BeforeEndAnchor(reply);
    var g := GreedyMatch(t);
    if g.Some? {
      assert IsMatch(t, g.value.0, g.value.1, g.value.2);
    }
  }

  /** A reply with a newline anywhere but at its very end is spoken whole. */
  lemma RouteWithNewline(reply: string)
    requires '\n' in BeforeEndAnchor(reply)
    ensures Route(reply) == Success([SynthRecord(reply)])
  {
    RouteUnmatched(reply);
  }

  /**
   * The index lookup never fails: the captured token is one character, `int`
   * accepts only a digit there, and the table has ten entries.
   */
  lemma RouteIndexInRange(reply: string)
    ensures !(Route(reply).Failure? && Route(reply).error.IndexOutOfRange?)
  {
    var t := BeforeEndAnchor(reply);
    var g := GreedyMatch(t);
    if g.Some? {
      var (k, j, m) := g.value;
      assert t[k..j] == [t[k]];
      ParseIntOneChar([t[k]]);
    }
  }

  /**
   * The usual shape of a reply: a digit, one space, then text with no space
   * and no newline. The digit picks the motion and the text is spoken.
   */
  lemma RouteDigitThenText(d: char, text: string)
    requires IsDigit(d) && ' ' !in text && '\n' !in text
    ensures Route([d, ' '] + text)
      == Success([MotionRecord(EmotionList[d as int - '0' as int]), SynthRecord(text)])
  {
    var t := [d, ' '] + text;
    assert WordBeforeSpace(t, 0);
    assert forall p :: 1 < p < |t| ==> t[p] == text[p - 2];
    LastWordBeforeSpaceAt(t, |t|, 0);
    assert SpaceRunEnd(t, 1) == 2;
    assert '\n' !in t;
    assert BeforeEndAnchor(t) == t;
    assert t[0..1] == [d] && t[2..] == text;
    ParseIntOneChar([d]);
  }

  /** The reply of the smile example: digit 3 selects `03_smile.vmd`. */
  lemma RouteExampleSmile()
    ensures Route("3 \U{3084}\U{3063}\U{305F}\U{306D}\U{FF01}")
      == Success([MotionRecord("gene/motion/03_smile.vmd"),
                  SynthRecord("\U{3084}\U{3063}\U{305F}\U{306D}\U{FF01}")])
  {
    var text := "\U{3084}\U{3063}\U{305F}\U{306D}\U{FF01}";
    assert ' ' !in text && '\n' !in text;
    RouteDigitThenText('3', text);
    assert EmotionList['3' as int - '0' as int] == "gene/motion/03_smile.vmd";
    assert ['3', ' '] + text == "3 \U{3084}\U{3063}\U{305F}\U{306D}\U{FF01}";
  }

  /** Only the digit just before the space is captured: "12 hi" selects index 2. */
  lemma RouteExampleLastDigit()
    ensures Route("12 hi") == Success([MotionRecord("gene/motion/02_laugh.vmd"), SynthRecord("hi")])
  {
    var t := "12 hi";
    assert BeforeEndAnchor(t) == t && '\n' !in t;
    assert WordBeforeSpace(t, 1);
    assert forall p :: 1 < p < |t| ==> !WordBeforeSpace(t, p);
    LastWordBeforeSpaceIsGreedy(t, 1);
    assert SpaceRunEnd(t, 2) == 3;
    RouteMatched(t, 1, 2, 3);
    assert t[3..] == "hi";
  }

  /** The last run of spaces decides: "3 a b" captures "a", and `int` raises. */
  lemma RouteExampleLastSpace()
    ensures Route("3 a b") == Failure(NotAnInteger("a"))
  {
    var t := "3 a b";
    assert BeforeEndAnchor(t) == t && '\n' !in t;
    assert WordBeforeSpace(t, 2);
    assert forall p :: 2 < p < |t| ==> !WordBeforeSpace(t, p);
    LastWordBeforeSpaceIsGreedy(t, 2);
    assert SpaceRunEnd(t, 3) == 4;
    RouteMatched(t, 2, 3, 4);
  }

  /** Words without a digit: "hello world" captures "o", and `int` raises. */
  lemma RouteExampleWords()
    ensures Route("hello world") == Failure(NotAnInteger("o"))
  {
    var t := "hello world";
    assert BeforeEndAnchor(t) == t && '\n' !in t;
    assert WordBeforeSpace(t, 4);
    assert forall p :: 4 < p < |t| ==> !WordBeforeSpace(t, p) by {
      assert forall p :: 5 < p < |t| ==> t[p] != ' ';
    }
    LastWordBeforeSpaceIsGreedy(t, 4);
    assert SpaceRunEnd(t, 5) == 6;
    RouteMatched(t, 4, 5, 6);
  }

  /** A reply without a space does not match and is spoken whole. */
  lemma RouteExampleNoSpace()
    ensures Route("hello") == Success([SynthRecord("hello")])
  {
    var u := "hello";
    assert BeforeEndAnchor(u) == u;
    assert forall p :: 0 <= p < |u| ==> !WordBeforeSpace(u, p);
    assert LastWordBeforeSpace(u, |u|).None?;
  }
}
