/**
 * The line protocol between the capture stage, the dialogue stage and the
 * downstream synthesis and motion consumers: the records each stage writes
 * and the way each stage classifies a line it reads.
 */
module Protocol {
  import opened Wrappers
  import opened PyStr

  const RecogStart: string := "RECOG_EVENT_START"
  const RecogStopTag: string := "RECOG_EVENT_STOP|"
  const TappedTag: string := "TAPPED|"

  /** The record the capture stage writes once an utterance is transcribed. */
  function StopRecord(text: string): string {
    RecogStopTag + text
  }

  /** The motion command: play the asset at `path` once on the action layer. */
  function MotionRecord(path: string): string {
    "MOTION_ADD|0|action|" + path + "|PART|ONCE"
  }

  /** The speech-synthesis command for `text` with the fixed voice. */
  function SynthRecord(text: string): string {
    "SYNTH_START|0|mei_voice_normal|" + text
  }

  /**
   * What `re.findall('^' + tag + '(.*)$', s)` captures, if anything. `.`
   * does not match a newline, and `$` matches at the end of `s` or just
   * before a newline that is its last character.
   */
  function MatchTagged(tag: string, s: string): (r: Option<string>)
    ensures r.Some? ==> '\n' !in r.value && (s == tag + r.value || s == tag + r.value + "\n")
  {
    if tag <= s && '\n' !in s[|tag|..] then Some(s[|tag|..])
    else if tag <= s && |s| > |tag| && s[|s| - 1] == '\n' && '\n' !in s[|tag|..|s| - 1] then
      assert s == tag + s[|tag|..|s| - 1] + "\n";
      Some(s[|tag|..|s| - 1])
    else None
  }

  /** Every line of the shape the pattern describes is matched, with that capture. */
  lemma MatchTaggedComplete(tag: string, s: string, g: string)
    requires '\n' !in g
    requires s == tag + g || s == tag + g + "\n"
    ensures MatchTagged(tag, s) == Some(g)
  {
    assert tag <= s;
    if s == tag + g {
      assert s[|tag|..] == g;
    } else {
      assert s[|tag|..] == g + "\n";
      assert '\n' in s[|tag|..] by { assert s[|s| - 1] == '\n'; }
      assert s[|tag|..|s| - 1] == g;
    }
  }

  /**
   * On a line that does not end in whitespace, as every stripped line, the
   * pattern matches exactly when the line starts with the tag and holds no
   * newline.
   */
  lemma MatchTaggedOnStripped(tag: string, s: string)
    requires '\n' !in tag
    requires s == [] || !IsSpace(s[|s| - 1])
    ensures MatchTagged(tag, s).Some? <==> (tag <= s && '\n' !in s)
    ensures MatchTagged(tag, s).Some? ==> s == tag + MatchTagged(tag, s).value
  {
    if tag <= s {
      assert s == tag + s[|tag|..];
      assert '\n' in s <==> '\n' in s[|tag|..];
    }
  }

  /** How the dialogue stage reads one input line. */
  datatype ChatLine = EndOfSession | Utterance(text: string) | Ignored

  /**
   * The dialogue stage strips the line; an empty result ends the session, a
   * `RECOG_EVENT_STOP|` record yields its text, anything else is skipped.
   */
  function ReadChatLine(line: string): (r: ChatLine)
    ensures r == EndOfSession <==> Strip(line) == []
    ensures r.Utterance? <==> (Strip(line) != [] && RecogStopTag <= Strip(line) && '\n' !in Strip(line))
    ensures r.Utterance? ==> Strip(line) == RecogStopTag + r.text
  {
    var s := Strip(line);
    if s == [] then EndOfSession
    else
      StripSpec(line);
      MatchTaggedOnStripped(RecogStopTag, s);
      match MatchTagged(RecogStopTag, s)
      case Some(u) => Utterance(u)
      case None => Ignored
  }

  /** Whether a line ends a wait for a tap in the capture stage: it is blank after stripping, or a `TAPPED|` record. */
  predicate EndsTapWait(line: string) {
    var s := Strip(line);
    s == [] || MatchTagged(TappedTag, s).Some?
  }

  /** A tap is recognised whatever its id; any other non-blank line is not one. */
  lemma EndsTapWaitMeaning(line: string)
    ensures EndsTapWait(line) <==> (Strip(line) == [] || (TappedTag <= Strip(line) && '\n' !in Strip(line)))
  {
    StripSpec(line);
    MatchTaggedOnStripped(TappedTag, Strip(line));
  }

  /** Stripping a stop record removes only the trailing whitespace of its text. */
  lemma StripStopRecord(text: string)
    ensures Strip(StopRecord(text)) == RecogStopTag + RStrip(text)
  {
    RStripAfterSolidPrefix(RecogStopTag, text);
    assert StopRecord(text)[0] == 'R';
    StripSolidStart(StopRecord(text));
  }

  /** A line that starts with the stop tag never reads as a blank line, whatever follows the tag. */
  lemma StopTaggedNotBlank(line: string)
    requires RecogStopTag <= line
    ensures ReadChatLine(line) != EndOfSession
  {
    var text := line[|RecogStopTag|..];
    assert line == StopRecord(text);
    StripStopRecord(text);
  }

  /**
   * The round trip between the stages: a stop record whose text has no
   * newline is read by the dialogue stage as that text with only its
   * trailing whitespace removed.
   */
  lemma StopRecordRoundTrip(text: string)
    requires '\n' !in text
    ensures ReadChatLine(StopRecord(text)) == Utterance(RStrip(text))
  {
    StripStopRecord(text);
    RStripKeepsAbsent(text, '\n');
    ReadStoppedLine(StopRecord(text), RStrip(text));
  }

  /** A line that strips to a stop record without a newline is read as that record's text. */
  lemma ReadStoppedLine(line: string, kept: string)
    requires Strip(line) == RecogStopTag + kept
    requires '\n' !in kept
    ensures ReadChatLine(line) == Utterance(kept)
  {
    assert '\n' !in RecogStopTag + kept;
    assert RecogStopTag <= RecogStopTag + kept;
    var r := ReadChatLine(line);
    assert r.text == (RecogStopTag + r.text)[|RecogStopTag|..];
    assert kept == (RecogStopTag + kept)[|RecogStopTag|..];
  }

  /** The start record is not mistaken for an utterance by the dialogue stage. */
  lemma StartRecordIgnored()
    ensures ReadChatLine(RecogStart) == Ignored
  {
    assert RecogStart[14] != RecogStopTag[14];
  }
}
