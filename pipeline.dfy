/**
 * The two stages joined by a pipe: the dialogue stage reads the records the
 * capture stage prints.
 */
module Pipeline {
  import opened PyStr
  import opened Protocol
  import opened Dialogue
  import opened ChatTurn
  import opened ChatRun
  import opened ChatMain
  import opened Capture

  /**
   * The dialogue stage reads every start record of a capture run as a line
   * to skip, and every stop record whose text holds no newline as the
   * utterance of that text less its trailing whitespace.
   */
  lemma CaptureRecordsReadByChat<S>(input: seq<string>, device: nat -> seq<seq<S>>, transcribe: seq<S> -> string)
    ensures var log := CaptureSession(input, device, transcribe).log;
      (forall n :: 0 <= 2 * n < |log| ==> ReadChatLine(log[2 * n]) == Ignored)
      && (forall n :: 0 <= 2 * n + 1 < |log| && '\n' !in transcribe(Flatten(device(n))) ==>
            ReadChatLine(log[2 * n + 1]) == Utterance(RStrip(transcribe(Flatten(device(n))))))
  {
    var log := CaptureSession(input, device, transcribe).log;
    CaptureSessionShape(input, device, transcribe);
    StartRecordIgnored();
    forall n | 0 <= 2 * n + 1 < |log| && '\n' !in transcribe(Flatten(device(n)))
      ensures ReadChatLine(log[2 * n + 1]) == Utterance(RStrip(transcribe(Flatten(device(n)))))
    {
      StopRecordRoundTrip(transcribe(Flatten(device(n))));
    }
  }

  /**
   * Fed the capture stage's output, the dialogue stage never meets a blank
   * line: it ends only when that output ends, a backend call fails, or a
   * reply's emotion token is rejected. This needs every transcription to be
   * free of line breaks: only then is each record one line of the pipe
   * (a break inside a text can put an empty line there).
   */
  lemma ChatOnCaptureNeverStopsAtBlank<S>(prompt: string, input: seq<string>, device: nat -> seq<seq<S>>, transcribe: seq<S> -> string, backend: Backend)
    requires forall n: nat :: '\n' !in transcribe(Flatten(device(n))) && '\r' !in transcribe(Flatten(device(n)))
    ensures ChatSession(prompt, CaptureSession(input, device, transcribe).log, backend).stop != BlankLine
  {
    var log := CaptureSession(input, device, transcribe).log;
    var parsed := ReadLines(log);
    CaptureSessionAlternates(input, device, transcribe);
    StartRecordIgnored();
    forall k | 0 <= k < |log|
      ensures parsed[k] != EndOfSession
    {
      ReadLinesAt(log, k);
      if k % 2 == 1 {
        StopTaggedNotBlank(log[k]);
      }
    }
    SessionBlankStop(parsed, 0, 0, [Turn(System, prompt)], backend);
  }
}
