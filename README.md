# Voice-chat agent: capture stage and dialogue stage

This project models two small line-oriented programs that are joined by a pipe.

- **Capture stage (`asr.py`).** It waits for a tap on standard input and prints `RECOG_EVENT_START`. It then records audio frames until a second tap. Finally it flattens the frames, transcribes them, prints `RECOG_EVENT_STOP|<text>` and clears the frame queue.
- **Dialogue stage (`chatgpt.py`).** It strips each input line and stops on a blank line. It sends the text of each `RECOG_EVENT_STOP|` record to a chat backend through a process-wide history. The history starts with the system turn. It gains a user turn and an assistant turn for each successful call and is rolled back when the backend raises. When the reported usage exceeds 3000 tokens it loses its oldest pair. Each reply is split by the pattern `^.*(\w+) +(.*)$` into an emotion digit and a spoken text. The stage prints an optional `MOTION_ADD|…` command and then a `SYNTH_START|…` command.

Modules:

- `Wrappers`: the `Option` and `Result` types.
- `PyStr`: the parts of Python's string behaviour the programs use.
  - `str.strip`, `lstrip` and `rstrip`, over the `isspace` set.
  - The `\w` class.
  - `int` applied to decimal digits.
- `Protocol`: the record formats and the `^TAG(.*)$` pattern. It also gives how the dialogue stage reads a line and which lines end a wait for a tap.
- `Dialogue`:
  - `Exchange`, one call's effect on the history, as a value.
  - The `DialogueManager` class. It holds the message list as a `seq` field. Its `GenerateResponse` method appends, deletes and pops in the same steps as the source.
- `Router`: the reply pattern, written as the greedy match that backtracking finds. It also holds `int`, the ten-entry emotion table and record formatting.
- `ChatTurn`: one iteration of the dialogue stage's loop, as a function.
- `ChatRun`: the whole run of that loop, as a function over the input lines.
- `ChatMain`:
  - `RunChat`, the loop itself as a `while` loop over a `DialogueManager`, proved equal to the run function.
  - Lemmas about every run.
- `Capture`:
  - The `CaptureController` class, with a phase, a frame buffer and the log of printed records.
  - `WaitForTap`.
  - The capture loop `RunCapture`, proved equal to the run function `CaptureSession`.
  - Lemmas about every run.
- `Pipeline`: what the dialogue stage does with the capture stage's output.

External behaviour is represented by parameters, and nothing is assumed about them:

- **The chat backend.** It is a function `Backend` from the call number and the history sent to an outcome: an answer with its token usage, or one of the three caught exceptions.
- **The recogniser.** It is a function `transcribe` from samples to text. Samples are of an opaque type `S`.
- **The microphone.** It is a function `device` giving the frames captured during the n-th recording.
- **The system prompt.** It is a parameter.

In both programs, an exception that ends the process is modelled as a stop reason (`ChatStop`, `CaptureStop`). This covers:

- input running out (`input()` raises `EOFError`);
- a failed backend call, whose `None` reaches `re.findall`;
- an emotion token that `int` rejects;
- a recording with no frames, where `np.concatenate` of an empty list raises.

In these places the model follows the code:

- Index 3 of the emotion table is `03_smile.vmd` and index 4 is `08_surprise.vmd`, as in the source table.
- A malformed emotion token does not fall back to speaking the whole reply. `int` raises and the loop ends (the `BadEmotion` stop).
- An empty frame queue at stop time raises, so no stop record is printed, rather than transcribing an empty recording.
- The three backend exceptions are handled identically: roll back and return `None`.

The reply pattern's leading `.*` is greedy, so the captured token is always the single word character just before the last run of spaces that follows a word character. For example, `"12 hi"` selects index 2 and `"hello world"` captures `o`. The model states this as it is written.

## Model

| member | source | states |
|---|---|---|
| PyStr.IsSpace | chatgpt.py:90 | the characters `str.isspace` accepts, the set `strip` removes: the ASCII controls 9 to 13 and 28 to 31, the space, and the Unicode spaces and separators |
| PyStr.LStrip | chatgpt.py:90 | `lstrip`: drops the leading whitespace and never lengthens the string |
| PyStr.RStrip | chatgpt.py:90 | `rstrip`: drops the trailing whitespace and never lengthens the string |
| PyStr.Strip | chatgpt.py:90 | `strip`, as `rstrip` after `lstrip`; it never lengthens the line |
| PyStr.LStripSpec | chatgpt.py:90 | `lstrip` keeps a suffix, removes only whitespace characters, and what it keeps is empty or starts with a non-whitespace character |
| PyStr.RStripSpec | chatgpt.py:90 | `rstrip` keeps a prefix, removes only whitespace characters, and what it keeps is empty or ends with a non-whitespace character |
| PyStr.StripSpec | chatgpt.py:90 | `strip` keeps a contiguous piece of the line; everything before and after it is whitespace; neither of its ends is whitespace; the result is empty exactly when the line is all whitespace |
| PyStr.StripIdempotent | chatgpt.py:90 | stripping an already stripped line changes nothing |
| PyStr.StripSolidStart | chatgpt.py:90 | a line that does not start with whitespace loses only its trailing whitespace |
| PyStr.RStripAfterSolidPrefix | chatgpt.py:90 | `rstrip` cannot remove anything from a prefix that ends in a non-whitespace character |
| PyStr.RStripKeepsAbsent | chatgpt.py:90 | a character absent from a string is absent after `rstrip` |
| PyStr.IsWordChar | chatgpt.py:99 | the `\w` class: ASCII letters, digits and underscore, and every non-ASCII character that is not whitespace |
| PyStr.ParseInt | chatgpt.py:103 | `int` of a non-empty string of ASCII digits is its decimal value; any other string raises (`None`) |
| PyStr.ParseIntOneChar | chatgpt.py:103 | `int` of a one-character string succeeds exactly on a digit and gives its value, at most 9 |
| Protocol.StopRecord | asr.py:97 | the stop record: `RECOG_EVENT_STOP` and its bar, then the text |
| Protocol.MotionRecord | chatgpt.py:105 | the motion command for an asset path: layer 0, the action slot, played once |
| Protocol.SynthRecord | chatgpt.py:107 | the synthesis command for a text with the fixed voice |
| Protocol.MatchTagged | asr.py:48 | a capture of `^TAG(.*)$` holds no newline, and the string is the tag plus the capture, possibly followed by one final newline |
| Protocol.MatchTaggedComplete | chatgpt.py:94 | every string of that shape is matched, with exactly that capture |
| Protocol.MatchTaggedOnStripped | chatgpt.py:90-95 | on a stripped line the pattern matches if and only if the line starts with the tag and holds no newline, and the capture is the rest of the line |
| Protocol.ReadChatLine | chatgpt.py:90-95 | a line ends the session if and only if it strips to nothing; it is an utterance if and only if its stripped form starts with the stop tag `RECOG_EVENT_STOP` and its bar, and has no newline; the utterance is the stripped line after the tag |
| Protocol.EndsTapWait | asr.py:44-50 | whether a line ends a wait for a tap: it strips to nothing, or the stripped line matches the tap pattern |
| Protocol.EndsTapWaitMeaning | asr.py:44-50 | a line ends a wait for a tap if and only if it strips to nothing or starts, once stripped, with the tap tag `TAPPED` and its bar, and has no newline, whatever the id |
| Protocol.StripStopRecord | chatgpt.py:90 | stripping a stop record removes only the trailing whitespace of its text, never the tag |
| Protocol.StopTaggedNotBlank | chatgpt.py:90-92 | a line that starts with the stop tag never ends the session |
| Protocol.StopRecordRoundTrip | asr.py:97 | the record printed for a text without a newline is read by the dialogue stage as that text with only its trailing whitespace removed |
| Protocol.ReadStoppedLine | chatgpt.py:93-97 | a line that strips to the stop tag plus a text without a newline yields that text verbatim as the utterance |
| Protocol.StartRecordIgnored | chatgpt.py:94-95 | the dialogue stage skips the start record |
| Dialogue.ValidHistory | chatgpt.py:45-83 | the shape of every history: the system turn with the prompt, then user and assistant turns alternating, user first, so the length is odd |
| Dialogue.PopAt | chatgpt.py:82 | `pop(i)` leaves one element fewer |
| Dialogue.PopFirstPair | chatgpt.py:82-83 | popping index 1 twice removes exactly the two turns after the first |
| Dialogue.Exchange | chatgpt.py:53-84 | one call keeps at least the old length of the history, grows it by at most two turns, and keeps its first turn |
| Dialogue.ExchangeKeepsValid | chatgpt.py:45-83 | every call keeps the history's shape: the system turn first, then user and assistant turns alternating in whole pairs, so the length is odd and `pop(1)` twice is always safe |
| Dialogue.ExchangeRollsBack | chatgpt.py:53-71 | on any of the three backend exceptions the history is exactly as before and there is no reply |
| Dialogue.ExchangeWithinBudget | chatgpt.py:73-84 | within 3000 tokens the history is the old history, then the user turn with the input, then the assistant turn with the stripped answer, and the stripped answer is returned |
| Dialogue.ExchangeOverBudget | chatgpt.py:79-83 | over 3000 tokens the history is the system turn followed by (old tail + new pair) without its first two turns; the length is unchanged; from the system turn alone the new pair itself is dropped |
| Dialogue.ExchangeTailIsSuffix | chatgpt.py:79-83 | after any call the turns after the system turn are a suffix of the old ones followed by the new pair: eviction removes only the oldest turns |
| Dialogue.DialogueManager.constructor | chatgpt.py:45 | the list starts as the system turn alone, which is a valid history |
| Dialogue.DialogueManager.GenerateResponse | chatgpt.py:48-84 | appending, calling the backend and then deleting, or appending and popping index 1 twice, leaves the history and reply that `Exchange` gives, and keeps the history valid |
| Router.EmotionTable | chatgpt.py:30-41 | the emotion table has ten entries, all motion assets; index 3 is `03_smile.vmd` and index 4 is `08_surprise.vmd` |
| Router.BeforeEndAnchor | chatgpt.py:99 | the part of a reply that `.*` patterns ending in `$` must cover: the reply without one final newline |
| Router.LastWordBeforeSpace | chatgpt.py:99 | finds the last position below the bound where a word character is followed by a space, or reports that there is none |
| Router.LastWordBeforeSpaceAt | chatgpt.py:99 | the position is determined by that description |
| Router.SpaceRunEnd | chatgpt.py:99 | the end of the maximal run of spaces starting at a position |
| Router.MatchEndsWithWordBeforeSpace | chatgpt.py:99 | in every way `.*(\w+) +(.*)` can cover a line, the word group ends with a word character followed by a space |
| Router.LastWordBeforeSpaceIsGreedy | chatgpt.py:99 | with no newline in the line, the one-character group at the last word-before-space position, followed by the whole run of spaces, is the match with the longest `.*`, then the longest `\w+`, then the longest ` +` |
| Router.GreedyMatch | chatgpt.py:99 | returns the match that backtracking finds first, whose word group is a single character, or reports that no match exists |
| Router.SplitReply | chatgpt.py:99 | the two groups `re.findall` returns for the reply pattern: the single word character and the text after the spaces, or no match |
| Router.Route | chatgpt.py:99-107 | the records printed for a reply: with no match the synthesis command for the whole reply; with a match whose token `int` accepts and the table holds, the motion command for that entry and the synthesis command for the rest; otherwise the error that ends the loop |
| Router.GreedyMatchUnique | chatgpt.py:99 | the greedy match is unique |
| Router.RouteMatched | chatgpt.py:99-107 | on a match, a digit selects the motion command for that table entry, followed by the synthesis command for the text after the spaces; any other word character makes `int` raise |
| Router.RouteUnmatched | chatgpt.py:99-107 | the pattern fails if and only if no match exists, and then only the synthesis command for the whole reply is printed |
| Router.RouteWithNewline | chatgpt.py:99-107 | a reply with a newline before its last character is spoken whole |
| Router.RouteIndexInRange | chatgpt.py:30-41 | the table lookup never fails: any token `int` accepts is a single digit and the table has ten entries |
| Router.RouteDigitThenText | chatgpt.py:99-107 | a digit, a space and a text without spaces or newlines selects that digit's motion and speaks the text |
| Router.RouteExampleSmile | chatgpt.py:99-107 | `"3 やったね！"` gives `03_smile.vmd` and then speaks `やったね！` |
| Router.RouteExampleLastDigit | chatgpt.py:99-107 | `"12 hi"` captures `2`, selects `02_laugh.vmd` and speaks `hi` |
| Router.RouteExampleLastSpace | chatgpt.py:99-103 | `"3 a b"` captures `a`, and `int` raises |
| Router.RouteExampleWords | chatgpt.py:99-103 | `"hello world"` captures `o`, and `int` raises |
| Router.RouteExampleNoSpace | chatgpt.py:101-107 | `"hello"` does not match and is spoken whole |
| ChatTurn.ChatStep | chatgpt.py:89-107 | one iteration keeps a non-empty history |
| ChatTurn.ChatStepKeepsHistoryValid | chatgpt.py:89-97 | one iteration keeps the history's shape |
| ChatTurn.RouteGivesCommands | chatgpt.py:101-107 | a routed reply prints one or two commands, the last a synthesis command |
| ChatTurn.AppendCommands | chatgpt.py:105-107 | joining the commands of several replies keeps that shape |
| ChatTurn.ChatStepPrintsCommands | chatgpt.py:97-107 | an iteration that continues prints only motion or synthesis commands, the last a synthesis command |
| ChatTurn.ChatStepAtBlank | chatgpt.py:90-92 | a line that strips to nothing stops the loop, printing nothing and leaving the history alone |
| ChatTurn.ChatStepSkips | chatgpt.py:93-95 | a non-blank line that is not a stop record prints nothing, calls no backend and leaves the history alone |
| ChatRun.Session | chatgpt.py:89-107 | the loop from a given line on: the records of each step until a step halts or the input ends, with the history and call count threaded through |
| ChatRun.ChatSession | chatgpt.py:45-107 | the whole run of the dialogue stage on its input lines, from the history holding only the system turn |
| ChatMain.HandleLine | chatgpt.py:90-107 | the loop body on the manager has the effect `ChatStep` gives, and the manager's history is the step's |
| ChatMain.RunChat | chatgpt.py:87-107 | the loop prints exactly the records, leaves exactly the history and stops for exactly the reason that `ChatSession` gives |
| ChatMain.SessionKeepsHistoryValid | chatgpt.py:89-97 | the history keeps its shape across any number of iterations |
| ChatMain.ChatSessionKeepsHistoryValid | chatgpt.py:45-97 | after any run, the first turn of the history is the system turn, and the turns after it alternate user and assistant in whole pairs |
| ChatMain.SessionPrintsCommands | chatgpt.py:89-107 | across any number of iterations only commands are printed, the last a synthesis command |
| ChatMain.ChatSessionPrintsCommands | chatgpt.py:89-107 | the whole output of any run consists of motion and synthesis commands and ends with a synthesis command |
| ChatMain.SessionBlankStop | chatgpt.py:89-92 | the loop stops on a blank line only if it has read one |
| ChatMain.SessionStopsAtEnd | chatgpt.py:89-92 | nothing after a line that ends the session affects the run |
| ChatMain.ChatSessionStopsAtBlank | chatgpt.py:89-92 | a run on input with a blank line is the run on the input cut just after that line |
| Capture.Flatten | asr.py:92 | the frames of a recording joined in capture order |
| Capture.FlattenAppend | asr.py:92 | flattening distributes over joining frame sequences |
| Capture.FlattenUniformLength | asr.py:92 | n frames of length L flatten to n × L samples |
| Capture.FlattenAt | asr.py:92 | every sample keeps its place: sample j of frame i follows all samples of the earlier frames |
| Capture.FirstTap | asr.py:43-50 | a wait that ends continues reading after the line it started from |
| Capture.FirstTapSpec | asr.py:43-50 | the wait ends just after the first marked line, and runs out of input only when no line is marked |
| Capture.WaitEndsAtFirstTap | asr.py:42-50 | a wait for a tap ends on the first line that strips to nothing or is a tap record, having skipped every line before it; it runs out of input only when there is no such line |
| Capture.WaitForTap | asr.py:42-50 | the loop reads on from exactly the line after the first line that ends the wait, or reports that input ran out |
| Capture.CaptureController.constructor | asr.py:15-16 | the controller starts idle with an empty queue and nothing printed |
| Capture.CaptureController.StartRecording | asr.py:75-77 | recording starts only from idle, with an empty queue, and the start record is printed |
| Capture.CaptureController.AppendFrame | asr.py:23 | a frame is queued at the end of the queue, and only while recording |
| Capture.CaptureController.StopRecording | asr.py:88-101 | recording stops; with frames queued, the transcription of exactly the queued frames in order is printed as a stop record and the queue is cleared; with none queued, nothing is printed and the process stops |
| Capture.CaptureFrames | asr.py:23-25 | queues the recording's frames in the order they were captured |
| Capture.EpisodeAt | asr.py:71-101 | a completed pass prints the start record and then the stop record for the transcription of its own frames, which were not empty, and moves on in the input; a pass that ends prints nothing, or the start record only |
| Capture.RunEpisode | asr.py:72-101 | one pass on the controller prints the records `EpisodeAt` gives, and a completed pass leaves the controller idle and valid |
| Capture.RunCapture | asr.py:71-101 | the loop prints exactly the records and stops for exactly the reason that `CaptureSession` gives |
| Capture.CaptureFrom | asr.py:71-101 | the capture loop from a given line and recording on: the records of each completed pass until a pass ends the loop |
| Capture.CaptureSession | asr.py:71-101 | the whole run of the capture stage on its input lines, recording `device(n)` during pass n |
| Capture.CaptureFromShape | asr.py:71-101 | from any point, the runs' records alternate start and stop, and each stop carries the text of its own recording |
| Capture.CaptureSessionShape | asr.py:71-101 | record 2n is the start record of recording n; record 2n+1 is the stop record for the transcription of exactly recording n's frames, which were not empty; a run that stops on an empty recording has printed that recording's start record last |
| Capture.CaptureSessionAlternates | asr.py:71-97 | the records of any run strictly alternate start and stop, beginning with start |
| Pipeline.CaptureRecordsReadByChat | asr.py:75-97 | the dialogue stage skips every start record of a capture run, and reads each stop record whose text holds no newline as that text without its trailing whitespace |
| Pipeline.ChatOnCaptureNeverStopsAtBlank | chatgpt.py:89-92 | when no transcription holds a newline or carriage return, the dialogue stage fed the capture stage's output never stops on a blank line |

## Left out

- The OpenAI client and its HTTP call (chatgpt.py:56-58) are replaced by the `Backend` parameter. The API key and the model names are not modelled.
- The Whisper model and its loading (asr.py:53-57, 68) are replaced by the `transcribe` parameter. Sample values and their float32 type are opaque.
- The sound device stream, its callback thread, the `recording` polling loop and `join` (asr.py:21-25, 77-89) are sequential in the model.
  - The frames of the n-th recording, `device(n)`, are queued by `AppendFrame` between the start record and the second wait.
  - Frames the real callback might add while the second wait runs are part of `device(n)`.
- Capture.CaptureController.StopRecording: the order inside the stop step (clear the flag, join, transcribe, print) is not observable in a sequential model. Only the results are stated.
- The dead functions `save_audio_to_file`, `wait_for_start` and `wait_for_end` (asr.py:28-39, 60-61) are not modelled.
- These have no effect on the records and are not modelled:
  - the debug prints to standard error;
  - the UTF-8 reconfiguration of the standard streams;
  - the prompt strings passed to `input`.
- The system prompt text is a parameter, not the fixed Japanese text.
- The pipe is modelled record by record: the dialogue stage receives each printed record as one line. That matches the real pipe only when a record holds no line break. A transcription holding a newline or a carriage return would be split into several lines by `input()`, which translates `\r` and `\r\n` to `\n`. An empty piece of such a split, as in the text `"a\n"`, ends the dialogue stage at chatgpt.py:91-92. `Pipeline.ChatOnCaptureNeverStopsAtBlank` therefore assumes transcriptions without line breaks. Lines read by either stage are otherwise arbitrary strings.
- PyStr.IsWordChar: `\w` is exact on ASCII. Every non-ASCII character that is not whitespace counts as a word character, a superset of Python's Unicode word class. So the model can capture a character Python would skip. For the reply `"3 a！ b"` the model captures `！`, and `int` raises. Python's `\w` rejects `！`, so the match falls on `3`: it prints the `03_smile.vmd` motion and speaks `a！ b`.
- PyStr.ParseInt: accepts ASCII digits only. Python's `int` also takes signs, surrounding whitespace, underscores and every Unicode decimal digit. Signs, whitespace and underscores cannot matter, because the captured token is one word character. Non-ASCII digits do matter. For the reply `"３ hi"` (a full-width three), Python's `int` gives 3, so the source prints the `03_smile.vmd` motion and speaks `hi`. The model's `Route` gives `NotAnInteger("３")`, a `BadEmotion` stop.
- A backend answer whose content is `None` (where `.strip()` would raise) is not modelled; answers are strings.
- After input runs out during a recording, the source's process hangs on the still-running thread instead of exiting. The model just stops with `InputEnded`.
- The process-wide message list is modelled as one `DialogueManager` object created by `RunChat`.
