/**
 * The capture stage: it waits for a tap, announces and records an
 * utterance, waits for a second tap, then transcribes the frames captured
 * in between and announces the text. Samples are of an opaque type `S`,
 * and the speech recogniser is a function `transcribe` from the flattened
 * samples to text.
 */
module Capture {
  import opened Wrappers
  import opened PyStr
  import opened Protocol

  /** The frames of one recording, joined in the order they were captured. */
  function Flatten<S>(frames: seq<seq<S>>): seq<S>
    decreases |frames|
  {
    if |frames| == 0 then [] else Flatten(frames[..|frames| - 1]) + frames[|frames| - 1]
  }

  /** Flattening distributes over joining two runs of frames. */
  lemma {:induction false} FlattenAppend<S>(a: seq<seq<S>>, b: seq<seq<S>>)
    ensures Flatten(a + b) == Flatten(a) + Flatten(b)
    decreases |b|
  {
    if |b| == 0 {
      assert a + b == a;
    } else {
      var b' := b[..|b| - 1];
      assert (a + b)[..|a + b| - 1] == a + b';
      FlattenAppend(a, b');
    }
  }

  /** `n` frames of `len` samples each flatten to `n * len` samples. */
  lemma {:induction false} FlattenUniformLength<S>(frames: seq<seq<S>>, len: nat)
    requires forall i :: 0 <= i < |frames| ==> |frames[i]| == len
    ensures |Flatten(frames)| == |frames| * len
    decreases |frames|
  {
    if |frames| > 0 {
      FlattenUniformLength(frames[..|frames| - 1], len);
    }
  }

  /**
   * Flattening keeps every sample and its place: sample `j` of frame `i`
   * comes right after the samples of the frames before frame `i`.
   */
  lemma FlattenAt<S>(frames: seq<seq<S>>, i: nat, j: nat)
    requires i < |frames| && j < |frames[i]|
    ensures |Flatten(frames[..i])| + j < |Flatten(frames)|
    ensures Flatten(frames)[|Flatten(frames[..i])| + j] == frames[i][j]
  {
    assert frames == frames[..i] + ([frames[i]] + frames[i + 1..]);
    FlattenAppend(frames[..i], [frames[i]] + frames[i + 1..]);
    FlattenAppend([frames[i]], frames[i + 1..]);
    assert Flatten([frames[i]]) == frames[i] by {
      assert [frames[i]][..0] == [];
    }
  }

  /** For each input line, whether it ends a wait for a tap; that depends on the line alone. */
  function TapMarks(input: seq<string>): (marks: seq<bool>)
    ensures |marks| == |input|
    ensures forall i :: 0 <= i < |input| ==> marks[i] == EndsTapWait(input[i])
  {
    seq(|input|, i requires 0 <= i < |input| => EndsTapWait(input[i]))
  }

  /**
   * Where a wait for a tap that starts reading at line `from` ends, given
   * which lines end it: just after the first such line. `None` stands for
   * input running out first, where `input()` raises `EOFError`.
   */
  function FirstTap(marks: seq<bool>, from: nat): (r: Option<nat>)
    ensures r.Some? ==> from < r.value <= |marks|
    decreases |marks| - from
  {
    if from >= |marks| then None
    else if marks[from] then Some(from + 1)
    else FirstTap(marks, from + 1)
  }

  /** The wait ends just after the first marked line, and runs out of input only when no line is marked. */
  lemma {:induction false} FirstTapSpec(marks: seq<bool>, from: nat)
    ensures var r := FirstTap(marks, from);
      (r.Some? ==> marks[r.value - 1] && forall k :: from <= k < r.value - 1 ==> !marks[k])
      && (r.None? ==> forall k :: from <= k < |marks| ==> !marks[k])
    decreases |marks| - from
  {
    if from < |marks| && !marks[from] {
      FirstTapSpec(marks, from + 1);
    }
  }

  /**
   * A wait for a tap ends on the first line that is blank once stripped or
   * is a `TAPPED|` record, whatever its id, having skipped every line before
   * it; it runs out of input only when there is no such line.
   */
  lemma WaitEndsAtFirstTap(input: seq<string>, from: nat)
    ensures var r := FirstTap(TapMarks(input), from);
      (r.Some? ==>
        from < r.value <= |input| && EndsTapWait(input[r.value - 1])
        && forall k :: from <= k < r.value - 1 ==> !EndsTapWait(input[k]))
      && (r.None? ==> forall k :: from <= k < |input| ==> !EndsTapWait(input[k]))
  {
    var marks := TapMarks(input);
    FirstTapSpec(marks, from);
  }

  /** The wait for a tap, reading the input from line `from`; it answers where reading goes on. */
  method WaitForTap(input: seq<string>, from: nat) returns (next: Option<nat>)
    ensures next == FirstTap(TapMarks(input), from)
  {
    ghost var marks := TapMarks(input);
    var k := from;
    while k < |input|
      invariant from <= k
      invariant FirstTap(marks, k) == FirstTap(marks, from)
      decreases |input| - k
    {
      var line := Strip(input[k]);
      if line == [] || MatchTagged(TappedTag, line).Some? {
        assert marks[k];
        return Some(k + 1);
      }
      assert !marks[k];
      k := k + 1;
    }
    return None;
  }

  /** Whether audio is being captured; it stands for the global `recording` flag. */
  datatype Phase = Idle | Recording

  /**
   * The record lines printed so far alternate a start record and a stop
   * record, beginning with a start record.
   */
  ghost predicate AlternatingLog(log: seq<string>) {
    forall i :: 0 <= i < |log| ==> (if i % 2 == 0 then log[i] == RecogStart else RecogStopTag <= log[i])
  }

  /**
   * The recording state of the capture stage: the phase, the queue of frames
   * captured in the current recording, and the record lines printed so far.
   */
  class CaptureController<S> {
    var phase: Phase
    var buffer: seq<seq<S>>
    var log: seq<string>

    /**
     * Frames are only held while recording; a recording is in progress
     * exactly when a start record has not yet been answered by a stop record.
     */
    ghost predicate Valid()
      reads this
    {
      (phase == Idle ==> buffer == [])
      && (phase == Recording <==> |log| % 2 == 1)
      && AlternatingLog(log)
    }

    constructor ()
      ensures Valid()
      ensures phase == Idle && buffer == [] && log == []
    {
      phase := Idle;
      buffer := [];
      log := [];
    }

    /** Prints the start record and begins capturing, with an empty queue. */
    method StartRecording()
      requires Valid() && phase == Idle
      modifies this
      ensures Valid()
      ensures phase == Recording && buffer == [] && log == old(log) + [RecogStart]
    {
      log := log + [RecogStart];
      phase := Recording;
    }

    /** The audio callback queueing one captured frame; only possible while recording. */
    method AppendFrame(frame: seq<S>)
      requires Valid() && phase == Recording
      modifies this
      ensures Valid()
      ensures phase == Recording && buffer == old(buffer) + [frame] && log == old(log)
    {
      buffer := buffer + [frame];
    }

    /**
     * Stops capturing, then flattens the queued frames, transcribes them,
     * prints the stop record and clears the queue. With nothing queued the
     * flattening fails (`np.concatenate` of an empty list raises), which
     * `ok == false` reports: capture has stopped but nothing is printed.
     */
    method StopRecording(transcribe: seq<S> -> string) returns (ok: bool)
      requires Valid() && phase == Recording
      modifies this
      ensures phase == Idle && buffer == []
      ensures ok <==> old(buffer) != []
      ensures ok ==> Valid() && log == old(log) + [StopRecord(transcribe(Flatten(old(buffer))))]
      ensures !ok ==> log == old(log)
    {
      phase := Idle;
      if buffer == [] {
        return false;
      }
      var audio := Flatten(buffer);
      var text := transcribe(audio);
      log := log + [StopRecord(text)];
      buffer := [];
      ok := true;
    }
  }

  /** Why the capture loop ended: input ran out during a wait, or a recording captured no frames. */
  datatype CaptureStop = InputEnded | EmptyCapture

  datatype CaptureTrace = CaptureTrace(log: seq<string>, stop: CaptureStop)

  function PrependLog(out: seq<string>, t: CaptureTrace): CaptureTrace {
    CaptureTrace(out + t.log, t.stop)
  }

  /** Printing `a` and then `b` ahead of a run is printing `a + b` ahead of it. */
  lemma PrependLogTwice(a: seq<string>, b: seq<string>, t: CaptureTrace)
    ensures PrependLog(a, PrependLog(b, t)) == PrependLog(a + b, t)
  {
    assert a + (b + t.log) == (a + b) + t.log;
  }

  /**
   * One pass of the capture loop from input line `pos`: the records it
   * prints, and either why the loop ends or the line it goes on from.
   */
  datatype Episode = Ended(printed: seq<string>, stop: CaptureStop) | Completed(printed: seq<string>, next: nat)

  /**
   * One pass of the loop from line `pos`, with `frames` captured during the
   * recording: wait for a tap, print the start record, wait for a tap, then
   * transcribe the frames and print the stop record.
   */
  function EpisodeAt<S>(marks: seq<bool>, pos: nat, frames: seq<seq<S>>, transcribe: seq<S> -> string): (e: Episode)
    ensures e.Completed? ==> pos < e.next <= |marks|
    ensures e.Completed? ==> frames != [] && e.printed == [RecogStart, StopRecord(transcribe(Flatten(frames)))]
    ensures e.Ended? ==> e.printed == [] || e.printed == [RecogStart]
    ensures e.Ended? && e.stop == EmptyCapture ==> e.printed == [RecogStart] && frames == []
  {
    match FirstTap(marks, pos)
    case None => Ended([], InputEnded)
    case Some(started) =>
      match FirstTap(marks, started)
      case None => Ended([RecogStart], InputEnded)
      case Some(stopped) =>
        if frames == [] then Ended([RecogStart], EmptyCapture)
        else Completed([RecogStart, StopRecord(transcribe(Flatten(frames)))], stopped)
  }

  /**
   * What the capture loop prints from input line `pos` on, recording
   * `device(e)` as the frames of its `e`-th recording, counted from
   * `episode`.
   */
  function CaptureFrom<S>(marks: seq<bool>, pos: nat, episode: nat, device: nat -> seq<seq<S>>, transcribe: seq<S> -> string): CaptureTrace
    decreases |marks| - pos
  {
    match EpisodeAt(marks, pos, device(episode), transcribe)
    case Ended(printed, stop) => CaptureTrace(printed, stop)
    case Completed(printed, next) => PrependLog(printed, CaptureFrom(marks, next, episode + 1, device, transcribe))
  }

  /** The whole run of the capture loop on `input`. */
  function CaptureSession<S>(input: seq<string>, device: nat -> seq<seq<S>>, transcribe: seq<S> -> string): CaptureTrace {
    CaptureFrom(TapMarks(input), 0, 0, device, transcribe)
  }

  /** The loop ends within a pass that ends it. */
  lemma SessionAtEnded<S>(marks: seq<bool>, pos: nat, episode: nat, device: nat -> seq<seq<S>>, transcribe: seq<S> -> string)
    requires EpisodeAt(marks, pos, device(episode), transcribe).Ended?
    ensures var e := EpisodeAt(marks, pos, device(episode), transcribe);
      CaptureFrom(marks, pos, episode, device, transcribe) == CaptureTrace(e.printed, e.stop)
  {
  }

  /** A completed pass prints its records ahead of the rest of the run. */
  lemma SessionAtCompleted<S>(marks: seq<bool>, pos: nat, episode: nat, device: nat -> seq<seq<S>>, transcribe: seq<S> -> string)
    requires EpisodeAt(marks, pos, device(episode), transcribe).Completed?
    ensures var e := EpisodeAt(marks, pos, device(episode), transcribe);
      CaptureFrom(marks, pos, episode, device, transcribe)
      == PrependLog(e.printed, CaptureFrom(marks, e.next, episode + 1, device, transcribe))
  {
  }

  /**
   * Record `i` of a run whose recordings are counted from `episode`: start
   * records at even places, and at odd places the stop record for the text
   * of recording `episode + i / 2`.
   */
  ghost predicate RecordFits<S>(log: seq<string>, i: nat, episode: nat, device: nat -> seq<seq<S>>, transcribe: seq<S> -> string)
    requires i < |log|
  {
    if i % 2 == 0 then log[i] == RecogStart
    else log[i] == StopRecord(transcribe(Flatten(device(episode + i / 2)))) && device(episode + i / 2) != []
  }

  /**
   * The shape of every run of the capture loop: the records strictly
   * alternate start and stop, beginning with a start record; each stop
   * record carries the transcription of exactly the frames of its own
   * recording, which were not empty; and a run that ends on an empty
   * recording has printed that recording's start record last.
   */
  lemma {:induction false} CaptureFromShape<S>(marks: seq<bool>, pos: nat, episode: nat, device: nat -> seq<seq<S>>, transcribe: seq<S> -> string)
    ensures var t := CaptureFrom(marks, pos, episode, device, transcribe);
      (forall i :: 0 <= i < |t.log| ==> RecordFits(t.log, i, episode, device, transcribe))
      && (t.stop == EmptyCapture ==> |t.log| % 2 == 1 && device(episode + |t.log| / 2) == [])
    decreases |marks| - pos
  {
    var t := CaptureFrom(marks, pos, episode, device, transcribe);
    var e := EpisodeAt(marks, pos, device(episode), transcribe);
    if e.Ended? {
      SessionAtEnded(marks, pos, episode, device, transcribe);
    } else {
      SessionAtCompleted(marks, pos, episode, device, transcribe);
      var rest := CaptureFrom(marks, e.next, episode + 1, device, transcribe);
      CaptureFromShape(marks, e.next, episode + 1, device, transcribe);
      FitsAfterEpisode(e.printed, rest.log, episode, episode + 1, device, transcribe);
      if t.stop == EmptyCapture {
        assert episode + 1 + |rest.log| / 2 == episode + |t.log| / 2;
      }
    }
  }

  /** The records of one completed recording, ahead of records that fit from the next recording on, fit. */
  lemma FitsAfterEpisode<S>(printed: seq<string>, rest: seq<string>, episode: nat, later: nat, device: nat -> seq<seq<S>>, transcribe: seq<S> -> string)
    requires device(episode) != [] && printed == [RecogStart, StopRecord(transcribe(Flatten(device(episode))))]
    requires later == episode + 1
    requires forall i :: 0 <= i < |rest| ==> RecordFits(rest, i, later, device, transcribe)
    ensures forall i :: 0 <= i < |printed + rest| ==> RecordFits(printed + rest, i, episode, device, transcribe)
  {
    var log := printed + rest;
    forall i | 0 <= i < |log|
      ensures RecordFits(log, i, episode, device, transcribe)
    {
      if i >= 2 {
        assert log[i] == rest[i - 2];
        assert RecordFits(rest, i - 2, later, device, transcribe);
        assert later + (i - 2) / 2 == episode + i / 2;
      }
    }
  }

  /**
   * The whole run: record `2 * n` is the start record of recording `n` and
   * record `2 * n + 1` carries the text of exactly the frames of recording
   * `n`, which were not empty. A run that ends on an empty recording has
   * printed its start record, and no stop record, last.
   */
  lemma CaptureSessionShape<S>(input: seq<string>, device: nat -> seq<seq<S>>, transcribe: seq<S> -> string)
    ensures var t := CaptureSession(input, device, transcribe);
      (forall n :: 0 <= 2 * n < |t.log| ==> t.log[2 * n] == RecogStart)
      && (forall n :: 0 <= 2 * n + 1 < |t.log| ==>
            device(n) != [] && t.log[2 * n + 1] == StopRecord(transcribe(Flatten(device(n)))))
      && (t.stop == EmptyCapture ==> |t.log| % 2 == 1 && device(|t.log| / 2) == [])
  {
    var t := CaptureSession(input, device, transcribe);
    CaptureFromShape(TapMarks(input), 0, 0, device, transcribe);
    FitsByRecording(t.log, device, transcribe);
  }

  /** Records that fit from the first recording on, read recording by recording. */
  lemma FitsByRecording<S>(log: seq<string>, device: nat -> seq<seq<S>>, transcribe: seq<S> -> string)
    requires forall i :: 0 <= i < |log| ==> RecordFits(log, i, 0, device, transcribe)
    ensures forall n :: 0 <= 2 * n < |log| ==> log[2 * n] == RecogStart
    ensures forall n :: 0 <= 2 * n + 1 < |log| ==>
      device(n) != [] && log[2 * n + 1] == StopRecord(transcribe(Flatten(device(n))))
  {
    forall n | 0 <= 2 * n < |log|
      ensures log[2 * n] == RecogStart
    {
      assert RecordFits(log, 2 * n, 0, device, transcribe);
    }
    forall n | 0 <= 2 * n + 1 < |log|
      ensures device(n) != [] && log[2 * n + 1] == StopRecord(transcribe(Flatten(device(n))))
    {
      assert (2 * n + 1) / 2 == n;
      assert RecordFits(log, 2 * n + 1, 0, device, transcribe);
    }
  }

  /** The records of any run alternate start and stop, beginning with start, as the controller's do. */
  lemma CaptureSessionAlternates<S>(input: seq<string>, device: nat -> seq<seq<S>>, transcribe: seq<S> -> string)
    ensures AlternatingLog(CaptureSession(input, device, transcribe).log)
  {
    var t := CaptureSession(input, device, transcribe);
    CaptureFromShape(TapMarks(input), 0, 0, device, transcribe);
    forall i | 0 <= i < |t.log|
      ensures if i % 2 == 0 then t.log[i] == RecogStart else RecogStopTag <= t.log[i]
    {
      assert RecordFits(t.log, i, 0, device, transcribe);
    }
  }

  /** Queues every frame of one recording, in capture order. */
  method CaptureFrames<S>(c: CaptureController<S>, frames: seq<seq<S>>)
    requires c.Valid() && c.phase == Recording
    modifies c
    ensures c.Valid() && c.phase == Recording
    ensures c.buffer == old(c.buffer) + frames && c.log == old(c.log)
  {
    for n := 0 to |frames|
      invariant c.Valid() && c.phase == Recording
      invariant c.buffer == old(c.buffer) + frames[..n] && c.log == old(c.log)
    {
      assert frames[..n + 1] == frames[..n] + [frames[n]];
      c.AppendFrame(frames[n]);
    }
    assert frames[..|frames|] == frames;
  }

  /**
   * One pass of the loop body on the controller `c`, with `frames` the
   * device captures while recording.
   */
  method RunEpisode<S>(c: CaptureController<S>, input: seq<string>, pos: nat, frames: seq<seq<S>>, transcribe: seq<S> -> string)
    returns (e: Episode)
    requires c.Valid() && c.phase == Idle
    modifies c
    ensures e == EpisodeAt(TapMarks(input), pos, frames, transcribe)
    ensures c.log == old(c.log) + e.printed
    ensures e.Completed? ==> c.Valid() && c.phase == Idle
  {
    var started := WaitForTap(input, pos);
    if started.None? {
      assert c.log == old(c.log) + [];
      return Ended([], InputEnded);
    }
    c.StartRecording();
    ghost var afterStart := c.log;
    CaptureFrames(c, frames);
    assert c.buffer == frames;
    var stopped := WaitForTap(input, started.value);
    if stopped.None? {
      return Ended([RecogStart], InputEnded);
    }
    var ok := c.StopRecording(transcribe);
    if !ok {
      return Ended([RecogStart], EmptyCapture);
    }
    e := Completed([RecogStart, StopRecord(transcribe(Flatten(frames)))], stopped.value);
    assert c.log == afterStart + [StopRecord(transcribe(Flatten(frames)))];
  }

  /** The capture loop, with the device's frames for each recording and the recogniser as parameters. */
  method RunCapture<S>(input: seq<string>, device: nat -> seq<seq<S>>, transcribe: seq<S> -> string)
    returns (log: seq<string>, stop: CaptureStop)
    ensures CaptureTrace(log, stop) == CaptureSession(input, device, transcribe)
  {
    var c := new CaptureController<S>();
    ghost var marks := TapMarks(input);
    ghost var whole := CaptureFrom(marks, 0, 0, device, transcribe);
    var pos, episode := 0, 0;
    assert whole == PrependLog(c.log, whole);
    while true
      invariant c.Valid() && c.phase == Idle
      invariant whole == PrependLog(c.log, CaptureFrom(marks, pos, episode, device, transcribe))
      decreases |input| - pos
    {
      ghost var before := c.log;
      var e := RunEpisode(c, input, pos, device(episode), transcribe);
      if e.Ended? {
        SessionAtEnded(marks, pos, episode, device, transcribe);
        return c.log, e.stop;
      }
      SessionAtCompleted(marks, pos, episode, device, transcribe);
      PrependLogTwice(before, e.printed, CaptureFrom(marks, e.next, episode + 1, device, transcribe));
      pos, episode := e.next, episode + 1;
    }
  }
}
