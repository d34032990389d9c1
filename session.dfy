/** The recording session of `WhisperPTT` (main.py:52-171, 268-277) as a
    state machine over a sequential trace of events. The recording thread
    and the processing thread are flattened into events of their own: one
    iteration of the capture loop, and the end of processing. Audio devices
    are reduced to "is open" flags, and each call into the audio library
    that may raise is an input saying whether it returned. */
module Session {

  /** `min_interval`, 0.5 s, in milliseconds. */
  const MinIntervalMs: int := 500

  newtype Byte = x: int | 0 <= x < 256

  /** One buffer of samples as `stream.read` returns it. */
  type Chunk = seq<Byte>

  /** How far `start_recording` gets in its `try` block (main.py:91-106):
      all the way, or up to the call that raised. */
  datatype Opening =
    | Opened          // PyAudio(), p.open and thread.start all returned
    | InitFailed      // pyaudio.PyAudio() raised; `p` was not assigned
    | OpenFailed      // p.open raised; `p` holds a fresh instance
    | ThreadFailed    // thread.start raised; `p` and the stream are set

  /** Whether each release call in `_cleanup_audio` returned. A call that
      raises leaves its handle set, since the assignment to None behind it
      is skipped. */
  datatype Teardown = Teardown(streamClosed: bool, audioTerminated: bool)

  /** The teardown in which both release calls return. */
  const CleanTeardown := Teardown(true, true)

  /** The result of one `stream.read` in the capture loop. */
  datatype Read = Data(chunk: Chunk) | ReadError

  /** The keys the listener reports. */
  datatype Key = Cmd | CmdRight | Esc | OtherKey

  /** The fields of `WhisperPTT` the session uses. `streamOpen` and
      `audioOpen` say whether `audio_stream` and `p` are set;
      `recordThreadAlive` whether the capture loop is still running. */
  datatype State = State(
    recording: bool,
    processing: bool,
    lastActionTime: int,
    audioData: seq<Chunk>,
    streamOpen: bool,
    audioOpen: bool,
    recordThreadAlive: bool)

  /** The state after `__init__`. */
  function Init(): (s: State)
    ensures !s.recording && !s.processing && s.audioData == []
    ensures !s.streamOpen && !s.audioOpen && !s.recordThreadAlive
  {
    State(false, false, 0, [], false, false, false)
  }

  /** `_cleanup_audio` (main.py:153-171): each handle is released unless
      its release call raised. */
  function Cleanup(s: State, td: Teardown): (r: State)
    ensures r.streamOpen <==> s.streamOpen && !td.streamClosed
    ensures r.audioOpen <==> s.audioOpen && !td.audioTerminated
    ensures r.(streamOpen := s.streamOpen, audioOpen := s.audioOpen) == s
  {
    s.(streamOpen := s.streamOpen && !td.streamClosed,
       audioOpen := s.audioOpen && !td.audioTerminated)
  }

  /** Whether `start_recording` at `now` gets past its two guards. */
  predicate StartAccepted(s: State, now: int) {
    now - s.lastActionTime >= MinIntervalMs && !s.recording && !s.processing
  }

  /** `start_recording` at time `now` (main.py:75-110). */
  function Start(s: State, now: int, opening: Opening, td: Teardown): (r: State)
    ensures !StartAccepted(s, now) ==> r == s
    ensures StartAccepted(s, now) ==>
              && r.lastActionTime == now && r.audioData == [] && !r.processing
              && (r.recording <==> opening == Opened)
              && (r.recordThreadAlive <==> opening == Opened || s.recordThreadAlive)
    ensures StartAccepted(s, now) && opening == Opened ==> r.streamOpen && r.audioOpen
    ensures StartAccepted(s, now) && opening != Opened && td == CleanTeardown ==>
              !r.streamOpen && !r.audioOpen
  {
    if now - s.lastActionTime < MinIntervalMs then s
    else if s.recording || s.processing then s
    else
      var s1 := s.(recording := true, audioData := [], lastActionTime := now);
      match opening
      case Opened => s1.(audioOpen := true, streamOpen := true, recordThreadAlive := true)
      case InitFailed => Cleanup(s1.(recording := false), td)
      case OpenFailed => Cleanup(s1.(audioOpen := true, recording := false), td)
      case ThreadFailed => Cleanup(s1.(audioOpen := true, streamOpen := true, recording := false), td)
  }

  /** Whether the capture loop runs another iteration: `while
      self.recording and self.audio_stream` in a thread that has not left
      the loop. */
  predicate Capturing(s: State) {
    s.recordThreadAlive && s.recording && s.streamOpen
  }

  /** One iteration of the capture loop (main.py:115-122). A thread whose
      loop condition fails leaves the loop. */
  function Capture(s: State, read: Read): (r: State)
    ensures !Capturing(s) ==> r == s.(recordThreadAlive := false)
    ensures Capturing(s) && read.Data? && read.chunk != [] ==> r == s.(audioData := s.audioData + [read.chunk])
    ensures Capturing(s) && read.Data? && read.chunk == [] ==> r == s
    ensures Capturing(s) && read == ReadError ==> r == s.(recordThreadAlive := false)
  {
    if !Capturing(s) then s.(recordThreadAlive := false)
    else
      match read
      case Data(chunk) => if chunk != [] then s.(audioData := s.audioData + [chunk]) else s
      case ReadError => s.(recordThreadAlive := false)
  }

  /** The capture loop run over the answers the stream gives, in order. It
      only ever appends to the buffer, and changes nothing else but whether
      the loop is still running. */
  function Captures(s: State, answers: seq<Read>): (r: State)
    ensures |r.audioData| >= |s.audioData|
    ensures r.audioData[..|s.audioData|] == s.audioData
    ensures r.(audioData := s.audioData, recordThreadAlive := s.recordThreadAlive) == s
    decreases |answers|
  {
    if answers == [] then s
    else
      var s1 := Capture(s, answers[0]);
      assert s1.audioData[..|s.audioData|] == s.audioData;
      Captures(s1, answers[1..])
  }

  /** Whether `stop_recording` gets past its guard. */
  predicate StopAccepted(s: State) {
    s.recording && !s.processing
  }

  /** `stop_recording` (main.py:126-144): the join lets the capture loop see
      `recording` false and leave, then the devices are released. */
  function Stop(s: State, td: Teardown): (r: State)
    ensures !StopAccepted(s) ==> r == s
    ensures StopAccepted(s) ==>
              && !r.recording && r.processing && !r.recordThreadAlive
              && r.audioData == s.audioData && r.lastActionTime == s.lastActionTime
    ensures StopAccepted(s) && td == CleanTeardown ==> !r.streamOpen && !r.audioOpen
  {
    if !s.recording || s.processing then s
    else Cleanup(s.(recording := false, processing := true, recordThreadAlive := false), td)
  }

  /** The `finally` of `_process_recording` (main.py:150-151). */
  function Done(s: State): (r: State)
    ensures !r.processing
    ensures r.(processing := s.processing) == s
  {
    s.(processing := false)
  }

  /** The events of a session, in the order they happen. */
  datatype Event =
    | Press(key: Key, now: int, opening: Opening, startTeardown: Teardown)
    | Release(key: Key, stopTeardown: Teardown)
    | Captured(read: Read)
    | Processed

  predicate IsSuper(k: Key) {
    k == Cmd || k == CmdRight
  }

  /** `on_press`, `on_release` (main.py:268-277), a capture-loop iteration,
      and the end of processing. */
  function Step(s: State, e: Event): (r: State)
    ensures r.lastActionTime >= s.lastActionTime
    ensures e.Press? && !IsSuper(e.key) ==> r == s
    ensures e.Release? && !IsSuper(e.key) ==> r == s
  {
    match e
    case Press(k, now, opening, td) => if IsSuper(k) then Start(s, now, opening, td) else s
    case Release(k, td) => if IsSuper(k) then Stop(s, td) else s
    case Captured(read) => Capture(s, read)
    case Processed => Done(s)
  }

  function Run(s: State, es: seq<Event>): State
    decreases |es|
  {
    if es == [] then s else Run(Step(s, es[0]), es[1..])
  }

  /** The session invariant: never recording and processing at once; a
      recording holds both devices; a live capture loop belongs to a
      recording; the buffer holds only non-empty chunks. */
  predicate Inv(s: State) {
    && !(s.recording && s.processing)
    && (s.recording ==> s.streamOpen && s.audioOpen)
    && (s.recordThreadAlive ==> s.recording)
    && (forall i :: 0 <= i < |s.audioData| ==> s.audioData[i] != [])
  }

  lemma InitInv()
    ensures Inv(Init())
  {
  }

  lemma StepPreservesInv(s: State, e: Event)
    requires Inv(s)
    ensures Inv(Step(s, e))
  {
    match e
    case Press(k, now, opening, td) =>
    case Release(k, td) =>
    case Captured(read) =>
      var r := Capture(s, read);
      if Capturing(s) && read.Data? && read.chunk != [] {
        assert forall i :: 0 <= i < |r.audioData| ==> r.audioData[i] != [] by {
          forall i | 0 <= i < |r.audioData| ensures r.audioData[i] != [] {
            if i < |s.audioData| { assert r.audioData[i] == s.audioData[i]; }
          }
        }
      }
    case Processed =>
  }

  /** Every trace of events keeps the invariant. */
  lemma {:induction false} RunPreservesInv(s: State, es: seq<Event>)
    requires Inv(s)
    ensures Inv(Run(s, es))
    decreases |es|
  {
    if es != [] {
      StepPreservesInv(s, es[0]);
      RunPreservesInv(Step(s, es[0]), es[1..]);
    }
  }

  /** Whatever presses, releases, answers, failed starts and ends of
      processing happen, the session is never recording while it is still
      processing the previous recording. */
  lemma NeverRecordingWhileProcessing(es: seq<Event>)
    ensures !(Run(Init(), es).recording && Run(Init(), es).processing)
  {
    InitInv();
    RunPreservesInv(Init(), es);
  }

  /** A release of the devices that succeeded leaves nothing for a second
      `_cleanup_audio` to do. */
  lemma CleanupIdempotent(s: State, td: Teardown)
    ensures Cleanup(Cleanup(s, CleanTeardown), td) == Cleanup(s, CleanTeardown)
  {
  }

  /** An accepted start is at least `min_interval` after the previous one,
      and moves the debounce timestamp to its own time, even when opening
      the devices failed. */
  lemma {:induction false} StartsAreSpaced(s: State, es: seq<Event>, now: int)
    requires StartAccepted(Run(s, es), now)
    ensures now >= s.lastActionTime + MinIntervalMs
    decreases |es|
  {
    if es != [] {
      StartsAreSpaced(Step(s, es[0]), es[1..], now);
    }
  }

  /** The non-empty chunks among `answers`, in order. */
  function Kept(answers: seq<Read>): seq<Chunk>
    requires forall i :: 0 <= i < |answers| ==> answers[i].Data?
  {
    if answers == [] then []
    else (if answers[0].chunk != [] then [answers[0].chunk] else []) + Kept(answers[1..])
  }

  /** While the stream keeps answering with data, the loop appends exactly
      the non-empty chunks, in the order they were read. */
  lemma {:induction false} CapturesAppendKept(s: State, answers: seq<Read>)
    requires Capturing(s)
    requires forall i :: 0 <= i < |answers| ==> answers[i].Data?
    ensures Captures(s, answers) == s.(audioData := s.audioData + Kept(answers))
    decreases |answers|
  {
    if answers != [] {
      var s1 := Capture(s, answers[0]);
      CapturesAppendKept(s1, answers[1..]);
      if answers[0].chunk != [] {
        assert s.audioData + [answers[0].chunk] + Kept(answers[1..]) == s.audioData + Kept(answers);
      } else {
        assert Kept(answers) == Kept(answers[1..]);
      }
    }
  }

  /** The capture loop keeps the invariant. */
  lemma {:induction false} CapturesPreserveInv(s: State, answers: seq<Read>)
    requires Inv(s)
    ensures Inv(Captures(s, answers))
    decreases |answers|
  {
    if answers != [] {
      StepPreservesInv(s, Captured(answers[0]));
      CapturesPreserveInv(Capture(s, answers[0]), answers[1..]);
    }
  }

  /** Once the loop has been left, by a read error or because recording
      stopped, no later read changes anything. */
  lemma {:induction false} NoCaptureAfterExit(s: State, answers: seq<Read>)
    requires !s.recordThreadAlive
    ensures Captures(s, answers) == s
    decreases |answers|
  {
    if answers != [] {
      NoCaptureAfterExit(Capture(s, answers[0]), answers[1..]);
    }
  }

  /** A read error ends the loop and keeps what was collected. */
  lemma ReadErrorEndsCapture(s: State, answers: seq<Read>)
    ensures Captures(s, [ReadError] + answers) == s.(recordThreadAlive := false)
  {
    var s1 := Capture(s, ReadError);
    assert ([ReadError] + answers)[1..] == answers;
    NoCaptureAfterExit(s1, answers);
  }

  /** After a stop whose cleanup succeeded and the end of processing, a
      press at least `min_interval` later starts a new recording. */
  lemma SecondRecordingStarts(s: State, stopTd: Teardown, now: int)
    requires Inv(s) && StopAccepted(s)
    requires now >= s.lastActionTime + MinIntervalMs
    ensures Start(Done(Stop(s, stopTd)), now, Opened, CleanTeardown).recording
  {
  }
}
