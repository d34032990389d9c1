/** `WhisperPTT` as an object whose event handlers update its fields in
    place (main.py:52-171, 268-277). Each handler is proved to move the
    object's state exactly as the matching function of `Session` does, so
    every property proved there about traces holds of the object. */
module Recorder {
  import opened Session
  import Pipeline

  class WhisperPtt {
    var recording: bool
    var processing: bool
    var lastActionTime: int
    var audioData: seq<Chunk>
    /** `audio_stream is not None`. */
    var streamOpen: bool
    /** `p is not None`. */
    var audioOpen: bool
    /** The capture loop of `record_thread` is still running. */
    var recordThreadAlive: bool

    ghost function Snapshot(): State
      reads this
    {
      Session.State(recording, processing, lastActionTime, audioData, streamOpen, audioOpen, recordThreadAlive)
    }

    /** The session invariant, on the object's fields. */
    ghost predicate Valid()
      reads this
    {
      Inv(Snapshot())
    }

    /** `__init__`, without loading the Whisper model. */
    constructor ()
      ensures Snapshot() == Init() && Valid()
    {
      recording := false;
      processing := false;
      lastActionTime := 0;
      audioData := [];
      streamOpen := false;
      audioOpen := false;
      recordThreadAlive := false;
    }

    /** `_cleanup_audio`. */
    method CleanupAudio(td: Teardown)
      requires Valid() && !recording
      modifies this
      ensures Snapshot() == Cleanup(old(Snapshot()), td)
      ensures Valid()
    {
      if streamOpen && td.streamClosed {
        streamOpen := false;
      }
      if audioOpen && td.audioTerminated {
        audioOpen := false;
      }
    }

    /** `start_recording`; `opening` says how far the `try` block gets. */
    method StartRecording(now: int, opening: Opening, td: Teardown)
      requires Valid()
      modifies this
      ensures Snapshot() == Start(old(Snapshot()), now, opening, td)
      ensures Valid()
    {
      if now - lastActionTime < MinIntervalMs {
        return;
      }
      if recording || processing {
        return;
      }
      recording := true;
      audioData := [];
      lastActionTime := now;
      if opening != InitFailed {
        audioOpen := true;
        if opening != OpenFailed {
          streamOpen := true;
          if opening != ThreadFailed {
            recordThreadAlive := true;
            return;
          }
        }
      }
      recording := false;
      CleanupAudio(td);
    }

    /** One iteration of the capture loop of `_record_audio`. */
    method CaptureStep(read: Read)
      requires Valid()
      modifies this
      ensures Snapshot() == Capture(old(Snapshot()), read)
      ensures Valid()
    {
      StepPreservesInv(Snapshot(), Captured(read));
      if !(recordThreadAlive && recording && streamOpen) {
        recordThreadAlive := false;
        return;
      }
      match read {
        case Data(chunk) =>
          if chunk != [] {
            audioData := audioData + [chunk];
          }
        case ReadError =>
          recordThreadAlive := false;
      }
    }

    /** `_record_audio`, run by the capture thread, over the answers the
        stream gives to its successive reads. Answers left over once the
        loop has been left are never asked for. */
    method RecordAudio(answers: seq<Read>)
      requires recordThreadAlive && Valid()
      modifies this
      ensures Snapshot() == Captures(old(Snapshot()), answers)
      ensures Valid()
    {
      CapturesPreserveInv(Snapshot(), answers);
      var i := 0;
      while i < |answers| && recording && streamOpen
        invariant 0 <= i <= |answers|
        invariant recordThreadAlive
        invariant Captures(Snapshot(), answers[i..]) == Captures(old(Snapshot()), answers)
        decreases |answers| - i
      {
        assert answers[i..][1..] == answers[i + 1..];
        match answers[i] {
          case Data(chunk) =>
            if chunk != [] {
              audioData := audioData + [chunk];
            }
          case ReadError =>
            recordThreadAlive := false;
            NoCaptureAfterExit(Snapshot(), answers[i + 1..]);
            return;
        }
        i := i + 1;
      }
    }

    /** `stop_recording`. */
    method StopRecording(td: Teardown)
      requires Valid()
      modifies this
      ensures Snapshot() == Stop(old(Snapshot()), td)
      ensures Valid()
    {
      if !recording || processing {
        return;
      }
      recording := false;
      processing := true;
      // The join returns once the capture loop has seen `recording` false.
      recordThreadAlive := false;
      CleanupAudio(td);
    }

    /** `_process_recording`: the transcription of what was recorded, then
        `processing` cleared whatever the outcome. */
    method ProcessRecording(raw: Pipeline.Transcript) returns (o: Pipeline.Outcome)
      requires Valid()
      modifies this
      ensures o == Pipeline.Classify(|old(audioData)|, raw)
      ensures Snapshot() == Done(old(Snapshot()))
      ensures Valid()
    {
      o := Pipeline.TranscribeAndType(|audioData|, raw);
      processing := false;
    }

    /** `on_press`. */
    method OnPress(key: Key, now: int, opening: Opening, td: Teardown)
      requires Valid()
      modifies this
      ensures Snapshot() == Step(old(Snapshot()), Press(key, now, opening, td))
      ensures Valid()
    {
      if key == Cmd || key == CmdRight {
        StartRecording(now, opening, td);
      }
    }

    /** `on_release`; the listener goes on unless the result is false. */
    method OnRelease(key: Key, td: Teardown) returns (keepListening: bool)
      requires Valid()
      modifies this
      ensures Snapshot() == Step(old(Snapshot()), Release(key, td))
      ensures Valid()
      ensures keepListening <==> key != Esc
    {
      keepListening := true;
      if key == Cmd || key == CmdRight {
        StopRecording(td);
      } else if key == Esc {
        keepListening := false;
      }
    }
  }
}
