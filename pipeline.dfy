/** The decision chain of `_transcribe_and_type` (main.py:173-224): the
    recorded chunks and the transcript decide whether anything is typed, and
    what. The Whisper call is an input here: the transcript it produced, or
    the fact that it raised. */
module Pipeline {
  import opened Whitespace
  import opened Commands
  import opened Repetition
  import CommandExamples

  /** Recordings of fewer chunks are skipped as too short. */
  const MinChunks: nat := 10

  /** What the transcription step gave back. */
  datatype Transcript = Heard(text: string) | Failed

  /** How one recording ends. `Typed` carries the text handed to the
      keyboard. */
  datatype Outcome =
    | NoAudio
    | TooShort
    | TranscriptionFailed
    | Corrupted
    | NoSpeech
    | Typed(text: string)

  /** The outcome of a recording of `chunks` chunks whose transcript is
      `raw`. */
  function Classify(chunks: nat, raw: Transcript): (o: Outcome)
    ensures o == NoAudio <==> chunks == 0
    ensures o == TooShort <==> 0 < chunks < MinChunks
    ensures o == TranscriptionFailed <==> chunks >= MinChunks && raw == Failed
    ensures o == Corrupted <==> chunks >= MinChunks && raw.Heard? && RepetitiveWords(Split(raw.text))
    ensures o == NoSpeech <==> chunks >= MinChunks && raw.Heard? && AllSpace(raw.text)
    ensures o.Typed? <==> chunks >= MinChunks && raw.Heard? && !AllSpace(raw.text)
                          && !RepetitiveWords(Split(raw.text))
    ensures o.Typed? ==> o.text == ApplyTable(Strip(raw.text)) && o.text != []
  {
    if chunks == 0 then NoAudio
    else if chunks < MinChunks then TooShort
    else
      match raw
      case Failed => TranscriptionFailed
      case Heard(t) =>
        var text := Strip(t);
        StripKeepsVerdict(t);
        if RepetitiveWords(Split(text)) then Corrupted
        else if text != [] then Typed(ApplyTable(text))
        else
          BlankNeverRepetitive(t);
          NoSpeech
  }

  /** `_transcribe_and_type`, with the filter and the replacement pass run
      as the loops they are. */
  method TranscribeAndType(chunks: nat, raw: Transcript) returns (o: Outcome)
    ensures o == Classify(chunks, raw)
  {
    if chunks == 0 {
      return NoAudio;
    }
    if chunks < MinChunks {
      return TooShort;
    }
    if raw.Failed? {
      return TranscriptionFailed;
    }
    var text := Strip(raw.text);
    var repetitive := IsRepetitiveText(text);
    if repetitive {
      return Corrupted;
    }
    if text != [] {
      text := ApplyReplacements(text);
      return Typed(text);
    }
    return NoSpeech;
  }

  /** The filter runs before the emptiness test, but a blank transcript is
      never repetitive, so the order does not matter: testing emptiness
      first gives the same outcome. */
  lemma OrderOfChecksIrrelevant(chunks: nat, t: string)
    requires chunks >= MinChunks
    ensures Classify(chunks, Heard(t))
         == if Strip(t) == [] then NoSpeech
            else if RepetitiveWords(Split(Strip(t))) then Corrupted
            else Typed(ApplyTable(Strip(t)))
  {
    StripKeepsVerdict(t);
  }

  /** A dictated command, as Whisper returns it with a leading space, is
      typed as the shell command it names. */
  lemma DictationExample(s: string, raw: Transcript)
    requires s == "change directory slash home" && raw == Heard(" " + s)
    ensures Classify(MinChunks, raw) == Typed("cd / ~")
  {
    DictationStrips(s);
    DictationWords(s);
    StripKeepsVerdict(raw.text);
    CommandExamples.ChangeDirectoryExample(s);
  }

  lemma DictationStrips(s: string)
    requires s == "change directory slash home"
    ensures Strip(" " + s) == s
  {
    assert s[0] == 'c' && s[|s| - 1] == 'e';
    StripPadded(s);
  }

  lemma DictationWords(s: string)
    requires s == "change directory slash home"
    ensures |Split(s)| == 4
  {
    var ws := ["change", "directory", "slash", "home"];
    assert s == Unwords(ws);
    SplitUnwords(ws);
  }
}
