# WhisperPTT push-to-talk core, modelled in Dafny

WhisperPTT (`main.py`) is a push-to-talk dictation script. Holding the
Super (Windows) key records from the microphone. Releasing it transcribes the
recording with Whisper and types the text into the focused window, after a
pass that turns spoken shell words into shell syntax ("change directory" into
`cd`, "pipe" into `|`, ...). This project models the two pieces of logic
inside it and proves properties of them:

- **The recording session** of `WhisperPTT`:
  - `start_recording`, `_record_audio`, `stop_recording`, `_process_recording`,
    `_cleanup_audio`, and the `on_press` / `on_release` key dispatch.
  - `session.dfy` specifies it as a state machine over a trace of events
    (module `Session`). Threads become events: one iteration of the capture
    loop, and the end of processing.
  - `recorder.dfy` is the object itself: class `Recorder.WhisperPtt`. Its
    fields are updated in place. Each handler is proved to move the fields
    exactly as `Session` says and to keep the session invariant.
  - Times are integer milliseconds, with `min_interval` = 500.
  - The two audio handles are "is open" flags.
  - Each audio-library call that may raise is an input saying how far the
    call got.
- **The transcript post-processing**:
  - Python's `str.split()` and `str.strip()` (`whitespace.dfy`).
  - `str.replace` (`str_replace.dfy`), proved equal to an equivalent
    formulation by split and join, `sub.join(s.split(pat))`.
  - The 19-entry command table and its replacement loop (`commands.dfy`),
    with worked examples in `command_examples.dfy`.
  - The corrupted-audio filter `_is_repetitive_text` (`repetition.dfy`).
  - The outcome chain of `_transcribe_and_type` (`pipeline.dfy`).

Loops in the source are methods with loops in the model, each proved against
a specification function:
- `IsRepetitiveText` against `RepetitiveWords`;
- `ApplyReplacements` against `ApplyTable`;
- `RecordAudio` against `Captures`;
- `TranscribeAndType` against `Classify`.

The filter's second rule compares `words[i:i+3]` with `words[i+3:i+6]` for
`i in range(len(words) - 9)`, so it scans the windows `i <= len(words) - 10`.
A run repeated at a window from `len(words) - 9` to `len(words) - 6` is never
checked. `Repetition.LateTripleExample` shows an 11-word list whose repeat at
window 2 = 11 - 9 is not detected.

## Model

| member | source | states |
|---|---|---|
| `Whitespace.Split` | main.py:235 | every token of `str.split()` is non-empty and free of whitespace |
| `Whitespace.Strip` | main.py:206 | `str.strip()` is a slice of the input, empty exactly when the input is all whitespace, with no whitespace at either end and only whitespace cut away |
| `Whitespace.SplitOfWord` | main.py:235 | a single word splits into itself |
| `Whitespace.SplitSkipsSpaces` | main.py:235 | leading whitespace adds no token |
| `Whitespace.SplitAtSpace` | main.py:235 | a non-empty run of whitespace separates tokens: the split of `x + spaces + y` is the split of `x` followed by the split of `y`, so tokens are maximal runs of non-whitespace |
| `Whitespace.SplitEmptyIffAllSpace` | main.py:235 | a text splits into no word exactly when it is all whitespace |
| `Whitespace.SplitKeepsNonSpace` | main.py:235 | the words, glued together, are exactly the non-whitespace characters of the text, in order |
| `Whitespace.SplitUnwords` | main.py:235 | splitting undoes joining words with single spaces |
| `Whitespace.SplitStrip` | main.py:206-209 | stripping before splitting changes no word |
| `Whitespace.StripIdempotent` | main.py:206 | stripping twice is stripping once |
| `Whitespace.StripPadded` | main.py:206 | a transcript behind one leading space strips back to itself |
| `StrReplace.ReplaceAll` | main.py:216 | `str.replace` with a non-empty pattern; a non-empty replacement keeps a non-empty text non-empty |
| `StrReplace.ReplaceCopiesChars` | main.py:216 | every character of the result comes from the text or from the replacement |
| `StrReplace.FirstMatch` | main.py:216 | the position of the first occurrence of the pattern, with no occurrence before it |
| `StrReplace.ReplaceIsJoinOfSplit` | main.py:216 | `text.replace(pat, sub)` equals `sub.join(text.split(pat))` |
| `StrReplace.ReplaceBySelf` | main.py:216 | replacing a pattern by itself is the identity |
| `StrReplace.JoinOfSplit` | main.py:216 | joining the pieces of a split with the separator gives the text back |
| `StrReplace.ReplaceUpToFirstMatch` | main.py:216 | the replacement copies the text up to the first match |
| `StrReplace.ReplaceAbsent` | main.py:216 | a text without the pattern is unchanged |
| `StrReplace.ReplaceLeavesNoMatch` | main.py:216 | with a replacement sharing no character with the pattern, no occurrence survives or is formed |
| `StrReplace.AbsentPrefixExcludes` | main.py:216 | a text without `p` has no occurrence of any extension of `p` |
| `StrReplace.ReplaceMissingChar` | main.py:216 | a pattern containing a character the text lacks changes nothing |
| `StrReplace.ReplaceFirstOccurrence` | main.py:216 | the first occurrence is replaced and the scan resumes behind it, without overlap |
| `Commands.TableKeysDistinct` | main.py:30-50 | the table has 19 entries with pairwise distinct spoken phrases, as the dict literal's keys are |
| `Commands.KeysNonEmpty` | main.py:30-50 | every spoken phrase in the table is non-empty |
| `Commands.ValuesNonEmpty` | main.py:30-50 | every literal the table writes is non-empty |
| `Commands.ApplyReplacements` | main.py:215-216 | the loop applies each of the 19 entries once, in insertion order, to the whole text |
| `Commands.ApplyFirst` | main.py:215-216 | the first `n` entries applied in order never empty a non-empty text |
| `Commands.ApplyTable` | main.py:215-216 | the whole replacement pass never empties a non-empty text |
| `Commands.SkipEntries` | main.py:215-216 | a run of entries whose phrases cannot occur leaves the text unchanged |
| `Commands.ApplyNextOnce` | main.py:215-216 | an entry occurring once is replaced there, and the rest is kept |
| `Commands.GrepEntryIsIdentity` | main.py:38 | the `"grep"` entry never changes the text |
| `Commands.DotDotNeverApplies` | main.py:44-45 | after `"dot"` has been applied no `"dot dot"` is left, so the `"dot dot"` entry never fires |
| `CommandExamples.PseudoExample` | main.py:31 | `"pseudo ls"` becomes `"sudo ls"` |
| `CommandExamples.ChangeDirectoryExample` | main.py:33 | `"change directory slash home"` becomes `"cd / ~"` |
| `CommandExamples.CaseSensitiveExample` | main.py:32 | matching is case-sensitive: `"LS"` becomes `"ls"`, and `"Ls"` stays |
| `CommandExamples.DotDotExample` | main.py:44-45 | `"dot dot"` becomes `". ."`, never `".."` |
| `Repetition.Count` | main.py:241 | `words.count(w)` is at most the number of words, and zero exactly when `w` is absent |
| `Repetition.IsRepetitiveText` | main.py:233-253 | the early-return scans give exactly the three rules: under 6 words never; a word over 70%; or, over 10 words, a repeated run of three at a window `i <= n - 10` |
| `Repetition.StripKeepsVerdict` | main.py:206-209 | the filter gives the stripped transcript the same verdict as the raw one |
| `Repetition.BlankNeverRepetitive` | main.py:209 | a blank transcript is never flagged |
| `Repetition.VerdictOfUnwords` | main.py:235 | the filter judges words rejoined with single spaces by the words themselves |
| `Repetition.CountsOfTwoWords` | main.py:240-242 | two different words together occur at most as often as there are words |
| `Repetition.DominantWordIsUnique` | main.py:240-242 | at most one word can be over 70% |
| `Repetition.UniformIsRepetitive` | main.py:236-242 | six or more copies of one word are flagged |
| `Repetition.ShortNeverRepetitive` | main.py:236-237 | fewer than six words are never flagged |
| `Repetition.AtMostTenOnlyDominance` | main.py:245 | with at most ten words only the 70% rule applies |
| `Repetition.CountAppend` | main.py:241 | the count over a concatenation is the sum of the counts |
| `Repetition.SevenOfTenExample` | main.py:241 | 7 of 10 is not more than 70%: not flagged |
| `Repetition.SevenOfNineExample` | main.py:241 | 7 of 9 is more than 70%: flagged |
| `Repetition.TripleExample` | main.py:245-251 | a run of three repeated at the first window of 11 words is flagged |
| `Repetition.LateTripleExample` | main.py:247 | a run of three repeated at window `n - 9` is outside the scan and not flagged |
| `Pipeline.Classify` | main.py:173-224 | no chunks: no audio; under 10: too short; a failed transcription: error; a repetitive transcript: corrupted; a blank one: no speech; otherwise the non-empty replaced, stripped text is typed |
| `Pipeline.TranscribeAndType` | main.py:173-224 | the method with the filter and replacement loops reaches the outcome `Classify` specifies |
| `Pipeline.OrderOfChecksIrrelevant` | main.py:209-221 | testing emptiness before the filter would give the same outcomes |
| `Pipeline.DictationExample` | main.py:206-219 | the transcript `" change directory slash home"` of a long enough recording is typed as `cd / ~` |
| `Session.Init` | main.py:52-59 | a new session records nothing, processes nothing and holds no device |
| `Session.Cleanup` | main.py:153-168 | each handle is released unless its release call raised, and nothing else changes |
| `Session.Start` | main.py:75-110 | a start inside `min_interval` of the last one, or while recording or processing, changes nothing; an accepted start sets the timestamp and empties the buffer, records only if the devices opened, and otherwise releases them |
| `Session.Capture` | main.py:115-122 | one loop iteration appends a non-empty chunk, skips an empty one, and leaves the loop on a read error or a failed loop condition |
| `Session.Stop` | main.py:126-144 | a stop when not recording or while processing changes nothing; otherwise it ends the recording, starts processing, keeps the buffer and releases the devices |
| `Session.Done` | main.py:150-151 | the end of processing clears `processing` and nothing else |
| `Session.StepPreservesInv` | main.py:83-151 | every event keeps the invariant: never recording while processing, a recording holds both devices, the buffer holds only non-empty chunks |
| `Session.RunPreservesInv` | main.py:83-151 | every trace of events keeps the invariant |
| `Session.NeverRecordingWhileProcessing` | main.py:83-151 | from a new session, no trace of events leads to recording and processing at once |
| `Session.CleanupIdempotent` | main.py:153-168 | a second cleanup after a successful one changes nothing |
| `Session.StartsAreSpaced` | main.py:79-89 | an accepted start comes at least `min_interval` after the timestamp of any earlier state |
| `Session.Step` | main.py:268-277 | no event moves the debounce timestamp back; a press or release of a key other than Super changes nothing |
| `Session.Captures` | main.py:115-122 | the capture loop only appends to the buffer, and changes no other field but whether the loop still runs |
| `Session.CapturesAppendKept` | main.py:115-119 | while reads return data, the loop appends exactly the non-empty chunks, in order |
| `Session.CapturesPreserveInv` | main.py:115-122 | the capture loop keeps the invariant |
| `Session.NoCaptureAfterExit` | main.py:115 | once the loop has been left, no read changes anything |
| `Session.ReadErrorEndsCapture` | main.py:120-122 | a read error ends the loop and keeps the collected buffer |
| `Session.SecondRecordingStarts` | main.py:79-89 | after a stop and the end of processing, a press `min_interval` later starts recording again |
| `Recorder.WhisperPtt.constructor` | main.py:52-59 | the new object is the initial session and satisfies the invariant |
| `Recorder.WhisperPtt.CleanupAudio` | main.py:153-168 | the fields change as `Session.Cleanup` says; called when not recording, it keeps the invariant |
| `Recorder.WhisperPtt.StartRecording` | main.py:75-110 | the fields change as `Session.Start` says, keeping the invariant |
| `Recorder.WhisperPtt.CaptureStep` | main.py:115-122 | the fields change as `Session.Capture` says, keeping the invariant |
| `Recorder.WhisperPtt.RecordAudio` | main.py:112-124 | the capture loop over the stream's answers ends in the state `Session.Captures` gives, keeping the invariant |
| `Recorder.WhisperPtt.StopRecording` | main.py:126-144 | the fields change as `Session.Stop` says, keeping the invariant |
| `Recorder.WhisperPtt.ProcessRecording` | main.py:146-151 | the outcome is `Classify` of the buffer and the transcript, and `processing` is cleared whatever it is |
| `Recorder.WhisperPtt.OnPress` | main.py:268-270 | a Super press starts a recording; any other press changes nothing; the invariant is kept |
| `Recorder.WhisperPtt.OnRelease` | main.py:272-277 | a Super release stops the recording; Escape ends the listener; the invariant is kept |

## Left out

- The Whisper model is not modelled: `whisper.load_model` and `model.transcribe` (main.py:26, 196-204) are foreign calls. The transcript is an input, `Pipeline.Transcript`. `Failed` stands for any exception before the filter, which the `except` at main.py:223-224 catches. That includes writing the temporary WAV file.
- WAV and temporary-file handling are not modelled (main.py:183-193, 225-231). This is file I/O.
- Typing the text is not modelled: `_type_text` (main.py:255-266) injects keystrokes into the OS. The `Typed` outcome carries the text it would type.
- The PyAudio calls are not modelled. The model keeps only whether each call returned or raised:
  - `Opening` records how far `start_recording`'s `try` block got.
  - `Teardown` records whether `stop_stream`/`close` and `terminate` returned.
- Threads are not modelled. The capture thread and the processing thread are interleaved with the key handlers as a sequential trace of events.
  - Unsynchronised access to the shared flags and buffer is not represented.
  - `Recorder.WhisperPtt.StopRecording`: assumes the capture loop has left once `join(timeout=1.0)` returns (main.py:137-138). A loop still inside a blocking read after the timeout is not modelled.
- Clock and delays: `time.time()` is an integer millisecond input, and the `time.sleep` delays are not modelled.
- `Repetition.IsRepetitiveText`: models `count > len(words) * 0.7` as `10 * count > 7 * len(words)`.
  - The source multiplies in binary floating point. For some multiples of ten the product rounds just below the exact value: `90 * 0.7` evaluates to `62.99999999999999`.
  - So a word filling exactly 70% of such a list is flagged by the source but not by the model.
- Python iterates over `set(words)` in an unspecified order. `IsRepetitiveText` picks the words in any order, and its result does not depend on the order.
- The process lifecycle is not modelled: `signal_handler`, `sys.exit`, `_init_audio`, `cleanup`, `start_listening` and the `__main__` block. Neither are the `print` messages. Outcomes are datatype values instead.
- `StrReplace.ReplaceAll` is defined only for a non-empty pattern. Every key in the table is non-empty, so Python's special case for an empty pattern is never reached.
