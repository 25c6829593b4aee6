# Dictation transcriber: verified model of the recording session and transcript reconciliation

The program is a hotkey-driven dictation tool (`AudioTranscriber` in `main.py`).
A hotkey toggles recording. While recording, a capture loop appends raw PCM chunks to
`frames`. When recording stops, the joined audio is transcribed, either by two offline
Vosk models (a primary Russian model and a secondary English model) or by a cloud
speech service. The result is then inserted into the focused window.

This project models the sequential logic inside that program:

- **`Text`** (`text.dfy`): Python's `str.strip()`, `str.strip(chars)`, `' '.join(...)`,
  and `str.split(' ')` as the join's partner. Each is written out with its exact semantics,
  including Python's full whitespace set.
- **`Reconcile`** (`reconcile.dfy`): `combine_results` and the selection in
  `transcribe_vosk`.
  - The fallback merge walks positions `0 .. max(len) - 1`. At each position it keeps
    the secondary (English) word only when that word's confidence is strictly higher;
    ties go to the primary (Russian) word. Past the shorter list it copies the longer
    list's word, then joins the words with single spaces.
  - `CombineResults` is that loop, proved against a recursive reference definition,
    `MergedWords`.
  - The language-model arbiter is an oracle that returns the raw reply or `None`. Its
    reply is used only when an API key is set, a reply came back, and the reply is
    non-empty after stripping.
  - `Select` and `FinalText` give the order of the if/elif chain: merge, primary text,
    secondary text, nothing.
- **`Session`** (`session.dfy`): the class `AudioTranscriber` with the fields
  `is_recording`, `frames` and `saved_hwnd`, plus a log of inserted texts.
  - Its methods are `start_listening`, `stop_listening`, `toggle_recording`, one turn
    of the capture loop, and `transcribe_audio` / `transcribe_vosk` / `transcribe_google`.
  - The object invariant says that a session whose offline engine has no loaded model
    never records, captures or inserts anything.
  - The recognizers, the arbiter and the cloud service are function parameters (oracles).

Points where the code differs from a natural reading of its design:

- The reply post-processing (`strip()`, then `strip('"\'')`) is **not idempotent**.
  A reply `" w"` in quotes becomes ` w`, and a second pass would trim the space as
  well. `StripReplyNotIdempotent` proves this for every bare word `w`.
  `StripReplyStable` proves the property that does hold: a second pass changes
  nothing when the quote strip uncovered no whitespace. Each strip on its own is
  idempotent (`Text.StripIdempotent`).
- Starting while already recording returns silently. There is no error.
- With the offline engine selected and neither model loaded, `start_listening`
  refuses to start. It does not start and fail later. The model follows the code.
- `stop_listening` only clears the flag. Transcription runs when the capture thread
  leaves its loop, so `TranscribeAudio` is a separate operation.

## Model

| member | source | states |
|---|---|---|
| Text.LeadingRun | main.py:323-325 | the characters a left strip removes: the longest prefix whose characters are all in the class; the next character, if any, is not |
| Text.TrailingRun | main.py:323-325 | the longest suffix whose characters are all in the class; the character before it, if any, is not |
| Text.Strip | main.py:323-325 | `strip` never lengthens the text, and its result neither starts nor ends with a character of the class |
| Text.StripWhitespace | main.py:188 | the bare `strip()` never lengthens the text and leaves no whitespace (in Python's `isspace` sense) at either end |
| Text.StripSlice | main.py:323-325 | `strip` keeps one contiguous slice of the input; everything cut before and after it belongs to the class |
| Text.StripNoop | main.py:323-325 | a text with no strippable character at either end is returned unchanged |
| Text.StripIdempotent | main.py:323-325 | a single strip (whitespace, or quotes) applied twice equals applied once |
| Text.Join | main.py:266 | `' '.join`: empty list gives the empty text; otherwise the text starts with the first word, ends with the last, and its length is the words' total length plus one separator between each pair |
| Text.Split | main.py:266 | the partner of the join: at least one piece, no piece contains the separator |
| Text.SplitJoin | main.py:266 | splitting `' '.join(words)` on single spaces gives `words` back, when the list is non-empty and no word contains a space |
| Reconcile.WordText | main.py:252-253 | `.get('word', '')`: a missing `word` counts as the empty text, a present one is taken as it is |
| Reconcile.Conf | main.py:254-255 | `.get('conf', 0)`: a missing `conf` counts as 0, a present one is taken as it is |
| Reconcile.PickWord | main.py:248-260 | the word kept where both lists have one is one of the two; the English word when, and only when, its confidence is strictly higher, so a tie keeps the Russian word |
| Reconcile.MergedWords | main.py:244-265 | the fallback emits exactly `max(len(words_ru), len(words_en))` words |
| Reconcile.MergedAt | main.py:247-264 | word `i` is decided by position `i` alone: the pick between both words where both lists reach `i`, otherwise the word of the list that does |
| Reconcile.SamePosition | main.py:247-264 | no reordering or realignment: word `i` of the merge equals word `i` of the primary or of the secondary list |
| Reconcile.PrimaryKeptUnlessOutscored | main.py:248-260 | where both lists have a word, the English word is chosen iff `conf_en > conf_ru`; on a tie or lower confidence the Russian word is kept |
| Reconcile.MissingConfidencesTie | main.py:252-257 | two words without `conf` both count as 0, so the Russian word is kept |
| Reconcile.TailCopied | main.py:261-264 | past the end of the shorter list, the longer list's word is copied verbatim |
| Reconcile.MergedTextWordCount | main.py:244-266 | when no word contains a space, the joined merge splits back into exactly `max(len)` words, in position order |
| Reconcile.StripReply | main.py:323-325 | the processed reply never starts or ends with `"` or `'` |
| Reconcile.StripReplyStable | main.py:323-325 | processing a processed reply again changes nothing, provided the quote strip uncovered no whitespace |
| Reconcile.OpeningQuoteCut | main.py:325 | step of `StripReplyNotIdempotent`: the quote strip cuts exactly one leading character, the opening quote, and stops at the space after it |
| Reconcile.ClosingQuoteCut | main.py:325 | step of `StripReplyNotIdempotent`: the quote strip cuts exactly one trailing character, the closing quote, and stops at the bare text before it |
| Reconcile.QuotedReplyKeepsInnerSpace | main.py:323-325 | step of `StripReplyNotIdempotent`: a reply `"` + space + `w` + `"` is processed to space + `w` |
| Reconcile.SpacedReplyTrimmed | main.py:323-325 | step of `StripReplyNotIdempotent`: a reply space + `w` is processed to `w` |
| Reconcile.StripReplyNotIdempotent | main.py:323-325 | for every bare `w`, processing twice gives `w` but processing once gives space + `w`: the post-processing is not idempotent |
| Reconcile.KeyPresent | main.py:232-233 | an unset or empty `DEEPSEEK_API_KEY` counts as absent; a present key is non-empty |
| Reconcile.AcceptsReply | main.py:233-238 | a reply is used only when a key is set and a reply came back; a reply of only whitespace or only quotes is never used |
| Reconcile.Combined | main.py:232-266 | the result is the stripped reply exactly when that reply is accepted, and then it is non-empty; in every other case (no key, no reply, a reply that strips to nothing) it is the joined fallback merge |
| Reconcile.CombineResults | main.py:226-266 | without a key the arbiter's reply is ignored; the loop's result equals `Combined` over the reference merge |
| Reconcile.Select | main.py:209-218 | merge iff both word lists are non-empty; otherwise a non-empty primary text wins; primary text only when it is non-empty; the secondary text iff the merge does not apply, the primary text is empty and the secondary is not; nothing iff both texts are empty and the merge does not apply |
| Reconcile.FinalText | main.py:209-221 | both word lists non-empty: the combined result; otherwise the primary text if non-empty, else the secondary text if non-empty, else nothing |
| Reconcile.FallbackAlwaysAvailable | main.py:209-243 | a text is produced iff both word lists are non-empty or some text is non-empty, whatever the arbiter does; without an accepted reply it is the deterministic merge |
| Reconcile.FinalTextWordsAligned | main.py:209-266 | with no accepted reply, the final text has `max(len)` space-separated words, word `i` taken from position `i` of one input |
| Reconcile.MixedUtterance | main.py:209-266 | `[привет 0.95, мир 0.6]` against `[hello 0.4, world 0.9]` with no key gives `привет world` |
| Reconcile.TextsWithoutWords | main.py:210-213 | empty word lists with texts `a` and `b` give the primary text `a` |
| Session.RecognizedText | main.py:188 | `result.get('text', '').strip()`: a missing `text` gives the empty text; the result is never longer than the text and has no whitespace at either end |
| Session.RecognizedWords | main.py:189 | `result.get('result', [])`: a missing `result` gives no words; a present list is taken as it is |
| Session.Concat | main.py:172 | the joined audio is exactly as long as all frames together: no byte is lost or added |
| Session.ConcatAppend | main.py:128-130 | appending a chunk extends the joined audio at its end and leaves earlier audio intact |
| Session.ConcatHoldsFrame | main.py:172 | every frame appears in the joined audio, in order, at the offset of the frames before it |
| Session.VoskOutcome | main.py:165-224 | no model: nothing; a single model: its stripped text when non-empty, otherwise nothing, with no merge and no arbiter |
| Session.Transcription | main.py:152-163 | no frames, an unknown engine, or the offline engine without a model: nothing; otherwise the offline engine gives `VoskOutcome` and the cloud engine the service's transcript, both over all frames joined in order |
| Session.OnlyPrimaryModel | main.py:165-218 | with only the Russian model loaded and non-empty frames and text, the Russian text is inserted and no merge takes place |
| Session.AudioTranscriber.NoModel | main.py:90-91 | the offline engine with neither model loaded; the cloud engine, or any loaded model, rules it out |
| Session.AudioTranscriber.Valid | main.py:86-109 | the object invariant: a session without a usable model is idle, with no frames and nothing inserted; any session with a usable engine satisfies it |
| Session.AudioTranscriber.constructor | main.py:22-34 | a new session is idle, with no frames, no saved window and nothing inserted |
| Session.AudioTranscriber.StartListening | main.py:84-114 | while recording: no change; offline engine with no model: no change; otherwise recording with `frames == []` and the focused window saved |
| Session.AudioTranscriber.StopListening | main.py:142-150 | only the flag can change, and afterwards it is false; when idle this is a no-op |
| Session.AudioTranscriber.ToggleRecording | main.py:467-472 | dispatches on `is_recording`: stop when recording, start when idle, with each one's effect |
| Session.AudioTranscriber.CaptureChunk | main.py:128-130 | while recording the chunk is appended and the joined audio grows by exactly it; once stopped nothing is appended |
| Session.AudioTranscriber.InsertText | main.py:392 | called only with a usable engine; the text is delivered, after all earlier ones, and the invariant is kept |
| Session.AudioTranscriber.TranscribeVosk | main.py:165-224 | runs each loaded recognizer on the joined frames and inserts what the selection yields; nothing without a model |
| Session.AudioTranscriber.TranscribeGoogle | main.py:336-390 | called only with a usable engine; inserts the cloud transcript if one came back, otherwise nothing, and keeps the invariant |
| Session.AudioTranscriber.TranscribeAudio | main.py:152-163 | with no frames nothing is transcribed or inserted; otherwise the configured engine transcribes all frames joined in order; an unknown engine inserts nothing |

## Left out

- Microphone capture through pyaudio, and the threads. The capture loop is one atomic `CaptureChunk` step. The race between its `while self.is_recording` test and the append is not modelled: a chunk read just before a stop can still be appended after it.
- The hotkey listener, `main`, the start/stop beeps, and all logging (`print`). These are plumbing, sound or output with no state the core reads.
- `insert_text` beyond delivering the text: clipboard save and restore, focus restore through Win32 calls, the Alt+Tab fallback, the sleeps, and the trailing space it pastes. All of these are OS calls. Insertion is a log of delivered texts.
- The DeepSeek request and the Google Speech request: prompt text, `:.2f` formatting, WAV building, base64, status codes and timeouts. These are network and library wrappers. They are the `arbiter` and `cloud` oracles: the raw reply content, or `None` on any failure.
- Vosk recognizer internals (`KaldiRecognizer`, `AcceptWaveform`, `Result`/`FinalResult`, JSON parsing). Each recognizer is a function from the joined audio to its parsed result. Its `text` is stripped as in the code.
- Loading `config.yaml`, its default values, and loading the models from disk. The engine and whether each model loaded are constructor inputs. Sample rates are not modelled.
- The broad `except Exception` in `transcribe_vosk`. It would fire, for instance, on a `conf` value that cannot be compared, such as JSON `null`. Confidences are modelled as present-or-missing reals, and that path is not represented.
- The `text_ru` and `text_en` arguments of `combine_results`. They are only printed, so `CombineResults` does not take them.
- The capture `stream` handle and `audio.terminate()`. These are resource management only.
