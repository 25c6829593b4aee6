/**
 * The recording session of `AudioTranscriber`: the two-state machine
 * {idle, recording} over `is_recording` and the captured `frames`, and the
 * transcription that runs once capture has stopped. The recognizers, the
 * arbiter and the cloud service are oracles passed in as functions; text
 * insertion is recorded in a log of inserted texts.
 */
module Session {
  import opened Wrappers
  import opened Text
  import opened Reconcile

  newtype byte = x: int | 0 <= x < 256

  /** `config['engine']`: the two engines the program knows, or any other name. */
  datatype Engine = Vosk | Google | Unknown(name: string)

  /** The parsed JSON of one offline recognizer: its `text` and `result` keys may be missing. */
  datatype Recognition = Recognition(text: Option<string>, result: Option<seq<WordEntry>>)

  /**
   * `result.get('text', '').strip()`: a missing text is empty, and the text
   * never has whitespace at either end.
   */
  function RecognizedText(r: Recognition): (t: string)
    ensures r.text.None? ==> t == ""
    ensures r.text.Some? ==> |t| <= |r.text.value|
    ensures t == [] || (!IsSpace(t[0]) && !IsSpace(t[|t| - 1]))
  {
    StripWhitespace(r.text.GetOr(""))
  }

  /** `result.get('result', [])`: a missing word list is empty. */
  function RecognizedWords(r: Recognition): (ws: seq<WordEntry>)
    ensures r.result.None? ==> ws == []
    ensures r.result.Some? ==> ws == r.result.value
  {
    r.result.GetOr([])
  }

  /**
   * `b''.join(frames)`: the captured chunks, in capture order, with no byte
   * lost or added (`ConcatHoldsFrame` places each chunk).
   */
  function Concat(frames: seq<seq<byte>>): (r: seq<byte>)
    ensures |r| == SumLengths(frames)
  {
    if frames == [] then [] else frames[0] + Concat(frames[1..])
  }

  /** Appending a chunk extends the audio at its end and leaves what was captured before intact. */
  lemma {:induction false} ConcatAppend(frames: seq<seq<byte>>, chunk: seq<byte>)
    ensures Concat(frames + [chunk]) == Concat(frames) + chunk
  {
    if frames != [] {
      assert (frames + [chunk])[1..] == frames[1..] + [chunk];
      ConcatAppend(frames[1..], chunk);
    }
  }

  /** Every captured chunk sits in the joined audio at the offset given by the chunks before it. */
  lemma {:induction false} ConcatHoldsFrame(frames: seq<seq<byte>>, i: nat)
    requires i < |frames|
    ensures |Concat(frames[..i])| + |frames[i]| <= |Concat(frames)|
    ensures Concat(frames)[|Concat(frames[..i])|..|Concat(frames[..i])| + |frames[i]|] == frames[i]
  {
    if i == 0 {
      assert frames[..0] == [];
    } else {
      ConcatHoldsFrame(frames[1..], i - 1);
      assert frames[1..][..i - 1] == frames[..i][1..];
      assert frames[1..][i - 1] == frames[i];
    }
  }

  /**
   * What `transcribe_vosk` inserts for the joined audio, or `None`. Without
   * a model nothing is; with a single model its stripped text is inserted
   * when non-empty, with no merge and no arbiter.
   */
  function VoskOutcome(hasModelRu: bool, hasModelEn: bool, audio: seq<byte>,
                       recognizeRu: seq<byte> -> Recognition, recognizeEn: seq<byte> -> Recognition,
                       apiKey: Option<string>,
                       arbiter: (seq<WordEntry>, seq<WordEntry>) -> Option<string>): (r: Option<string>)
    ensures !hasModelRu && !hasModelEn ==> r.None?
    ensures hasModelRu && !hasModelEn ==>
      r == (var t := RecognizedText(recognizeRu(audio)); if t != "" then Some(t) else None)
    ensures !hasModelRu && hasModelEn ==>
      r == (var t := RecognizedText(recognizeEn(audio)); if t != "" then Some(t) else None)
  {
    if !hasModelRu && !hasModelEn then None
    else
      var textRu := if hasModelRu then RecognizedText(recognizeRu(audio)) else "";
      var wordsRu := if hasModelRu then RecognizedWords(recognizeRu(audio)) else [];
      var textEn := if hasModelEn then RecognizedText(recognizeEn(audio)) else "";
      var wordsEn := if hasModelEn then RecognizedWords(recognizeEn(audio)) else [];
      FinalText(wordsRu, wordsEn, textRu, textEn, apiKey, arbiter(wordsRu, wordsEn))
  }

  /**
   * What `transcribe_audio` inserts for the captured frames, or `None`: no
   * frames, an unknown engine, or the offline engine without a model give
   * nothing; the cloud engine gives the service's transcript of all frames.
   */
  function Transcription(engine: Engine, hasModelRu: bool, hasModelEn: bool, frames: seq<seq<byte>>,
                         recognizeRu: seq<byte> -> Recognition, recognizeEn: seq<byte> -> Recognition,
                         apiKey: Option<string>,
                         arbiter: (seq<WordEntry>, seq<WordEntry>) -> Option<string>,
                         cloud: seq<byte> -> Option<string>): (r: Option<string>)
    ensures frames == [] ==> r.None?
    ensures engine.Unknown? ==> r.None?
    ensures engine == Vosk && !hasModelRu && !hasModelEn ==> r.None?
    ensures frames != [] && engine == Google ==> r == cloud(Concat(frames))
    ensures frames != [] && engine == Vosk ==>
      r == VoskOutcome(hasModelRu, hasModelEn, Concat(frames), recognizeRu, recognizeEn, apiKey, arbiter)
  {
    if frames == [] then None
    else
      match engine
      case Vosk => VoskOutcome(hasModelRu, hasModelEn, Concat(frames), recognizeRu, recognizeEn, apiKey, arbiter)
      case Google => cloud(Concat(frames))
      case Unknown(_) => None
  }

  function AsList(t: Option<string>): seq<string> {
    match t
    case Some(s) => [s]
    case None => []
  }

  /**
   * With only the primary model loaded, the primary recognizer's text is
   * inserted whenever it is non-empty; no merge takes place.
   */
  lemma OnlyPrimaryModel(frames: seq<seq<byte>>,
                         recognizeRu: seq<byte> -> Recognition, recognizeEn: seq<byte> -> Recognition,
                         apiKey: Option<string>,
                         arbiter: (seq<WordEntry>, seq<WordEntry>) -> Option<string>,
                         cloud: seq<byte> -> Option<string>)
    requires frames != []
    requires RecognizedText(recognizeRu(Concat(frames))) != ""
    ensures Transcription(Vosk, true, false, frames, recognizeRu, recognizeEn, apiKey, arbiter, cloud)
            == Some(RecognizedText(recognizeRu(Concat(frames))))
  {
    var audio := Concat(frames);
    var wordsRu := RecognizedWords(recognizeRu(audio));
    assert Select(wordsRu, [], RecognizedText(recognizeRu(audio)), "") == PrimaryText;
  }

  class AudioTranscriber {
    const engine: Engine
    const hasModelRu: bool
    const hasModelEn: bool

    var isRecording: bool
    var frames: seq<seq<byte>>
    var savedWindow: Option<int>
    /** The texts handed to `insert_text`, oldest first. */
    var inserted: seq<string>

    /**
     * The offline engine is selected but neither model could be loaded. The
     * cloud engine, or any loaded model, rules it out.
     */
    predicate NoModel()
      ensures engine != Vosk ==> !NoModel()
      ensures hasModelRu || hasModelEn ==> !NoModel()
    {
      engine == Vosk && !hasModelRu && !hasModelEn
    }

    /**
     * Without a usable model the session never records, captures or inserts
     * anything; a session with a usable engine is always valid.
     */
    ghost predicate Valid()
      reads this
      ensures !NoModel() ==> Valid()
      ensures Valid() && NoModel() ==> !isRecording && frames == [] && inserted == []
    {
      NoModel() ==> !isRecording && frames == [] && inserted == []
    }

    /** `__init__`, with the configuration and the model loading results given. */
    constructor (engine: Engine, hasModelRu: bool, hasModelEn: bool)
      ensures Valid()
      ensures this.engine == engine && this.hasModelRu == hasModelRu && this.hasModelEn == hasModelEn
      ensures !isRecording && frames == [] && savedWindow.None? && inserted == []
    {
      this.engine := engine;
      this.hasModelRu := hasModelRu;
      this.hasModelEn := hasModelEn;
      isRecording := false;
      frames := [];
      savedWindow := None;
      inserted := [];
    }

    /**
     * `start_listening`. `foreground` is the window that had focus, or `None`
     * when asking for it failed. Starting while recording, or with no model
     * for the offline engine, changes nothing; otherwise recording starts
     * with no frames.
     */
    method StartListening(foreground: Option<int>)
      requires Valid()
      modifies this
      ensures Valid()
      ensures old(isRecording) || NoModel() ==> unchanged(this)
      ensures !old(isRecording) && !NoModel() ==>
        isRecording && frames == [] && savedWindow == foreground && inserted == old(inserted)
    {
      if isRecording {
        return;
      }
      if engine == Vosk {
        if !hasModelRu && !hasModelEn {
          return;
        }
      }
      savedWindow := foreground;
      isRecording := true;
      frames := [];
    }

    /** `stop_listening`: recording ends; when idle this is a no-op. Frames are kept for transcription. */
    method StopListening()
      requires Valid()
      modifies this`isRecording
      ensures Valid()
      ensures !isRecording
    {
      if isRecording {
        isRecording := false;
      }
    }

    /** `toggle_recording`: stop when recording, start when idle. */
    method ToggleRecording(foreground: Option<int>)
      requires Valid()
      modifies this
      ensures Valid()
      ensures old(isRecording) ==>
        !isRecording && frames == old(frames) && savedWindow == old(savedWindow) && inserted == old(inserted)
      ensures !old(isRecording) && NoModel() ==> unchanged(this)
      ensures !old(isRecording) && !NoModel() ==>
        isRecording && frames == [] && savedWindow == foreground && inserted == old(inserted)
    {
      if isRecording {
        StopListening();
      } else {
        StartListening(foreground);
      }
    }

    /**
     * One turn of the capture loop: while recording, the chunk read from
     * the microphone is appended; once recording has stopped nothing is.
     */
    method CaptureChunk(chunk: seq<byte>)
      requires Valid()
      modifies this`frames
      ensures Valid()
      ensures frames == if old(isRecording) then old(frames) + [chunk] else old(frames)
      ensures old(isRecording) ==> Concat(frames) == Concat(old(frames)) + chunk
    {
      if isRecording {
        ConcatAppend(frames, chunk);
        frames := frames + [chunk];
      }
    }

    /** `insert_text`, as far as the session is concerned: the text is delivered. */
    method InsertText(text: string)
      requires Valid() && !NoModel()
      modifies this`inserted
      ensures Valid()
      ensures inserted == old(inserted) + [text]
    {
      inserted := inserted + [text];
    }

    /** `transcribe_vosk`: recognize the joined audio with each loaded model and insert the selected text. */
    method TranscribeVosk(recognizeRu: seq<byte> -> Recognition, recognizeEn: seq<byte> -> Recognition,
                          apiKey: Option<string>,
                          arbiter: (seq<WordEntry>, seq<WordEntry>) -> Option<string>)
      requires Valid()
      modifies this`inserted
      ensures Valid()
      ensures inserted == old(inserted)
        + AsList(VoskOutcome(hasModelRu, hasModelEn, Concat(frames), recognizeRu, recognizeEn, apiKey, arbiter))
    {
      if !hasModelRu && !hasModelEn {
        return;
      }
      assert !NoModel();
      var audio := Concat(frames);

      var textRu, wordsRu := "", [];
      if hasModelRu {
        var resultRu := recognizeRu(audio);
        textRu, wordsRu := RecognizedText(resultRu), RecognizedWords(resultRu);
      }
      var textEn, wordsEn := "", [];
      if hasModelEn {
        var resultEn := recognizeEn(audio);
        textEn, wordsEn := RecognizedText(resultEn), RecognizedWords(resultEn);
      }

      ghost var outcome := FinalText(wordsRu, wordsEn, textRu, textEn, apiKey, arbiter(wordsRu, wordsEn));
      assert outcome == VoskOutcome(hasModelRu, hasModelEn, audio, recognizeRu, recognizeEn, apiKey, arbiter);
      var finalText;
      match Select(wordsRu, wordsEn, textRu, textEn) {
        case MergeBoth =>
          finalText := CombineResults(wordsRu, wordsEn, apiKey, arbiter);
        case PrimaryText =>
          finalText := textRu;
        case SecondaryText =>
          finalText := textEn;
        case NothingRecognized =>
          assert outcome == None;
          return;
      }
      assert outcome == Some(finalText);
      InsertText(finalText);
    }

    /** `transcribe_google`: insert the cloud transcript when the service returned one. */
    method TranscribeGoogle(cloud: seq<byte> -> Option<string>)
      requires Valid() && !NoModel()
      modifies this`inserted
      ensures Valid()
      ensures inserted == old(inserted) + AsList(cloud(Concat(frames)))
    {
      var transcript := cloud(Concat(frames));
      if transcript.Some? {
        InsertText(transcript.value);
      }
    }

    /**
     * `transcribe_audio`: with no captured frames nothing is transcribed or
     * inserted; otherwise the configured engine transcribes all frames,
     * joined in capture order.
     */
    method TranscribeAudio(recognizeRu: seq<byte> -> Recognition, recognizeEn: seq<byte> -> Recognition,
                           apiKey: Option<string>,
                           arbiter: (seq<WordEntry>, seq<WordEntry>) -> Option<string>,
                           cloud: seq<byte> -> Option<string>)
      requires Valid()
      modifies this`inserted
      ensures Valid()
      ensures frames == [] ==> inserted == old(inserted)
      ensures inserted == old(inserted)
        + AsList(Transcription(engine, hasModelRu, hasModelEn, frames, recognizeRu, recognizeEn, apiKey, arbiter, cloud))
    {
      if frames == [] {
        return;
      }
      match engine {
        case Vosk =>
          TranscribeVosk(recognizeRu, recognizeEn, apiKey, arbiter);
        case Google =>
          TranscribeGoogle(cloud);
        case Unknown(_) =>
      }
    }
  }
}
