/**
 * Reconciliation of the two offline transcripts (primary: Russian model,
 * secondary: English model). `combine_results` first offers both word lists
 * to an optional language-model arbiter; when that yields nothing usable it
 * falls back to a positional merge that keeps, at each position, the word of
 * the more confident recognizer. `Select` is the if/elif chain that decides
 * between that merge, either plain text, and "nothing recognized".
 */
module Reconcile {
  import opened Wrappers
  import opened Text

  /**
   * One element of a recognizer's `result` list: a dictionary whose `word`
   * and `conf` keys may each be missing.
   */
  datatype WordEntry = WordEntry(word: Option<string>, conf: Option<real>)

  /** `entry.get('word', '')`: a missing word counts as the empty text. */
  function WordText(w: WordEntry): (r: string)
    ensures w.word.None? ==> r == ""
    ensures w.word.Some? ==> r == w.word.value
  {
    w.word.GetOr("")
  }

  /** `entry.get('conf', 0)`: a missing confidence counts as zero. */
  function Conf(w: WordEntry): (r: real)
    ensures w.conf.None? ==> r == 0.0
    ensures w.conf.Some? ==> r == w.conf.value
  {
    w.conf.GetOr(0.0)
  }

  function Max(a: int, b: int): int {
    if a >= b then a else b
  }

  /**
   * The word kept where both lists have one: always one of the two words,
   * the secondary only if strictly more confident, so a tie keeps the primary.
   */
  function PickWord(primary: WordEntry, secondary: WordEntry): (r: string)
    ensures r == WordText(primary) || r == WordText(secondary)
    ensures r != WordText(primary) ==> Conf(secondary) > Conf(primary)
    ensures Conf(secondary) > Conf(primary) ==> r == WordText(secondary)
    ensures Conf(secondary) == Conf(primary) ==> r == WordText(primary)
  {
    if Conf(secondary) > Conf(primary) then WordText(secondary) else WordText(primary)
  }

  /** The words of a list, in order, missing ones read as "". */
  function Texts(ws: seq<WordEntry>): seq<string> {
    seq(|ws|, k requires 0 <= k < |ws| => WordText(ws[k]))
  }

  /**
   * Reference definition of the fallback merge: pair the two lists head to
   * head while both last, then copy the rest of the longer one. It emits
   * exactly as many words as the longer list has.
   */
  function MergedWords(primary: seq<WordEntry>, secondary: seq<WordEntry>): (r: seq<string>)
    ensures |r| == Max(|primary|, |secondary|)
    decreases |primary|
  {
    if primary == [] then Texts(secondary)
    else if secondary == [] then Texts(primary)
    else [PickWord(primary[0], secondary[0])] + MergedWords(primary[1..], secondary[1..])
  }

  /**
   * Word `i` of the merge is decided by position `i` of the inputs alone:
   * the more confident word where both lists reach `i`, otherwise the word
   * of the list that does.
   */
  lemma {:induction false} MergedAt(primary: seq<WordEntry>, secondary: seq<WordEntry>, i: nat)
    requires i < Max(|primary|, |secondary|)
    ensures |MergedWords(primary, secondary)| == Max(|primary|, |secondary|)
    ensures MergedWords(primary, secondary)[i] ==
      if i < |primary| && i < |secondary| then PickWord(primary[i], secondary[i])
      else if i < |primary| then WordText(primary[i])
      else WordText(secondary[i])
    decreases i
  {
    if primary != [] && secondary != [] && i > 0 {
      MergedAt(primary[1..], secondary[1..], i - 1);
    }
  }

  /** No reordering or realignment: word `i` of the merge is word `i` of one of the inputs. */
  lemma SamePosition(primary: seq<WordEntry>, secondary: seq<WordEntry>, i: nat)
    requires i < Max(|primary|, |secondary|)
    ensures i < |MergedWords(primary, secondary)|
    ensures || (i < |primary| && MergedWords(primary, secondary)[i] == WordText(primary[i]))
            || (i < |secondary| && MergedWords(primary, secondary)[i] == WordText(secondary[i]))
  {
    MergedAt(primary, secondary, i);
  }

  /** Where both lists have a word, the primary one is kept unless the secondary is strictly more confident. */
  lemma PrimaryKeptUnlessOutscored(primary: seq<WordEntry>, secondary: seq<WordEntry>, i: nat)
    requires i < |primary| && i < |secondary|
    ensures i < |MergedWords(primary, secondary)|
    ensures Conf(secondary[i]) <= Conf(primary[i]) ==> MergedWords(primary, secondary)[i] == WordText(primary[i])
    ensures Conf(secondary[i]) > Conf(primary[i]) ==> MergedWords(primary, secondary)[i] == WordText(secondary[i])
  {
    MergedAt(primary, secondary, i);
  }

  /** Two words without a confidence tie, so the primary word is kept. */
  lemma MissingConfidencesTie(primary: seq<WordEntry>, secondary: seq<WordEntry>, i: nat)
    requires i < |primary| && i < |secondary|
    requires primary[i].conf.None? && secondary[i].conf.None?
    ensures i < |MergedWords(primary, secondary)|
    ensures MergedWords(primary, secondary)[i] == WordText(primary[i])
  {
    MergedAt(primary, secondary, i);
  }

  /** Past the end of the shorter list, the longer list's word is copied verbatim. */
  lemma TailCopied(primary: seq<WordEntry>, secondary: seq<WordEntry>, i: nat)
    requires i < Max(|primary|, |secondary|)
    ensures i < |MergedWords(primary, secondary)|
    ensures |secondary| <= i ==> MergedWords(primary, secondary)[i] == WordText(primary[i])
    ensures |primary| <= i ==> MergedWords(primary, secondary)[i] == WordText(secondary[i])
  {
    MergedAt(primary, secondary, i);
  }

  /**
   * When no word holds a space, splitting the joined merge on single spaces
   * gives back exactly `max(len(primary), len(secondary))` words.
   */
  lemma MergedTextWordCount(primary: seq<WordEntry>, secondary: seq<WordEntry>)
    requires |primary| > 0 || |secondary| > 0
    requires forall k :: 0 <= k < |primary| ==> ' ' !in WordText(primary[k])
    requires forall k :: 0 <= k < |secondary| ==> ' ' !in WordText(secondary[k])
    ensures Split(Join(MergedWords(primary, secondary))) == MergedWords(primary, secondary)
    ensures |Split(Join(MergedWords(primary, secondary)))| == Max(|primary|, |secondary|)
  {
    var merged := MergedWords(primary, secondary);
    forall k | 0 <= k < |merged| ensures ' ' !in merged[k] {
      SamePosition(primary, secondary, k);
    }
    SplitJoin(merged);
  }

  /** The characters of `strip('"\'')`. */
  const Quotes: CharClass := Chars({'"', '\''})

  /**
   * The post-processing of the arbiter's reply: surrounding whitespace is
   * trimmed first, then surrounding `"` and `'` characters. The result
   * never starts or ends with a quote.
   */
  function StripReply(reply: string): (r: string)
    ensures r == [] || (!InClass(r[0], Quotes) && !InClass(r[|r| - 1], Quotes))
  {
    Strip(StripWhitespace(reply), Quotes)
  }

  /**
   * Stripping a processed reply again changes nothing, provided the quote
   * strip did not uncover whitespace at either end.
   */
  lemma StripReplyStable(reply: string)
    requires var r := StripReply(reply); r == [] || (!IsSpace(r[0]) && !IsSpace(r[|r| - 1]))
    ensures StripReply(StripReply(reply)) == StripReply(reply)
  {
    var r := StripReply(reply);
    StripNoop(r, Whitespace);
    assert StripWhitespace(r) == r;
    StripNoop(r, Quotes);
    assert StripReply(r) == Strip(r, Quotes);
  }

  /** A non-empty text that neither starts nor ends with whitespace or a quote. */
  predicate Bare(w: string) {
    && w != []
    && !IsSpace(w[0]) && !IsSpace(w[|w| - 1])
    && !InClass(w[0], Quotes) && !InClass(w[|w| - 1], Quotes)
  }

  /** The quote strip cuts the opening quote and stops at the space after it. */
  lemma OpeningQuoteCut(w: string)
    ensures LeadingRun(['"', ' '] + w + ['"'], Quotes) == 1
  {
    var rest := [' '] + w + ['"'];
    assert ['"', ' '] + w + ['"'] == ['"'] + rest;
    LeadingRunCons('"', rest, Quotes);
    assert rest == [' '] + (w + ['"']);
    LeadingRunCons(' ', w + ['"'], Quotes);
  }

  /** The quote strip cuts the closing quote and stops at the bare text before it. */
  lemma ClosingQuoteCut(w: string)
    requires Bare(w)
    ensures TrailingRun([' '] + w + ['"'], Quotes) == 1
  {
    var inner := [' '] + w;
    TrailingRunSnoc(inner, '"', Quotes);
    assert TrailingRun(inner, Quotes) == 0;
  }

  /** A quoted reply with a space just inside the opening quote keeps that space after one pass. */
  lemma QuotedReplyKeepsInnerSpace(w: string)
    requires Bare(w)
    ensures StripReply(['"', ' '] + w + ['"']) == [' '] + w
  {
    var reply := ['"', ' '] + w + ['"'];
    assert reply[0] == '"' && reply[|reply| - 1] == '"';
    StripNoop(reply, Whitespace);
    OpeningQuoteCut(w);
    assert reply[1..] == [' '] + w + ['"'];
    ClosingQuoteCut(w);
    assert reply[1..|reply| - 1] == [' '] + w;
  }

  /** A reply with a leading space loses it. */
  lemma SpacedReplyTrimmed(w: string)
    requires Bare(w)
    ensures StripReply([' '] + w) == w
  {
    var spaced := [' '] + w;
    LeadingRunCons(' ', w, Whitespace);
    assert LeadingRun(w, Whitespace) == 0;
    assert spaced[1..] == w;
    assert TrailingRun(w, Whitespace) == 0;
    assert StripWhitespace(spaced) == w by {
      assert spaced[1..|spaced| - 0] == w;
    }
    StripNoop(w, Quotes);
  }

  /**
   * The post-processing is not idempotent: whitespace just inside the quotes
   * survives one pass and is trimmed by the next.
   */
  lemma StripReplyNotIdempotent(w: string)
    requires Bare(w)
    ensures StripReply(StripReply(['"', ' '] + w + ['"'])) == w
    ensures StripReply(['"', ' '] + w + ['"']) == [' '] + w != w
  {
    QuotedReplyKeepsInnerSpace(w);
    SpacedReplyTrimmed(w);
  }

  /** `if deepseek_key:` -- an unset or empty environment variable counts as absent. */
  predicate KeyPresent(apiKey: Option<string>)
    ensures apiKey.None? || apiKey == Some("") ==> !KeyPresent(apiKey)
    ensures KeyPresent(apiKey) ==> |apiKey.value| > 0
  {
    apiKey.Some? && apiKey.value != ""
  }

  /** A reply made only of whitespace, or only of quotes, is processed to nothing. */
  lemma BlankReplyEmpty(reply: string)
    ensures (forall k :: 0 <= k < |reply| ==> IsSpace(reply[k])) ==> StripReply(reply) == ""
    ensures (forall k :: 0 <= k < |reply| ==> InClass(reply[k], Quotes)) ==> StripReply(reply) == ""
  {
    if forall k :: 0 <= k < |reply| ==> IsSpace(reply[k]) {
      StripAllInClass(reply, Whitespace);
    }
    if forall k :: 0 <= k < |reply| ==> InClass(reply[k], Quotes) {
      StripKeepsAll(reply, Whitespace, Quotes);
      StripAllInClass(StripWhitespace(reply), Quotes);
    }
  }

  /**
   * The arbiter's answer is used: a key is set, a reply came back, and it is
   * non-empty once stripped. Without a key nothing is accepted, and a reply
   * of only whitespace or only quotes is rejected.
   */
  predicate AcceptsReply(apiKey: Option<string>, reply: Option<string>)
    ensures AcceptsReply(apiKey, reply) ==> KeyPresent(apiKey) && reply.Some?
    ensures reply.Some? && (forall k :: 0 <= k < |reply.value| ==> IsSpace(reply.value[k])) ==> !AcceptsReply(apiKey, reply)
    ensures reply.Some? && (forall k :: 0 <= k < |reply.value| ==> InClass(reply.value[k], Quotes)) ==> !AcceptsReply(apiKey, reply)
  {
    KeyPresent(apiKey) && reply.Some? && (BlankReplyEmpty(reply.value); StripReply(reply.value) != "")
  }

  /**
   * What `combine_results` returns, given the arbiter's raw reply (`None`
   * for a non-200 status, a network error or a malformed body). It is always
   * a string: either the accepted reply or the joined fallback merge.
   */
  function Combined(primary: seq<WordEntry>, secondary: seq<WordEntry>,
                    apiKey: Option<string>, reply: Option<string>): (r: string)
    ensures r == Join(MergedWords(primary, secondary)) || (reply.Some? && r == StripReply(reply.value))
    ensures !KeyPresent(apiKey) || reply.None? ==> r == Join(MergedWords(primary, secondary))
    ensures AcceptsReply(apiKey, reply) ==> r != "" && r == StripReply(reply.value)
    ensures !AcceptsReply(apiKey, reply) ==> r == Join(MergedWords(primary, secondary))
  {
    if AcceptsReply(apiKey, reply) then StripReply(reply.value)
    else Join(MergedWords(primary, secondary))
  }

  /**
   * `combine_results`. The arbiter is consulted only when a key is set; the
   * fallback walks positions `0 .. max(len) - 1`, appending one word per
   * position, and joins the words with single spaces.
   */
  method CombineResults(wordsRu: seq<WordEntry>, wordsEn: seq<WordEntry>, apiKey: Option<string>,
                        arbiter: (seq<WordEntry>, seq<WordEntry>) -> Option<string>)
    returns (text: string)
    ensures text == Combined(wordsRu, wordsEn, apiKey, arbiter(wordsRu, wordsEn))
  {
    if KeyPresent(apiKey) {
      var reply := arbiter(wordsRu, wordsEn);
      if reply.Some? {
        var answer := StripReply(reply.value);
        if answer != "" {
          return answer;
        }
      }
    }

    ghost var merged := MergedWords(wordsRu, wordsEn);
    var result: seq<string> := [];
    var maxLen := Max(|wordsRu|, |wordsEn|);
    for i := 0 to maxLen
      invariant result == merged[..i]
    {
      MergedAt(wordsRu, wordsEn, i);
      if i < |wordsRu| && i < |wordsEn| {
        var wordRu, wordEn := wordsRu[i], wordsEn[i];
        var wordTextRu, wordTextEn := wordRu.word.GetOr(""), wordEn.word.GetOr("");
        var confRu, confEn := wordRu.conf.GetOr(0.0), wordEn.conf.GetOr(0.0);
        if confEn > confRu {
          result := result + [wordTextEn];
        } else {
          result := result + [wordTextRu];
        }
      } else if i < |wordsRu| {
        result := result + [wordsRu[i].word.GetOr("")];
      } else if i < |wordsEn| {
        result := result + [wordsEn[i].word.GetOr("")];
      }
    }
    assert result == merged;
    text := Join(result);
  }

  /** The branches of the selection in `transcribe_vosk`. */
  datatype Choice = MergeBoth | PrimaryText | SecondaryText | NothingRecognized

  /**
   * The merge applies exactly when both word lists are non-empty; otherwise
   * the primary text wins whenever it is non-empty, then the secondary text,
   * and only when both texts are empty is nothing recognized.
   */
  function Select(wordsRu: seq<WordEntry>, wordsEn: seq<WordEntry>, textRu: string, textEn: string): (c: Choice)
    ensures c == MergeBoth <==> wordsRu != [] && wordsEn != []
    ensures c != MergeBoth && textRu != "" ==> c == PrimaryText
    ensures c == PrimaryText ==> textRu != ""
    ensures c == SecondaryText <==> (wordsRu == [] || wordsEn == []) && textRu == "" && textEn != ""
    ensures c == NothingRecognized <==> (wordsRu == [] || wordsEn == []) && textRu == "" && textEn == ""
  {
    if wordsRu != [] && wordsEn != [] then MergeBoth
    else if textRu != "" then PrimaryText
    else if textEn != "" then SecondaryText
    else NothingRecognized
  }

  /**
   * The text `transcribe_vosk` hands to insertion, or `None` when nothing was
   * recognized: the combined result when both word lists are non-empty,
   * otherwise the primary text, otherwise the secondary text.
   */
  function FinalText(wordsRu: seq<WordEntry>, wordsEn: seq<WordEntry>, textRu: string, textEn: string,
                     apiKey: Option<string>, reply: Option<string>): (r: Option<string>)
    ensures wordsRu != [] && wordsEn != [] ==> r == Some(Combined(wordsRu, wordsEn, apiKey, reply))
    ensures (wordsRu == [] || wordsEn == []) && textRu != "" ==> r == Some(textRu)
    ensures (wordsRu == [] || wordsEn == []) && textRu == "" && textEn != "" ==> r == Some(textEn)
    ensures (wordsRu == [] || wordsEn == []) && textRu == "" && textEn == "" ==> r.None?
  {
    match Select(wordsRu, wordsEn, textRu, textEn)
    case MergeBoth => Some(Combined(wordsRu, wordsEn, apiKey, reply))
    case PrimaryText => Some(textRu)
    case SecondaryText => Some(textEn)
    case NothingRecognized => None
  }

  /**
   * A text is produced whenever either recognizer produced text or both
   * produced words, whatever the arbiter does; without a key it is the
   * deterministic merge.
   */
  lemma FallbackAlwaysAvailable(wordsRu: seq<WordEntry>, wordsEn: seq<WordEntry>, textRu: string, textEn: string,
                                apiKey: Option<string>, reply: Option<string>)
    ensures FinalText(wordsRu, wordsEn, textRu, textEn, apiKey, reply).None?
            <==> (wordsRu == [] || wordsEn == []) && textRu == "" && textEn == ""
    ensures wordsRu != [] && wordsEn != [] && !AcceptsReply(apiKey, reply)
            ==> FinalText(wordsRu, wordsEn, textRu, textEn, apiKey, reply) == Some(Join(MergedWords(wordsRu, wordsEn)))
  {
    var c := Select(wordsRu, wordsEn, textRu, textEn);
    assert c == NothingRecognized <==> (wordsRu == [] || wordsEn == []) && textRu == "" && textEn == "";
  }

  /** Merged output is never realigned: each word of the final text comes from the same position of an input. */
  lemma FinalTextWordsAligned(wordsRu: seq<WordEntry>, wordsEn: seq<WordEntry>, textRu: string, textEn: string,
                              apiKey: Option<string>, reply: Option<string>, i: nat)
    requires wordsRu != [] && wordsEn != [] && !AcceptsReply(apiKey, reply)
    requires i < Max(|wordsRu|, |wordsEn|)
    requires forall k :: 0 <= k < |wordsRu| ==> ' ' !in WordText(wordsRu[k])
    requires forall k :: 0 <= k < |wordsEn| ==> ' ' !in WordText(wordsEn[k])
    ensures var t := FinalText(wordsRu, wordsEn, textRu, textEn, apiKey, reply).value;
      && |Split(t)| == Max(|wordsRu|, |wordsEn|)
      && ((i < |wordsRu| && Split(t)[i] == WordText(wordsRu[i])) || (i < |wordsEn| && Split(t)[i] == WordText(wordsEn[i])))
  {
    MergedTextWordCount(wordsRu, wordsEn);
    SamePosition(wordsRu, wordsEn, i);
  }

  /** The fallback merge of the mixed utterance below. */
  lemma MixedMerge(ru: seq<WordEntry>, en: seq<WordEntry>)
    requires ru == [WordEntry(Some("привет"), Some(0.95)), WordEntry(Some("мир"), Some(0.6))]
    requires en == [WordEntry(Some("hello"), Some(0.4)), WordEntry(Some("world"), Some(0.9))]
    ensures Join(MergedWords(ru, en)) == "привет world"
  {
    var m := MergedWords(ru, en);
    assert m == ["привет", "world"] by {
      MergedAt(ru, en, 0);
      MergedAt(ru, en, 1);
    }
    assert m[1..] == ["world"];
  }

  /** Both recognizers heard words, the arbiter is not configured: the confidences pick "привет world". */
  lemma MixedUtterance()
    ensures FinalText([WordEntry(Some("привет"), Some(0.95)), WordEntry(Some("мир"), Some(0.6))],
                      [WordEntry(Some("hello"), Some(0.4)), WordEntry(Some("world"), Some(0.9))],
                      "привет мир", "hello world", None, None) == Some("привет world")
  {
    var ru := [WordEntry(Some("привет"), Some(0.95)), WordEntry(Some("мир"), Some(0.6))];
    var en := [WordEntry(Some("hello"), Some(0.4)), WordEntry(Some("world"), Some(0.9))];
    MixedMerge(ru, en);
  }

  /** No word lists but two texts: the primary text is taken. */
  lemma TextsWithoutWords()
    ensures FinalText([], [], "a", "b", None, None) == Some("a")
  {
  }
}
