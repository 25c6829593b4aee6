/**
 * The string primitives the dictation pipeline relies on, written out with
 * Python's semantics: `str.strip()`, `str.strip(chars)`, `' '.join(words)`
 * and, as the partner of the join, `str.split(' ')`.
 */
module Text {

  /** Python's `str.isspace()`: the characters a bare `str.strip()` removes. */
  predicate IsSpace(c: char) {
    || c == ' ' || c == '\t' || c == '\n' || c == '\r'
    || c == '\U{B}' || c == '\U{C}'
    || ('\U{1C}' <= c <= '\U{1F}')
    || c == '\U{85}' || c == '\U{A0}' || c == '\U{1680}'
    || ('\U{2000}' <= c <= '\U{200A}')
    || c == '\U{2028}' || c == '\U{2029}' || c == '\U{202F}' || c == '\U{205F}'
    || c == '\U{3000}'
  }

  /**
   * What a Python strip removes: `Whitespace` for a bare `strip()`, `Chars(cs)`
   * for `strip(cs)`.
   */
  datatype CharClass = Whitespace | Chars(chars: set<char>)

  predicate InClass(c: char, cls: CharClass) {
    match cls
    case Whitespace => IsSpace(c)
    case Chars(cs) => c in cs
  }

  /** The length of the longest prefix of `s` whose characters all belong to the class. */
  function LeadingRun(s: string, drop: CharClass): (n: nat)
    ensures n <= |s|
    ensures forall k {:trigger InClass(s[k], drop)} :: 0 <= k < n ==> InClass(s[k], drop)
    ensures n == |s| || !InClass(s[n], drop)
    decreases |s|
  {
    if |s| > 0 && InClass(s[0], drop) then 1 + LeadingRun(s[1..], drop) else 0
  }

  /** The length of the longest suffix of `s` whose characters all belong to the class. */
  function TrailingRun(s: string, drop: CharClass): (n: nat)
    ensures n <= |s|
    ensures forall k {:trigger InClass(s[k], drop)} :: |s| - n <= k < |s| ==> InClass(s[k], drop)
    ensures n == |s| || !InClass(s[|s| - n - 1], drop)
    decreases |s|
  {
    if |s| > 0 && InClass(s[|s| - 1], drop) then 1 + TrailingRun(s[..|s| - 1], drop) else 0
  }

  /** The leading run of a string with one more character in front. */
  lemma LeadingRunCons(c: char, s: string, drop: CharClass)
    ensures LeadingRun([c] + s, drop) == if InClass(c, drop) then 1 + LeadingRun(s, drop) else 0
  {
    assert ([c] + s)[1..] == s;
  }

  /** The trailing run of a string with one more character at the end. */
  lemma TrailingRunSnoc(s: string, c: char, drop: CharClass)
    ensures TrailingRun(s + [c], drop) == if InClass(c, drop) then 1 + TrailingRun(s, drop) else 0
  {
    assert (s + [c])[..|s|] == s;
  }

  /**
   * Python's `s.strip(chars)`: the text between the leading run and the
   * trailing run of what is left. The result neither starts nor ends with a
   * character of the class (see `StripSlice` for what is cut off).
   */
  function Strip(s: string, drop: CharClass): (r: string)
    ensures |r| <= |s|
    ensures r == [] || (!InClass(r[0], drop) && !InClass(r[|r| - 1], drop))
  {
    var i := LeadingRun(s, drop);
    s[i..|s| - TrailingRun(s[i..], drop)]
  }

  /** Stripping keeps the slice of the input that starts right after the leading run. */
  lemma StripKeepsSlice(s: string, drop: CharClass)
    ensures LeadingRun(s, drop) + |Strip(s, drop)| <= |s|
    ensures Strip(s, drop) == s[LeadingRun(s, drop)..LeadingRun(s, drop) + |Strip(s, drop)|]
  {
  }

  /** Everything stripping cuts after the kept slice belongs to the class. */
  lemma StripCutsTail(s: string, drop: CharClass)
    ensures LeadingRun(s, drop) + |Strip(s, drop)| <= |s|
    ensures forall k :: LeadingRun(s, drop) + |Strip(s, drop)| <= k < |s| ==> InClass(s[k], drop)
  {
    var i := LeadingRun(s, drop);
    var l := s[i..];
    var t := TrailingRun(l, drop);
    assert |Strip(s, drop)| == |l| - t;
    forall k | i + |l| - t <= k < |s| ensures InClass(s[k], drop) {
      assert s[k] == l[k - i];
    }
  }

  /**
   * Stripping keeps one contiguous slice of the input, and everything cut
   * off before it and after it belongs to the class.
   */
  lemma StripSlice(s: string, drop: CharClass)
    ensures var i := LeadingRun(s, drop);
      && i + |Strip(s, drop)| <= |s|
      && Strip(s, drop) == s[i..i + |Strip(s, drop)|]
      && (forall k :: 0 <= k < i ==> InClass(s[k], drop))
      && (forall k :: i + |Strip(s, drop)| <= k < |s| ==> InClass(s[k], drop))
  {
    StripKeepsSlice(s, drop);
    StripCutsTail(s, drop);
  }

  /** Python's `s.strip()`: never longer, and no whitespace at either end. */
  function StripWhitespace(s: string): (r: string)
    ensures |r| <= |s|
    ensures r == [] || (!IsSpace(r[0]) && !IsSpace(r[|r| - 1]))
  {
    Strip(s, Whitespace)
  }

  /** A string that already has no strippable character at either end is left as it is. */
  lemma StripNoop(s: string, drop: CharClass)
    requires s == [] || (!InClass(s[0], drop) && !InClass(s[|s| - 1], drop))
    ensures Strip(s, drop) == s
  {
    assert LeadingRun(s, drop) == 0;
    assert s[0..] == s;
    assert TrailingRun(s, drop) == 0;
  }

  /** Stripping twice with the same class is stripping once. */
  lemma StripIdempotent(s: string, drop: CharClass)
    ensures Strip(Strip(s, drop), drop) == Strip(s, drop)
  {
    StripNoop(Strip(s, drop), drop);
  }

  /** The total length of a list of sequences. */
  function SumLengths<T>(xs: seq<seq<T>>): nat {
    if xs == [] then 0 else |xs[0]| + SumLengths(xs[1..])
  }

  /** Every character of a stripped text belongs to `keep` when every character of the input does. */
  lemma StripKeepsAll(s: string, drop: CharClass, keep: CharClass)
    requires forall k :: 0 <= k < |s| ==> InClass(s[k], keep)
    ensures forall k :: 0 <= k < |Strip(s, drop)| ==> InClass(Strip(s, drop)[k], keep)
  {
    StripKeepsSlice(s, drop);
    var i := LeadingRun(s, drop);
    var r := Strip(s, drop);
    forall k | 0 <= k < |r| ensures InClass(r[k], keep) {
      assert r[k] == s[i + k];
    }
  }

  /** A string made only of characters of the class strips to nothing. */
  lemma StripAllInClass(s: string, drop: CharClass)
    requires forall k :: 0 <= k < |s| ==> InClass(s[k], drop)
    ensures Strip(s, drop) == []
  {
    assert LeadingRun(s, drop) == |s|;
  }

  /**
   * Python's `' '.join(words)`: the words in order, one space between
   * neighbours. A non-empty list gives a text that starts with its first
   * word, ends with its last, and holds one separator fewer than words.
   */
  function Join(words: seq<string>): (r: string)
    ensures words == [] ==> r == ""
    ensures words != [] ==> |r| == SumLengths(words) + |words| - 1
    ensures words != [] ==> |words[0]| <= |r| && r[..|words[0]|] == words[0]
    ensures words != [] ==> |words[|words| - 1]| <= |r| && r[|r| - |words[|words| - 1]|..] == words[|words| - 1]
  {
    if |words| == 0 then ""
    else if |words| == 1 then words[0]
    else words[0] + " " + Join(words[1..])
  }

  /** Python's `s.split(' ')`: the pieces between single spaces, empty pieces kept. */
  function Split(s: string): (r: seq<string>)
    ensures |r| >= 1
    ensures forall k :: 0 <= k < |r| ==> ' ' !in r[k]
  {
    if |s| == 0 then [""]
    else
      var rest := Split(s[1..]);
      if s[0] == ' ' then [""] + rest
      else [[s[0]] + rest[0]] + rest[1..]
  }

  /** A string without a space is one piece. */
  lemma {:induction false} SplitNoSpace(w: string)
    requires ' ' !in w
    ensures Split(w) == [w]
  {
    if |w| > 0 {
      assert ' ' !in w[1..] by {
        forall k | 0 <= k < |w[1..]| ensures w[1..][k] != ' ' {
          assert w[1..][k] == w[k + 1];
        }
      }
      SplitNoSpace(w[1..]);
      assert [w[0]] + w[1..] == w;
    }
  }

  /** Splitting peels off the first word up to its separating space. */
  lemma {:induction false} SplitFirst(w: string, tail: string)
    requires ' ' !in w
    ensures Split(w + " " + tail) == [w] + Split(tail)
  {
    var s := w + " " + tail;
    if |w| == 0 {
      assert s[1..] == tail;
    } else {
      assert ' ' !in w[1..] by {
        forall k | 0 <= k < |w[1..]| ensures w[1..][k] != ' ' {
          assert w[1..][k] == w[k + 1];
        }
      }
      assert s[1..] == w[1..] + " " + tail;
      SplitFirst(w[1..], tail);
      assert [w[0]] + w[1..] == w;
    }
  }

  /**
   * Splitting a joined list on single spaces gives the list back, provided
   * it is not empty and no word holds a space itself.
   */
  lemma {:induction false} SplitJoin(words: seq<string>)
    requires |words| > 0
    requires forall k :: 0 <= k < |words| ==> ' ' !in words[k]
    ensures Split(Join(words)) == words
  {
    if |words| == 1 {
      SplitNoSpace(words[0]);
    } else {
      var rest := words[1..];
      forall k | 0 <= k < |rest| ensures ' ' !in rest[k] {
        assert rest[k] == words[k + 1];
      }
      SplitJoin(rest);
      assert Join(words) == words[0] + " " + Join(rest);
      SplitFirst(words[0], Join(rest));
      assert [words[0]] + rest == words;
    }
  }
}
