/** The corrupted-audio filter `_is_repetitive_text` (main.py:233-253): a
    transcript is rejected when, among at least six words, one word makes up
    more than 70% of them, or, among more than ten words, some run of three
    words is immediately repeated at a window the scan visits. */
module Repetition {
  import opened Whitespace

  /** Fewer words than this are never repetitive. */
  const MinWords: nat := 6
  /** The length of the repeated run the second rule looks for. */
  const PatternLength: nat := 3

  /** `words.count(w)`. */
  function Count(ws: seq<string>, w: string): (c: nat)
    ensures c <= |ws|
    ensures c == 0 <==> w !in ws
  {
    if ws == [] then 0
    else (if ws[0] == w then 1 else 0) + Count(ws[1..], w)
  }

  /** `words.count(w) > len(words) * 0.7`, in integers. */
  predicate Dominant(ws: seq<string>, w: string) {
    10 * Count(ws, w) > 7 * |ws|
  }

  predicate HasDominantWord(ws: seq<string>) {
    exists w :: w in ws && Dominant(ws, w)
  }

  /** The run of three words at `i` is repeated right behind it. */
  predicate RepeatsAt(ws: seq<string>, i: nat)
    requires i + 2 * PatternLength <= |ws|
  {
    ws[i..i + PatternLength] == ws[i + PatternLength..i + 2 * PatternLength]
  }

  /** The window start `i` is one that `range(len(words) - 9)` visits. */
  predicate Scanned(ws: seq<string>, i: nat) {
    i < |ws| - 3 * PatternLength
  }

  predicate HasRepeatedTriple(ws: seq<string>) {
    |ws| > 10 && exists i: nat :: i < |ws| - 3 * PatternLength && RepeatsAt(ws, i)
  }

  /** The three rules together, on the word list. */
  predicate RepetitiveWords(ws: seq<string>) {
    |ws| >= MinWords && (HasDominantWord(ws) || HasRepeatedTriple(ws))
  }

  /** `_is_repetitive_text`: split, then the two scans with early returns.
      The loop over `set(words)` visits the distinct words in some order; the
      answer does not depend on it. */
  method IsRepetitiveText(text: string) returns (b: bool)
    ensures b == RepetitiveWords(Split(text))
  {
    var words := Split(text);
    var n := |words|;
    if n < MinWords {
      return false;
    }
    var unseen := set w | w in words;
    while unseen != {}
      invariant forall w :: w in words && w !in unseen ==> !Dominant(words, w)
      decreases unseen
    {
      var word :| word in unseen;
      if Count(words, word) * 10 > n * 7 {
        assert word in words;
        return true;
      }
      unseen := unseen - {word};
    }
    if n > 10 {
      for i := 0 to n - PatternLength * 3
        invariant forall j: nat :: j < i ==> !RepeatsAt(words, j)
      {
        var pattern := words[i..i + PatternLength];
        var nextPattern := words[i + PatternLength..i + PatternLength * 2];
        if pattern == nextPattern {
          assert RepeatsAt(words, i);
          return true;
        }
      }
    }
    return false;
  }

  /** The same text, stripped, gets the same verdict: the transcript is
      stripped before the filter sees it, and that changes nothing. */
  lemma StripKeepsVerdict(text: string)
    ensures RepetitiveWords(Split(Strip(text))) == RepetitiveWords(Split(text))
  {
    SplitStrip(text);
  }

  /** Blank text is never repetitive. */
  lemma BlankNeverRepetitive(text: string)
    requires AllSpace(text)
    ensures !RepetitiveWords(Split(text))
  {
    SplitEmptyIffAllSpace(text);
  }

  /** On words rejoined with single spaces the filter judges the words. */
  lemma VerdictOfUnwords(ws: seq<string>)
    requires forall i :: 0 <= i < |ws| ==> IsWord(ws[i])
    ensures RepetitiveWords(Split(Unwords(ws))) == RepetitiveWords(ws)
  {
    SplitUnwords(ws);
  }

  /** Two different words together occur at most as often as there are
      words. */
  lemma {:induction false} CountsOfTwoWords(ws: seq<string>, a: string, b: string)
    requires a != b
    ensures Count(ws, a) + Count(ws, b) <= |ws|
  {
    if ws != [] {
      CountsOfTwoWords(ws[1..], a, b);
    }
  }

  /** At most one word can be dominant. */
  lemma DominantWordIsUnique(ws: seq<string>, a: string, b: string)
    requires Dominant(ws, a) && Dominant(ws, b)
    ensures a == b
  {
    if a != b {
      CountsOfTwoWords(ws, a, b);
    }
  }

  /** A list of `n` words at or beyond the minimum, all the same, is
      repetitive. */
  lemma {:induction false} CountOfUniform(ws: seq<string>, w: string)
    requires forall i :: 0 <= i < |ws| ==> ws[i] == w
    ensures Count(ws, w) == |ws|
  {
    if ws != [] {
      CountOfUniform(ws[1..], w);
    }
  }

  lemma UniformIsRepetitive(ws: seq<string>)
    requires |ws| >= MinWords
    requires forall i :: 0 <= i < |ws| ==> ws[i] == ws[0]
    ensures RepetitiveWords(ws)
  {
    CountOfUniform(ws, ws[0]);
    assert ws[0] in ws && Dominant(ws, ws[0]);
  }

  /** Under six words nothing is repetitive, whatever they are. */
  lemma ShortNeverRepetitive(ws: seq<string>)
    requires |ws| < MinWords
    ensures !RepetitiveWords(ws)
  {
  }

  /** With ten words or fewer only the 70% rule applies. */
  lemma AtMostTenOnlyDominance(ws: seq<string>)
    requires |ws| <= 10
    ensures RepetitiveWords(ws) <==> |ws| >= MinWords && HasDominantWord(ws)
  {
  }

  lemma {:induction false} CountAppend(a: seq<string>, b: seq<string>, w: string)
    ensures Count(a + b, w) == Count(a, w) + Count(b, w)
  {
    if a != [] {
      assert (a + b)[1..] == a[1..] + b;
      CountAppend(a[1..], b, w);
    } else {
      assert a + b == b;
    }
  }

  /** A block of `k` copies of `w`, followed by words without `w`, adds
      `k` to the count. */
  lemma CountWithBlock(ws: seq<string>, x: seq<string>, g: seq<string>, y: seq<string>, w: string)
    requires ws == x + g + y && w !in y
    requires forall i :: 0 <= i < |g| ==> g[i] == w
    ensures Count(ws, w) == Count(x, w) + |g|
  {
    CountAppend(x + g, y, w);
    CountAppend(x, g, w);
    CountOfUniform(g, w);
  }

  /** When `w` occurs `k` times, any other word occurs at most `n - k`
      times. */
  lemma OthersBelow(ws: seq<string>, w: string)
    ensures forall v :: v != w ==> Count(ws, v) <= |ws| - Count(ws, w)
  {
    forall v | v != w ensures Count(ws, v) <= |ws| - Count(ws, w) {
      CountsOfTwoWords(ws, v, w);
    }
  }

  /** Seven of ten words the same is exactly 70%, not more: not
      repetitive. */
  lemma SevenOfTenExample(ws: seq<string>)
    requires ws == ["go", "go", "go", "go", "go", "go", "go", "up", "to", "it"]
    ensures !RepetitiveWords(ws)
  {
    CountWithBlock(ws, [], ws[..7], ws[7..], "go");
    OthersBelow(ws, "go");
  }

  /** Seven of nine words the same is over 70%: repetitive. */
  lemma SevenOfNineExample(ws: seq<string>)
    requires ws == ["go", "go", "go", "go", "go", "go", "go", "up", "to"]
    ensures RepetitiveWords(ws)
  {
    CountWithBlock(ws, [], ws[..7], ws[7..], "go");
    assert ws[0] in ws && Dominant(ws, ws[0]);
  }

  /** A run of three repeated at the first window of eleven words. */
  lemma TripleExample(ws: seq<string>)
    requires ws == ["ls", "cd", "rm", "ls", "cd", "rm", "a", "b", "c", "d", "e"]
    ensures RepetitiveWords(ws)
  {
    assert Scanned(ws, 0) && RepeatsAt(ws, 0);
  }

  /** The scan stops at window `n - 10`: a run repeated at window `n - 9`
      of eleven words goes unnoticed. */
  lemma LateTripleExample(ws: seq<string>)
    requires ws == ["ls", "ls", "cd", "rm", "mv", "cd", "rm", "mv", "ls", "ls", "ls"]
    ensures RepeatsAt(ws, 2) && !Scanned(ws, 2)
    ensures !RepetitiveWords(ws)
  {
    assert ws[2..5] == ws[5..8];
    var x, y := ws[..2], ws[2..8];
    assert ws == x + y + ws[8..];
    CountWithBlock(x + y, [], x, y, "ls");
    CountWithBlock(ws, x + y, ws[8..], [], "ls");
    OthersBelow(ws, "ls");
    forall i: nat | Scanned(ws, i) ensures !RepeatsAt(ws, i) {
      assert ws[i] != ws[i + 3];
    }
  }
}
