/** Python's whitespace handling on `str`, as used by the transcript filter:
    `str.split()` with no separator and `str.strip()` with no argument.
    Both treat exactly the characters for which `str.isspace()` holds as
    whitespace. */
module Whitespace {

  /** `str.isspace()` for one character: the ASCII separators TAB, LF, VT,
      FF, CR, the information separators 0x1C-0x1F, SPACE, NEL, NO-BREAK
      SPACE and the Unicode space separators. */
  predicate IsSpace(c: char) {
    || c == ' '
    || ('\t' <= c <= '\r')
    || ('\U{1C}' <= c <= '\U{1F}')
    || c == '\U{85}'
    || c == '\U{A0}'
    || c == '\U{1680}'
    || ('\U{2000}' <= c <= '\U{200A}')
    || c == '\U{2028}'
    || c == '\U{2029}'
    || c == '\U{202F}'
    || c == '\U{205F}'
    || c == '\U{3000}'
  }

  predicate AllSpace(s: string) {
    forall i :: 0 <= i < |s| ==> IsSpace(s[i])
  }

  /** A token `str.split()` can produce: non-empty, no whitespace in it. */
  predicate IsWord(w: string) {
    |w| > 0 && forall i :: 0 <= i < |w| ==> !IsSpace(w[i])
  }

  /** The number of whitespace characters that open `s`. */
  function LeadingSpaces(s: string): (k: nat)
    ensures k <= |s|
    ensures forall i :: 0 <= i < k ==> IsSpace(s[i])
    ensures k < |s| ==> !IsSpace(s[k])
  {
    if s == [] || !IsSpace(s[0]) then 0 else 1 + LeadingSpaces(s[1..])
  }

  /** The number of whitespace characters that close `s`. */
  function TrailingSpaces(s: string): (k: nat)
    ensures k <= |s|
    ensures forall i :: |s| - k <= i < |s| ==> IsSpace(s[i])
    ensures k < |s| ==> !IsSpace(s[|s| - 1 - k])
  {
    if s == [] || !IsSpace(s[|s| - 1]) then 0 else 1 + TrailingSpaces(s[..|s| - 1])
  }

  /** The length of the run of non-whitespace characters that opens `s`. */
  function WordLength(s: string): (k: nat)
    ensures k <= |s|
    ensures forall i :: 0 <= i < k ==> !IsSpace(s[i])
    ensures k < |s| ==> IsSpace(s[k])
  {
    if s == [] || IsSpace(s[0]) then 0 else 1 + WordLength(s[1..])
  }

  /** `str.split()`: the maximal runs of non-whitespace, left to right. */
  function Split(s: string): (ws: seq<string>)
    ensures forall i :: 0 <= i < |ws| ==> IsWord(ws[i])
    decreases |s|
  {
    if s == [] then []
    else if IsSpace(s[0]) then Split(s[1..])
    else
      var k := WordLength(s);
      [s[..k]] + Split(s[k..])
  }

  /** `str.strip()`: `s` without its leading and trailing whitespace. */
  function Strip(s: string): (r: string)
    ensures |r| <= |s|
    ensures r == [] <==> AllSpace(s)
    ensures r != [] ==> !IsSpace(r[0]) && !IsSpace(r[|r| - 1])
    ensures LeadingSpaces(s) + |r| <= |s|
    ensures r == s[LeadingSpaces(s)..LeadingSpaces(s) + |r|]
    ensures forall i :: LeadingSpaces(s) + |r| <= i < |s| ==> IsSpace(s[i])
  {
    var a := LeadingSpaces(s);
    var k := TrailingSpaces(s[a..]);
    assert |s[a..]| == |s| - a;
    s[a..|s| - k]
  }

  /** `" ".join(ws)`. */
  function Unwords(ws: seq<string>): string {
    if ws == [] then []
    else if |ws| == 1 then ws[0]
    else ws[0] + " " + Unwords(ws[1..])
  }

  /** The characters of `s` that are not whitespace, in order. */
  function NonSpace(s: string): string {
    if s == [] then []
    else (if IsSpace(s[0]) then [] else [s[0]]) + NonSpace(s[1..])
  }

  function Concat(ws: seq<string>): string {
    if ws == [] then [] else ws[0] + Concat(ws[1..])
  }

  /** Leading whitespace does not change the split. */
  lemma {:induction false} SplitSkipsLeadingSpace(s: string)
    ensures Split(s) == Split(s[LeadingSpaces(s)..])
    decreases |s|
  {
    if s != [] && IsSpace(s[0]) {
      SplitSkipsLeadingSpace(s[1..]);
      assert s[1..][LeadingSpaces(s[1..])..] == s[LeadingSpaces(s)..];
    }
  }

  /** A string splits into no token exactly when it is all whitespace. */
  lemma {:induction false} SplitEmptyIffAllSpace(s: string)
    ensures Split(s) == [] <==> AllSpace(s)
    decreases |s|
  {
    if s != [] {
      if IsSpace(s[0]) {
        SplitEmptyIffAllSpace(s[1..]);
        assert AllSpace(s) <==> AllSpace(s[1..]) by {
          if AllSpace(s[1..]) {
            forall i | 0 <= i < |s| ensures IsSpace(s[i]) {
              if i > 0 { assert s[i] == s[1..][i - 1]; }
            }
          }
        }
      } else {
        assert !AllSpace(s) by { assert !IsSpace(s[0]); }
      }
    }
  }

  lemma {:induction false} NonSpaceAppend(x: string, y: string)
    ensures NonSpace(x + y) == NonSpace(x) + NonSpace(y)
    decreases |x|
  {
    if x != [] {
      assert (x + y)[1..] == x[1..] + y;
      NonSpaceAppend(x[1..], y);
    } else {
      assert x + y == y;
    }
  }

  lemma {:induction false} NonSpaceOfWord(w: string)
    requires forall i :: 0 <= i < |w| ==> !IsSpace(w[i])
    ensures NonSpace(w) == w
    decreases |w|
  {
    if w != [] { NonSpaceOfWord(w[1..]); }
  }

  /** Splitting loses no character but whitespace: the tokens, glued
      together, are exactly the non-whitespace characters of `s`. */
  lemma {:induction false} SplitKeepsNonSpace(s: string)
    ensures Concat(Split(s)) == NonSpace(s)
    decreases |s|
  {
    if s == [] {
    } else if IsSpace(s[0]) {
      SplitKeepsNonSpace(s[1..]);
    } else {
      var k := WordLength(s);
      var w, rest := s[..k], s[k..];
      assert s == w + rest;
      NonSpaceAppend(w, rest);
      NonSpaceOfWord(w);
      SplitKeepsNonSpace(rest);
    }
  }

  /** The token `w` opens `w + " " + rest`, and the space ends it. */
  lemma WordLengthOfWord(w: string, rest: string)
    requires IsWord(w)
    ensures WordLength(w + rest) >= |w|
    ensures rest != [] && IsSpace(rest[0]) ==> WordLength(w + rest) == |w|
    decreases |w|
  {
    var s := w + rest;
    assert s[0] == w[0];
    if |w| > 1 {
      assert s[1..] == w[1..] + rest;
      WordLengthOfWord(w[1..], rest);
    } else {
      assert s[1..] == rest;
    }
  }

  /** Splitting inverts joining with single spaces: a list of tokens that
      `str.split()` could produce comes back unchanged. */
  lemma {:induction false} SplitUnwords(ws: seq<string>)
    requires forall i :: 0 <= i < |ws| ==> IsWord(ws[i])
    ensures Split(Unwords(ws)) == ws
    decreases |ws|
  {
    if ws != [] {
      var w := ws[0];
      assert IsWord(w);
      var s := Unwords(ws);
      if |ws| == 1 {
        WordLengthOfWord(w, []);
        assert s == w && s[..|w|] == w && s[|w|..] == [];
      } else {
        var rest := Unwords(ws[1..]);
        assert s == w + (" " + rest);
        WordLengthOfWord(w, " " + rest);
        assert s[..|w|] == w;
        assert s[|w|..] == " " + rest;
        assert (" " + rest)[1..] == rest;
        SplitUnwords(ws[1..]);
      }
    }
  }

  /** Trailing whitespace does not change the split. */
  lemma {:induction false} SplitIgnoresTrailingSpace(t: string, u: string)
    requires AllSpace(u)
    ensures Split(t + u) == Split(t)
    decreases |t|
  {
    var s := t + u;
    if t == [] {
      assert s == u;
      SplitEmptyIffAllSpace(u);
    } else if IsSpace(t[0]) {
      assert s[1..] == t[1..] + u;
      SplitIgnoresTrailingSpace(t[1..], u);
    } else {
      var k := WordLength(t);
      WordLengthOfWord(t[..k], t[k..] + u);
      assert s == t[..k] + (t[k..] + u);
      assert WordLength(s) == k by {
        if k < |t| {
          assert (t[k..] + u)[0] == t[k];
        } else if u != [] {
          assert (t[k..] + u)[0] == u[0];
        } else {
          assert s == t[..k];
        }
      }
      assert s[..k] == t[..k];
      assert s[k..] == t[k..] + u;
      SplitIgnoresTrailingSpace(t[k..], u);
    }
  }

  /** Stripping does not change the split. */
  lemma SplitStrip(s: string)
    ensures Split(Strip(s)) == Split(s)
  {
    var a := LeadingSpaces(s);
    var r := Strip(s);
    var u := s[a + |r|..];
    SplitSkipsLeadingSpace(s);
    assert s[a..] == r + u;
    assert AllSpace(u) by {
      forall i | 0 <= i < |u| ensures IsSpace(u[i]) {
        assert u[i] == s[a + |r| + i];
      }
    }
    SplitIgnoresTrailingSpace(r, u);
  }

  /** `str.strip()` is idempotent. */
  lemma StripIdempotent(s: string)
    ensures Strip(Strip(s)) == Strip(s)
  {
    var r := Strip(s);
    if r != [] {
      assert LeadingSpaces(r) == 0;
      assert TrailingSpaces(r) == 0;
      assert r[0..|r|] == r;
    }
  }

  /** A text without edge whitespace, behind one leading space (as a
      transcript usually arrives), strips back to itself. */
  lemma StripPadded(s: string)
    requires s != [] && !IsSpace(s[0]) && !IsSpace(s[|s| - 1])
    ensures Strip(" " + s) == s
  {
    var t := " " + s;
    assert t[1..] == s;
    assert LeadingSpaces(t) == 1;
    assert TrailingSpaces(t[1..]) == 0;
    assert t[1..|t|] == s;
  }

  /** A word splits into itself. */
  lemma SplitOfWord(w: string)
    requires IsWord(w)
    ensures Split(w) == [w]
  {
    WordLengthOfWord(w, []);
    assert w + [] == w;
    assert w[..|w|] == w && w[|w|..] == [];
  }

  /** Whitespace in front of a text does not change its split. */
  lemma {:induction false} SplitSkipsSpaces(u: string, y: string)
    requires AllSpace(u)
    ensures Split(u + y) == Split(y)
    decreases |u|
  {
    if u != [] {
      assert (u + y)[0] == u[0];
      assert (u + y)[1..] == u[1..] + y;
      SplitSkipsSpaces(u[1..], y);
    } else {
      assert u + y == y;
    }
  }

  /** A word of `x` ends where `x` ends, when whitespace follows. */
  lemma {:induction false} WordLengthBeforeSpace(x: string, v: string)
    requires v != [] && IsSpace(v[0])
    ensures WordLength(x + v) == WordLength(x)
    decreases |x|
  {
    if x == [] {
      assert x + v == v;
    } else {
      assert (x + v)[0] == x[0];
      if !IsSpace(x[0]) {
        assert (x + v)[1..] == x[1..] + v;
        WordLengthBeforeSpace(x[1..], v);
      }
    }
  }

  /** A run of whitespace separates: the words of `x + u + y` are the words
      of `x` followed by the words of `y`, so no word spans whitespace. With
      `SplitOfWord` and `SplitEmptyIffAllSpace` this determines the split of
      every text. */
  lemma {:induction false} SplitAtSpace(x: string, u: string, y: string)
    requires u != [] && AllSpace(u)
    ensures Split(x + u + y) == Split(x) + Split(y)
    decreases |x|
  {
    var s := x + u + y;
    if x == [] {
      assert s == u + y;
      SplitSkipsSpaces(u, y);
    } else if IsSpace(x[0]) {
      assert s[0] == x[0];
      assert s[1..] == x[1..] + u + y;
      SplitAtSpace(x[1..], u, y);
    } else {
      assert s[0] == x[0];
      assert s == x + (u + y);
      WordLengthBeforeSpace(x, u + y);
      var k := WordLength(x);
      assert s[..k] == x[..k];
      assert s[k..] == x[k..] + u + y;
      SplitAtSpace(x[k..], u, y);
    }
  }
}
