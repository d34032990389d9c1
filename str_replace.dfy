/** Python's `str.replace(pat, sub)` for a non-empty pattern: every
    occurrence of `pat` is replaced by `sub`, scanning left to right, and
    occurrences do not overlap (after a match the scan resumes behind it).
    `SplitOn` and `JoinWith` below give an equivalent formulation by split
    and join, `sub.join(s.split(pat))`, proved equal to it. */
module StrReplace {

  predicate StartsWith(s: string, p: string) {
    |p| <= |s| && s[..|p|] == p
  }

  /** `p in s`, for a non-empty `p`. */
  predicate Contains(s: string, p: string) {
    exists i :: 0 <= i < |s| && StartsWith(s[i..], p)
  }

  /** `s.replace(pat, sub)`: a non-empty text with a non-empty replacement
      stays non-empty. */
  function ReplaceAll(s: string, pat: string, sub: string): (r: string)
    requires pat != []
    ensures s != [] && sub != [] ==> r != []
    decreases |s|
  {
    if s == [] then []
    else if StartsWith(s, pat) then sub + ReplaceAll(s[|pat|..], pat, sub)
    else [s[0]] + ReplaceAll(s[1..], pat, sub)
  }

  /** `s.split(sep)`: the pieces between the non-overlapping occurrences of
      `sep`, found left to right; there is always at least one piece. */
  function SplitOn(s: string, sep: string): (parts: seq<string>)
    requires sep != []
    ensures |parts| >= 1
    decreases |s|
  {
    if s == [] then [[]]
    else if StartsWith(s, sep) then [[]] + SplitOn(s[|sep|..], sep)
    else
      var rest := SplitOn(s[1..], sep);
      [[s[0]] + rest[0]] + rest[1..]
  }

  /** `sep.join(parts)`. */
  function JoinWith(parts: seq<string>, sep: string): string {
    if parts == [] then []
    else if |parts| == 1 then parts[0]
    else parts[0] + sep + JoinWith(parts[1..], sep)
  }

  /** The position of the first occurrence of `pat` in `s`, or `|s|`. */
  function FirstMatch(s: string, pat: string): (f: nat)
    requires pat != []
    ensures f <= |s|
    ensures forall i :: 0 <= i < f ==> !StartsWith(s[i..], pat)
    ensures f < |s| ==> StartsWith(s[f..], pat)
    decreases |s|
  {
    if s == [] || StartsWith(s, pat) then 0
    else
      var f' := FirstMatch(s[1..], pat);
      assert forall i :: 1 <= i <= |s| ==> s[1..][i - 1..] == s[i..];
      1 + f'
  }

  lemma JoinWithCons(c: char, parts: seq<string>, sep: string)
    requires parts != []
    ensures JoinWith([[c] + parts[0]] + parts[1..], sep) == [c] + JoinWith(parts, sep)
  {
    var ps := [[c] + parts[0]] + parts[1..];
    assert ps[1..] == parts[1..];
  }

  /** The replacement equals its split-and-join formulation, `sub.join(s.split(pat))`. */
  lemma {:induction false} ReplaceIsJoinOfSplit(s: string, pat: string, sub: string)
    requires pat != []
    ensures ReplaceAll(s, pat, sub) == JoinWith(SplitOn(s, pat), sub)
    decreases |s|
  {
    if s == [] {
    } else if StartsWith(s, pat) {
      ReplaceIsJoinOfSplit(s[|pat|..], pat, sub);
      var ps := [[]] + SplitOn(s[|pat|..], pat);
      assert ps[1..] == SplitOn(s[|pat|..], pat);
    } else {
      ReplaceIsJoinOfSplit(s[1..], pat, sub);
      JoinWithCons(s[0], SplitOn(s[1..], pat), sub);
    }
  }

  /** Replacing a pattern by itself changes nothing. */
  lemma {:induction false} ReplaceBySelf(s: string, pat: string)
    requires pat != []
    ensures ReplaceAll(s, pat, pat) == s
    decreases |s|
  {
    if s == [] {
    } else if StartsWith(s, pat) {
      ReplaceBySelf(s[|pat|..], pat);
      assert s == s[..|pat|] + s[|pat|..];
    } else {
      ReplaceBySelf(s[1..], pat);
      assert s == [s[0]] + s[1..];
    }
  }

  /** Joining the pieces of a split with the separator gives back the
      string. */
  lemma JoinOfSplit(s: string, sep: string)
    requires sep != []
    ensures JoinWith(SplitOn(s, sep), sep) == s
  {
    ReplaceIsJoinOfSplit(s, sep, sep);
    ReplaceBySelf(s, sep);
  }

  /** Up to the first match the replacement copies `s`. */
  lemma {:induction false} ReplaceUpToFirstMatch(s: string, pat: string, sub: string)
    requires pat != []
    ensures ReplaceAll(s, pat, sub)
         == s[..FirstMatch(s, pat)] + ReplaceAll(s[FirstMatch(s, pat)..], pat, sub)
    decreases |s|
  {
    if s != [] && !StartsWith(s, pat) {
      ReplaceUpToFirstMatch(s[1..], pat, sub);
      var f := FirstMatch(s, pat);
      assert s[1..][..f - 1] == s[1..f];
      assert s[1..][f - 1..] == s[f..];
      assert [s[0]] + s[1..f] == s[..f];
    }
  }

  /** Without an occurrence of `pat` the replacement is the identity. */
  lemma ReplaceAbsent(s: string, pat: string, sub: string)
    requires pat != [] && !Contains(s, pat)
    ensures ReplaceAll(s, pat, sub) == s
  {
    ReplaceUpToFirstMatch(s, pat, sub);
    var f := FirstMatch(s, pat);
    assert f == |s|;
    assert s[..f] == s && s[f..] == [];
  }

  /** No occurrence of `pat` in `x + sub + t` when `sub` shares no
      character with `pat`, `x` holds no complete occurrence and `t` none. */
  lemma NoMatchAcross(x: string, sub: string, t: string, pat: string)
    requires pat != [] && sub != []
    requires forall c :: c in sub ==> c !in pat
    requires forall i :: 0 <= i < |x| ==> !StartsWith(x[i..], pat)
    requires !Contains(t, pat)
    ensures !Contains(x + sub + t, pat)
  {
    var r := x + sub + t;
    forall i | 0 <= i < |r| ensures !StartsWith(r[i..], pat) {
      if i < |x| {
        if i + |pat| <= |x| {
          assert r[i..][..|pat|] == x[i..][..|pat|];
        } else if |pat| <= |r[i..]| {
          assert r[i..][..|pat|][|x| - i] == sub[0];
          assert sub[0] !in pat;
        }
      } else if i < |x| + |sub| {
        assert r[i..][0] == sub[i - |x|];
        assert sub[i - |x|] !in pat;
      } else {
        assert r[i..] == t[i - |x| - |sub|..];
      }
    }
  }

  /** When `sub` is non-empty and shares no character with `pat`, no
      occurrence of `pat` is left after the replacement: none survives and
      none is formed across the inserted text. */
  lemma {:induction false} ReplaceLeavesNoMatch(s: string, pat: string, sub: string)
    requires pat != [] && sub != []
    requires forall c :: c in sub ==> c !in pat
    ensures !Contains(ReplaceAll(s, pat, sub), pat)
    decreases |s|
  {
    var f := FirstMatch(s, pat);
    ReplaceUpToFirstMatch(s, pat, sub);
    if f == |s| {
      assert s[..f] == s && s[f..] == [];
      assert ReplaceAll(s, pat, sub) == s;
    } else {
      var rest := s[f + |pat|..];
      assert s[f..][|pat|..] == rest;
      ReplaceBehindPrefix(s[..f], s[f..], pat, sub, ReplaceAll(s, pat, sub));
      ReplaceLeavesNoMatch(rest, pat, sub);
      NoMatchBeforeFirst(s, pat);
      NoMatchAcross(s[..f], sub, ReplaceAll(rest, pat, sub), pat);
    }
  }

  /** The text before the first match holds no complete occurrence. */
  lemma NoMatchBeforeFirst(s: string, pat: string)
    requires pat != []
    ensures forall i :: 0 <= i < |s[..FirstMatch(s, pat)]|
              ==> !StartsWith(s[..FirstMatch(s, pat)][i..], pat)
  {
    var x := s[..FirstMatch(s, pat)];
    forall i | 0 <= i < |x| ensures !StartsWith(x[i..], pat) {
      if |pat| <= |x[i..]| {
        assert x[i..][..|pat|] == s[i..][..|pat|];
      }
    }
  }

  /** Behind a copied prefix `x`, a text opening with the pattern has it
      replaced there. */
  lemma ReplaceBehindPrefix(x: string, t: string, pat: string, sub: string, r: string)
    requires pat != [] && StartsWith(t, pat) && r == x + ReplaceAll(t, pat, sub)
    ensures r == x + sub + ReplaceAll(t[|pat|..], pat, sub)
  {
    ReplaceAtMatch(t, pat, sub);
  }

  /** A text that opens with the pattern has it replaced there. */
  lemma ReplaceAtMatch(t: string, pat: string, sub: string)
    requires pat != [] && StartsWith(t, pat)
    ensures ReplaceAll(t, pat, sub) == sub + ReplaceAll(t[|pat|..], pat, sub)
  {
  }

  /** A string without `p` has no occurrence of any extension of `p`. */
  lemma AbsentPrefixExcludes(s: string, p: string, q: string)
    requires StartsWith(q, p) && !Contains(s, p)
    ensures !Contains(s, q)
  {
    forall i | 0 <= i < |s| ensures !StartsWith(s[i..], q) {
      assert !StartsWith(s[i..], p);
      if |q| <= |s[i..]| {
        assert s[i..][..|p|] == s[i..][..|q|][..|p|];
      }
    }
  }

  /** A pattern with a character that `s` lacks does not occur in `s`. */
  lemma ReplaceMissingChar(s: string, pat: string, sub: string, c: char)
    requires pat != [] && c in pat && c !in s
    ensures ReplaceAll(s, pat, sub) == s
  {
    forall i | 0 <= i < |s| ensures !StartsWith(s[i..], pat) {
      if |pat| <= |s[i..]| {
        var j :| 0 <= j < |pat| && pat[j] == c;
        assert s[i..][..|pat|][j] == s[i + j];
      }
    }
    ReplaceAbsent(s, pat, sub);
  }

  /** A prefix without the pattern's first character is copied, the first
      occurrence behind it is replaced, and the scan resumes after it. */
  lemma {:induction false} ReplaceFirstOccurrence(x: string, pat: string, sub: string, y: string)
    requires pat != [] && pat[0] !in x
    ensures ReplaceAll(x + pat + y, pat, sub) == x + sub + ReplaceAll(y, pat, sub)
    decreases |x|
  {
    var s := x + pat + y;
    if x == [] {
      assert s == pat + y && s[..|pat|] == pat && s[|pat|..] == y;
    } else {
      ReplaceCopiesHead(s, pat, sub);
      assert s[1..] == x[1..] + pat + y;
      ReplaceFirstOccurrence(x[1..], pat, sub, y);
      assert [x[0]] + x[1..] == x;
    }
  }

  /** The scan copies a first character that cannot open a match. */
  lemma ReplaceCopiesHead(s: string, pat: string, sub: string)
    requires pat != [] && s != [] && s[0] != pat[0]
    ensures ReplaceAll(s, pat, sub) == [s[0]] + ReplaceAll(s[1..], pat, sub)
  {
    assert !StartsWith(s, pat) by {
      if |pat| <= |s| { assert s[..|pat|][0] == s[0]; }
    }
  }

  /** Every character of the replacement's result is copied from the text
      or from `sub`. */
  lemma {:induction false} ReplaceCopiesChars(s: string, pat: string, sub: string)
    requires pat != []
    ensures forall c :: c in ReplaceAll(s, pat, sub) ==> c in s || c in sub
    decreases |s|
  {
    if s != [] {
      var k := if StartsWith(s, pat) then |pat| else 1;
      ReplaceCopiesChars(s[k..], pat, sub);
      assert forall c :: c in s[k..] ==> c in s;
    }
  }
}
