/** The spoken-command replacement pass (main.py:30-50, 215-216): a fixed
    table of (spoken phrase, literal) pairs, walked in insertion order, each
    pair applied once to the whole text with `str.replace`. */
module Commands {
  import opened StrReplace

  /** `command_replacements`, in the dictionary's insertion order, which is
      the order in which `dict.items()` yields it. */
  const Table: seq<(string, string)> := [
    ("pseudo", "sudo"),
    ("LS", "ls"),
    ("change directory", "cd"),
    ("make directory", "mkdir"),
    ("remove", "rm"),
    ("copy", "cp"),
    ("move", "mv"),
    ("grep", "grep"),
    ("pipe", "|"),
    ("greater than", ">"),
    ("append", ">>"),
    ("ampersand", "&"),
    ("dollar sign", "$"),
    ("dot", "."),
    ("dot dot", ".."),
    ("slash", "/"),
    ("home", "~"),
    ("space dash", " -"),
    ("dash dash", "--")
  ]

  /** Every spoken phrase is non-empty, as `str.replace` needs here. */
  lemma KeysNonEmpty()
    ensures forall i :: 0 <= i < |Table| ==> Table[i].0 != []
  {
  }

  /** Every literal the table writes is non-empty too. */
  lemma ValuesNonEmpty()
    ensures forall i :: 0 <= i < |Table| ==> Table[i].1 != []
  {
  }

  /** The text after the first `n` entries of the table have been applied,
      in order, each once over the whole text. No entry empties a non-empty
      text, since every literal it writes is non-empty. */
  function ApplyFirst(text: string, n: nat): (r: string)
    requires n <= |Table|
    ensures text != [] ==> r != []
  {
    if n == 0 then text
    else
      KeysNonEmpty();
      ValuesNonEmpty();
      ReplaceAll(ApplyFirst(text, n - 1), Table[n - 1].0, Table[n - 1].1)
  }

  /** The whole replacement pass; it never empties a non-empty text. */
  function ApplyTable(text: string): (r: string)
    ensures text != [] ==> r != []
  {
    ApplyFirst(text, |Table|)
  }

  /** The table is a dictionary: 19 entries under distinct phrases. */
  lemma TableKeysDistinct()
    ensures |Table| == 19
    ensures forall i, j :: 0 <= i < j < |Table| ==> Table[i].0 != Table[j].0
  {
  }

  /** The loop of main.py:215-216. */
  method ApplyReplacements(text: string) returns (out: string)
    ensures out == ApplyTable(text)
  {
    out := text;
    for i := 0 to |Table|
      invariant out == ApplyFirst(text, i)
    {
      var (spoken, actual) := Table[i];
      KeysNonEmpty();
      out := ReplaceAll(out, spoken, actual);
    }
  }

  /** An entry whose phrase has a character the text lacks leaves it. */
  lemma ApplyNextMissing(text: string, i: nat, t: string, p: nat)
    requires i < |Table| && ApplyFirst(text, i) == t
    requires p < |Table[i].0| && Table[i].0[p] !in t
    ensures ApplyFirst(text, i + 1) == t
  {
    KeysNonEmpty();
    ReplaceMissingChar(t, Table[i].0, Table[i].1, Table[i].0[p]);
  }

  /** An entry whose phrase occurs in the text, behind a prefix that lacks
      the phrase's first character, is replaced there, and the scan goes on
      behind it. */
  lemma ApplyNextAt(text: string, i: nat, x: string, y: string)
    requires i < |Table| && ApplyFirst(text, i) == x + Table[i].0 + y
    requires Table[i].0[0] !in x
    ensures ApplyFirst(text, i + 1) == x + Table[i].1 + ReplaceAll(y, Table[i].0, Table[i].1)
  {
    KeysNonEmpty();
    ReplaceFirstOccurrence(x, Table[i].0, Table[i].1, y);
  }

  /** The same, when the text behind the occurrence lacks a character of
      the phrase, so that the scan finds nothing more. */
  lemma ApplyNextOnce(text: string, i: nat, x: string, y: string, p: nat)
    requires i < |Table| && ApplyFirst(text, i) == x + Table[i].0 + y
    requires Table[i].0[0] !in x
    requires p < |Table[i].0| && Table[i].0[p] !in y
    ensures ApplyFirst(text, i + 1) == x + Table[i].1 + y
  {
    KeysNonEmpty();
    ApplyNextAt(text, i, x, y);
    ReplaceMissingChar(y, Table[i].0, Table[i].1, Table[i].0[p]);
  }

  /** For the entries `i + k`, ..., `i + |at| - 1`, the character of the
      phrase at position `at[m]` of entry `i + m` is one that `t` lacks. */
  predicate MissingRun(t: string, i: nat, at: seq<nat>, k: nat)
    requires i + |at| <= |Table| && k <= |at|
    decreases |at| - k
  {
    k == |at|
    || (&& at[k] < |Table[i + k].0|
        && Table[i + k].0[at[k]] !in t
        && MissingRun(t, i, at, k + 1))
  }

  /** A run of entries whose phrases cannot occur leaves the text as it
      is. */
  lemma {:induction false} ApplyMissingRun(text: string, i: nat, j: nat, t: string, at: seq<nat>, k: nat)
    requires j == i + |at| <= |Table| && k <= |at|
    requires ApplyFirst(text, i + k) == t && MissingRun(t, i, at, k)
    ensures ApplyFirst(text, j) == t
    decreases |at| - k
  {
    if k < |at| {
      ApplyNextMissing(text, i + k, t, at[k]);
      ApplyMissingRun(text, i, j, t, at, k + 1);
    }
  }

  /** Entries `i` to `j - 1` leave a text that lacks, for each, the
      character `at` points at. */
  lemma SkipEntries(text: string, i: nat, j: nat, t: string, at: seq<nat>)
    requires i <= j <= |Table| && |at| == j - i
    requires ApplyFirst(text, i) == t && MissingRun(t, i, at, 0)
    ensures ApplyFirst(text, j) == t
  {
    ApplyMissingRun(text, i, j, t, at, 0);
  }

  /** The `"grep"` entry is the identity: it never changes the text. */
  lemma GrepEntryIsIdentity(text: string)
    ensures Table[7] == ("grep", "grep")
    ensures ApplyFirst(text, 8) == ApplyFirst(text, 7)
  {
    ReplaceBySelf(ApplyFirst(text, 7), "grep");
  }

  /** The `"dot dot"` entry never fires: `"dot"` is applied just before it
      and leaves no `"dot"`, hence no `"dot dot"`, in the text. */
  lemma DotDotNeverApplies(text: string)
    ensures Table[13].0 == "dot" && Table[14].0 == "dot dot"
    ensures !Contains(ApplyFirst(text, 14), "dot dot")
    ensures ApplyFirst(text, 15) == ApplyFirst(text, 14)
  {
    var t := ApplyFirst(text, 13);
    assert forall c :: c in "." ==> c !in "dot";
    ReplaceLeavesNoMatch(t, "dot", ".");
    assert StartsWith("dot dot", "dot");
    AbsentPrefixExcludes(ApplyFirst(text, 14), "dot", "dot dot");
    ReplaceAbsent(ApplyFirst(text, 14), "dot dot", "..");
  }
}
