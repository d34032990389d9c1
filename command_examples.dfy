/** Worked examples of the replacement pass on whole phrases. An entry that
    cannot match is discharged by naming, per entry, a character of its
    phrase that the text lacks (`Commands.MissingRun`); an entry that
    matches is stepped over with `Commands.ApplyNextAt`. The literal facts
    are kept in small lemmas of their own, apart from the replacement
    chain, so that each proof stays small. */
module CommandExamples {
  import opened StrReplace
  import opened Commands

  /** `"pseudo ls"` is typed as `"sudo ls"`. */
  lemma PseudoExample(s: string)
    requires s == "pseudo ls"
    ensures ApplyTable(s) == "sudo ls"
  {
    PseudoEntry();
    ApplyNextOnce(s, 0, [], " ls", 0);
    SudoLsUnmatchedLow();
    SudoLsUnmatchedHigh();
    SkipEntries(s, 1, 10, "sudo ls", [0, 0, 0, 0, 0, 0, 0, 0, 0]);
    SkipEntries(s, 10, 19, "sudo ls", [0, 0, 4, 2, 2, 2, 0, 1, 1]);
  }

  /** Where entry 0, `"pseudo"`, sits in `"pseudo ls"`,
      and what the text becomes. */
  lemma PseudoEntry()
    ensures "pseudo ls" == [] + Table[0].0 + " ls"
    ensures 0 < |Table[0].0| && Table[0].0[0] !in " ls"
    ensures [] + Table[0].1 + " ls" == "sudo ls"
  {
  }

  /** Entries 1 to 9 do not occur in `"sudo ls"`. */
  lemma SudoLsUnmatchedLow()
    ensures MissingRun("sudo ls", 1, [0, 0, 0, 0, 0, 0, 0, 0, 0], 0)
  {
    var t, at := "sudo ls", [0, 0, 0, 0, 0, 0, 0, 0, 0];
    assert MissingRun(t, 1, at, 6);
    assert MissingRun(t, 1, at, 3);
    assert MissingRun(t, 1, at, 0);
  }

  /** Entries 10 to 18 do not occur in `"sudo ls"`. */
  lemma SudoLsUnmatchedHigh()
    ensures MissingRun("sudo ls", 10, [0, 0, 4, 2, 2, 2, 0, 1, 1], 0)
  {
    var t, at := "sudo ls", [0, 0, 4, 2, 2, 2, 0, 1, 1];
    assert MissingRun(t, 10, at, 6);
    assert MissingRun(t, 10, at, 3);
    assert MissingRun(t, 10, at, 0);
  }

  /** `"change directory slash home"` is typed as `"cd / ~"`: three entries
      apply, in table order. */
  lemma ChangeDirectoryExample(s: string)
    requires s == "change directory slash home"
    ensures ApplyTable(s) == "cd / ~"
  {
    ChangeDirectoryUnmatched();
    CdSlashHomeUnmatchedLow();
    CdSlashHomeUnmatchedMid();
    CdSlashHomeUnmatchedHigh();
    CdRootUnmatched();
    SkipEntries(s, 0, 2, "change directory slash home", [0, 0]);
    ChangeDirectoryEntry();
    ApplyNextOnce(s, 2, [], " slash home", 0);
    SkipEntries(s, 3, 7, "cd slash home", [2, 0, 2, 2]);
    SkipEntries(s, 7, 11, "cd slash home", [0, 0, 0, 1]);
    SkipEntries(s, 11, 15, "cd slash home", [2, 5, 2, 2]);
    SlashEntry();
    ApplyNextOnce(s, 15, "cd ", " home", 0);
    HomeEntry();
    ApplyNextOnce(s, 16, "cd / ", [], 0);
    SkipEntries(s, 17, 19, "cd / ~", [0, 1]);
  }

  /** Where entry 2, `"change directory"`, sits in `"change directory slash home"`,
      and what the text becomes. */
  lemma ChangeDirectoryEntry()
    ensures "change directory slash home" == [] + Table[2].0 + " slash home"
    ensures 0 < |Table[2].0| && Table[2].0[0] !in " slash home"
    ensures [] + Table[2].1 + " slash home" == "cd slash home"
  {
  }

  /** Where entry 15, `"slash"`, sits in `"cd slash home"`,
      and what the text becomes. */
  lemma SlashEntry()
    ensures "cd slash home" == "cd " + Table[15].0 + " home"
    ensures Table[15].0[0] !in "cd "
    ensures 0 < |Table[15].0| && Table[15].0[0] !in " home"
    ensures "cd " + Table[15].1 + " home" == "cd / home"
  {
  }

  /** Where entry 16, `"home"`, sits in `"cd / home"`,
      and what the text becomes. */
  lemma HomeEntry()
    ensures "cd / home" == "cd / " + Table[16].0 + []
    ensures Table[16].0[0] !in "cd / "
    ensures 0 < |Table[16].0| && Table[16].0[0] !in []
    ensures "cd / " + Table[16].1 + [] == "cd / ~"
  {
  }

  /** The first two entries do not occur in `"change directory slash home"`. */
  lemma ChangeDirectoryUnmatched()
    ensures MissingRun("change directory slash home", 0, [0, 0], 0)
  {

  }

  /** The last two entries do not occur in `"cd / ~"`. */
  lemma CdRootUnmatched()
    ensures MissingRun("cd / ~", 17, [0, 1], 0)
  {

  }

  /** Entries 3 to 6 do not occur in `"cd slash home"`. */
  lemma CdSlashHomeUnmatchedLow()
    ensures MissingRun("cd slash home", 3, [2, 0, 2, 2], 0)
  {
    var t, at := "cd slash home", [2, 0, 2, 2];
    assert MissingRun(t, 3, at, 3);
    assert MissingRun(t, 3, at, 0);
  }

  /** Entries 7 to 10 do not occur in `"cd slash home"`. */
  lemma CdSlashHomeUnmatchedMid()
    ensures MissingRun("cd slash home", 7, [0, 0, 0, 1], 0)
  {
    var t, at := "cd slash home", [0, 0, 0, 1];
    assert MissingRun(t, 7, at, 3);
    assert MissingRun(t, 7, at, 0);
  }

  /** Entries 11 to 14 do not occur in `"cd slash home"`. */
  lemma CdSlashHomeUnmatchedHigh()
    ensures MissingRun("cd slash home", 11, [2, 5, 2, 2], 0)
  {
    var t, at := "cd slash home", [2, 5, 2, 2];
    assert MissingRun(t, 11, at, 3);
    assert MissingRun(t, 11, at, 0);
  }

  /** Matching is case-sensitive: `"LS"` becomes `"ls"`, while `"Ls"` is
      left alone. */
  lemma CaseSensitiveExample(s: string, u: string)
    requires s == "LS" && u == "Ls"
    ensures ApplyTable(s) == "ls"
    ensures ApplyTable(u) == "Ls"
  {
    UpperLsUnmatched();
    LowerLsUnmatchedLow();
    LowerLsUnmatchedHigh();
    MixedLsUnmatchedLow();
    MixedLsUnmatchedHigh();
    SkipEntries(s, 0, 1, "LS", [0]);
    LsEntry();
    ApplyNextOnce(s, 1, [], [], 0);
    SkipEntries(s, 2, 10, "ls", [0, 0, 0, 0, 0, 0, 0, 0]);
    SkipEntries(s, 10, 19, "ls", [0, 0, 0, 0, 0, 2, 0, 1, 0]);
    SkipEntries(u, 0, 10, "Ls", [0, 1, 0, 0, 0, 0, 0, 0, 0, 0]);
    SkipEntries(u, 10, 19, "Ls", [0, 0, 0, 0, 0, 1, 0, 1, 0]);
  }

  /** Where entry 1, `"LS"`, sits in `"LS"`,
      and what the text becomes. */
  lemma LsEntry()
    ensures "LS" == [] + Table[1].0 + []
    ensures 0 < |Table[1].0| && Table[1].0[0] !in []
    ensures [] + Table[1].1 + [] == "ls"
  {
  }

  /** The first entry does not occur in `"LS"`. */
  lemma UpperLsUnmatched()
    ensures MissingRun("LS", 0, [0], 0)
  {

  }

  /** Entries 2 to 9 do not occur in `"ls"`. */
  lemma LowerLsUnmatchedLow()
    ensures MissingRun("ls", 2, [0, 0, 0, 0, 0, 0, 0, 0], 0)
  {
    var t, at := "ls", [0, 0, 0, 0, 0, 0, 0, 0];
    assert MissingRun(t, 2, at, 6);
    assert MissingRun(t, 2, at, 3);
    assert MissingRun(t, 2, at, 0);
  }

  /** Entries 10 to 18 do not occur in `"ls"`. */
  lemma LowerLsUnmatchedHigh()
    ensures MissingRun("ls", 10, [0, 0, 0, 0, 0, 2, 0, 1, 0], 0)
  {
    var t, at := "ls", [0, 0, 0, 0, 0, 2, 0, 1, 0];
    assert MissingRun(t, 10, at, 6);
    assert MissingRun(t, 10, at, 3);
    assert MissingRun(t, 10, at, 0);
  }

  /** Entries 0 to 9 do not occur in `"Ls"`. */
  lemma MixedLsUnmatchedLow()
    ensures MissingRun("Ls", 0, [0, 1, 0, 0, 0, 0, 0, 0, 0, 0], 0)
  {
    var t, at := "Ls", [0, 1, 0, 0, 0, 0, 0, 0, 0, 0];
    assert MissingRun(t, 0, at, 9);
    assert MissingRun(t, 0, at, 6);
    assert MissingRun(t, 0, at, 3);
    assert MissingRun(t, 0, at, 0);
  }

  /** Entries 10 to 18 do not occur in `"Ls"`. */
  lemma MixedLsUnmatchedHigh()
    ensures MissingRun("Ls", 10, [0, 0, 0, 0, 0, 1, 0, 1, 0], 0)
  {
    var t, at := "Ls", [0, 0, 0, 0, 0, 1, 0, 1, 0];
    assert MissingRun(t, 10, at, 6);
    assert MissingRun(t, 10, at, 3);
    assert MissingRun(t, 10, at, 0);
  }

  /** Spoken `"dot dot"` is typed as `". ."`, not `".."`: the `"dot"` entry
      consumes both words before `"dot dot"` is tried. */
  lemma DotDotExample(s: string)
    requires s == "dot dot"
    ensures ApplyTable(s) == ". ."
  {
    DotDotUnmatchedLow();
    DotDotUnmatchedHigh();
    DotsUnmatched();
    SkipEntries(s, 0, 7, "dot dot", [0, 0, 0, 0, 0, 0, 0]);
    SkipEntries(s, 7, 13, "dot dot", [0, 0, 0, 0, 0, 2]);
    DotEntry();
    ApplyNextAt(s, 13, [], " dot");
    SkipEntries(s, 14, 19, ". .", [0, 0, 0, 0, 0]);
  }

  /** Where entry 13, `"dot"`, sits in `"dot dot"`,
      and what the text becomes. */
  lemma DotEntry()
    ensures "dot dot" == [] + Table[13].0 + " dot"
    ensures ReplaceAll(" dot", Table[13].0, Table[13].1) == " ."
    ensures [] + Table[13].1 + " ." == ". ."
  {
    KeysNonEmpty();
    assert " dot" == " " + Table[13].0 + [];
    ReplaceFirstOccurrence(" ", Table[13].0, Table[13].1, []);
  }

  /** Entries 0 to 6 do not occur in `"dot dot"`. */
  lemma DotDotUnmatchedLow()
    ensures MissingRun("dot dot", 0, [0, 0, 0, 0, 0, 0, 0], 0)
  {
    var t, at := "dot dot", [0, 0, 0, 0, 0, 0, 0];
    assert MissingRun(t, 0, at, 6);
    assert MissingRun(t, 0, at, 3);
    assert MissingRun(t, 0, at, 0);
  }

  /** Entries 7 to 12 do not occur in `"dot dot"`. */
  lemma DotDotUnmatchedHigh()
    ensures MissingRun("dot dot", 7, [0, 0, 0, 0, 0, 2], 0)
  {
    var t, at := "dot dot", [0, 0, 0, 0, 0, 2];
    assert MissingRun(t, 7, at, 3);
    assert MissingRun(t, 7, at, 0);
  }

  /** No entry after `"dot"` occurs in `". ."`. */
  lemma DotsUnmatched()
    ensures MissingRun(". .", 14, [0, 0, 0, 0, 0], 0)
  {
    var t, at := ". .", [0, 0, 0, 0, 0];
    assert MissingRun(t, 14, at, 3);
    assert MissingRun(t, 14, at, 0);
  }
}
