/** The scores of aggregateChanges in closed form: what the incremental bookkeeping counts. */
module Scores {
  import opened Strings
  import opened Paths
  import opened Aggregation

  /** The paths aggregateChanges is meant for: cleaned paths below the folder, none of them the
      folder itself, none touched by the prefix trimming. */
  ghost predicate ProperInputs(folder: string, inputs: set<string>) {
    forall p :: p in inputs ==> CleanRelative(p) && Trim(folder, p) == p
  }

  /** An absolute folder path never trims a relative path. */
  lemma AbsoluteFolderIsProper(folder: string, inputs: set<string>)
    requires Rooted(folder)
    requires forall p :: p in inputs ==> CleanRelative(p)
    ensures ProperInputs(folder, inputs)
  {
    forall p | p in inputs ensures Trim(folder, p) == p {
      assert p != "" && p[0] != '/';
    }
  }

  /** And it is trimmed off a full path, with the separator. */
  lemma TrimUndoesJoin(folder: string, path: string)
    ensures Trim(folder, folder + "/" + path) == path
  {
    assert (folder + "/" + path)[|folder|..] == "/" + path;
    assert ("/" + path)[1..] == path;
  }

  /** The input p is counted for directory k: k is a changed directory itself, or a changed file
      lying directly in k sorts no later than p. */
  ghost predicate Opens(inputs: set<string>, stat: Stat, k: string, p: string) {
    || (k in inputs && stat(k).Directory?)
    || exists f :: f in inputs && stat(f).File? && Parent(f) == k && LessEq(f, p)
  }

  /** The inputs counted for k: for the folder itself its direct files, for any other directory
      everything beneath it from its first direct file onward. */
  ghost function Credited(inputs: set<string>, stat: Stat, k: string): set<string> {
    if k == "" then set p | p in inputs && stat(p).File? && Parent(p) == ""
    else set p | p in inputs && Beneath(p, k) && Opens(inputs, stat, k, p)
  }

  ghost function BaseScore(inputs: set<string>, stat: Stat, dirVsFiles: int, k: string): int {
    if k !in inputs then 0 else if stat(k).File? then -1 else dirVsFiles
  }

  ghost function Score(inputs: set<string>, stat: Stat, dirVsFiles: int, k: string): int {
    BaseScore(inputs, stat, dirVsFiles, k) + |Credited(inputs, stat, k)|
  }

  ghost function FileParents(inputs: set<string>, stat: Stat): set<string> {
    set f | f in inputs && stat(f).File? :: Parent(f)
  }

  ghost function Keys(inputs: set<string>, stat: Stat): set<string> {
    inputs + FileParents(inputs, stat)
  }

  ghost function TrackedDirs(inputs: set<string>, stat: Stat): set<string> {
    (set d | d in inputs && stat(d).Directory?) + FileParents(inputs, stat)
  }

  ghost function ClosedTally(inputs: set<string>, stat: Stat, dirVsFiles: int): Tally {
    Tally(map k | k in Keys(inputs, stat) :: Score(inputs, stat, dirVsFiles, k), TrackedDirs(inputs, stat))
  }

  // ---------------------------------------------------------------- one more input

  ghost predicate AllBefore(inputs: set<string>, x: string) {
    forall p :: p in inputs ==> Less(p, x)
  }

  lemma LessExcludes(a: string, b: string)
    requires Less(a, b)
    ensures !LessEq(b, a)
  {
    if LessEq(b, a) {
      LessEqAntisymmetric(a, b);
    }
  }

  lemma ParentSortsFirst(f: string)
    requires f != ""
    ensures Less(Parent(f), f)
  {
    if Parent(f) != "" {
      BeneathParent(f, Parent(f));
      BeneathLess(f, Parent(f));
    }
  }

  /** Inputs arrive in sorted order, so a new input is new in every role. */
  lemma FreshInput(inputs: set<string>, stat: Stat, x: string)
    requires AllBefore(inputs, x) && x != "" && "" !in inputs
    ensures x !in Keys(inputs, stat)
    ensures forall k :: k == x ==> Credited(inputs + {x}, stat, k) == {}
  {
    forall f | f in inputs ensures Parent(f) != x {
      ParentSortsFirst(f);
      if Parent(f) == x { LessExcludes(f, x); }
    }
    forall p | p in inputs + {x} ensures !Beneath(p, x) {
      if Beneath(p, x) {
        BeneathLess(p, x);
        if p != x { LessExcludes(p, x); }
      }
    }
  }

  /** How the counted inputs of k change when x, sorting after all inputs, is added. */
  lemma CreditedStep(inputs: set<string>, stat: Stat, x: string, k: string)
    requires AllBefore(inputs, x) && x != ""
    ensures x !in Credited(inputs, stat, k)
    ensures Credited(inputs + {x}, stat, k) == Credited(inputs, stat, k) +
            if (if k == "" then stat(x).File? && Parent(x) == ""
                else Beneath(x, k) && k in TrackedDirs(inputs + {x}, stat))
            then {x} else {}
  {
    var more := inputs + {x};
    if k != "" {
      forall p | p in inputs && Beneath(p, k)
        ensures Opens(inputs, stat, k, p) <==> Opens(more, stat, k, p)
      {
        LessExcludes(p, x);
        if k == x {
          BeneathLess(p, k);
          LessExcludes(x, p);
        }
      }
      if Beneath(x, k) {
        BeneathLess(x, k);
        LessEqRefl(x);
        assert Opens(more, stat, k, x) <==> k in TrackedDirs(more, stat) by {
          assert forall f :: f in more ==> LessEq(f, x);
        }
      }
    }
  }

  /** What processing x adds to the score of k. */
  lemma ScoreGrows(inputs: set<string>, stat: Stat, dirVsFiles: int, x: string, k: string)
    requires AllBefore(inputs, x) && x != "" && "" !in inputs
    ensures var before := if k in Keys(inputs, stat) then Score(inputs, stat, dirVsFiles, k) else 0;
            var own := if k == x then BaseScore(inputs + {x}, stat, dirVsFiles, x) else 0;
            var gain := if k == "" then stat(x).File? && Parent(x) == ""
                       else Beneath(x, k) && k in TrackedDirs(inputs + {x}, stat);
            Score(inputs + {x}, stat, dirVsFiles, k) == before + own + if gain then 1 else 0
  {
    FreshInput(inputs, stat, x);
    CreditedStep(inputs, stat, x, k);
    if k !in Keys(inputs, stat) {
      assert Credited(inputs, stat, k) == {};
    }
    if k == x {
      assert Beneath(x, k) ==> Less(x, x) by { if Beneath(x, k) { BeneathLess(x, k); } }
    }
  }

  /** The credit loop and the ++ on a file's directory together realise the gain. */
  lemma GainIsCredit(dirs: set<string>, x: string, status: PathStatus, k: string)
    requires CleanRelative(x) && (status.File? ==> Parent(x) in dirs)
    ensures var dir := if status.File? then DirOf(x) else x;
            var gain := if k == "" then status.File? && Parent(x) == "" else Beneath(x, k) && k in dirs;
            gain <==> (status.File? && k == DirOf(x)) || Credits(dirs, dir, k)
    ensures !(status.File? && k == DirOf(x) && Credits(dirs, DirOf(x), k))
  {
    DirIsParent(x);
    CleanIdempotent(x);
    assert DirOf(x) == Parent(x);
    if k == "" {
      BeneathFolder(x);
      BeneathFolder(Parent(x));
    } else {
      BeneathParent(x, k);
    }
  }

  lemma OneMoreInput(inputs: set<string>, stat: Stat, x: string)
    ensures FileParents(inputs + {x}, stat) == FileParents(inputs, stat) + if stat(x).File? then {Parent(x)} else {}
    ensures (set d | d in inputs + {x} && stat(d).Directory?)
         == (set d | d in inputs && stat(d).Directory?) + if stat(x).Directory? then {x} else {}
  {
  }

  /** The directories and the paths with a score once x has been entered. */
  lemma EnteredKeys(inputs: set<string>, stat: Stat, dirVsFiles: int, x: string)
    requires AllBefore(inputs, x) && "" !in inputs && CleanRelative(x)
    ensures var entered := Enter(ClosedTally(inputs, stat, dirVsFiles), x, stat(x), dirVsFiles);
            && entered.dirs == TrackedDirs(inputs + {x}, stat)
            && entered.scores.Keys == Keys(inputs + {x}, stat)
  {
    DirIsParent(x);
    assert DirOf(x) == Parent(x);
    OneMoreInput(inputs, stat, x);
    EntersKeys(ClosedTally(inputs, stat, dirVsFiles), x, stat(x), dirVsFiles);
  }

  lemma EntersKeys(t: Tally, x: string, status: PathStatus, dirVsFiles: int)
    ensures var entered := Enter(t, x, status, dirVsFiles);
            && entered.dirs == t.dirs + (if status.Directory? then {x} else {})
                            + (if status.File? then {DirOf(x)} else {})
            && entered.scores.Keys == t.scores.Keys + {x} + (if status.File? then {DirOf(x)} else {})
  {
  }

  /** The score of k once x has been entered. */
  lemma EnteredScore(inputs: set<string>, stat: Stat, dirVsFiles: int, x: string, k: string)
    requires AllBefore(inputs, x) && "" !in inputs && CleanRelative(x)
    requires k in Enter(ClosedTally(inputs, stat, dirVsFiles), x, stat(x), dirVsFiles).scores
    ensures var before := if k in Keys(inputs, stat) then Score(inputs, stat, dirVsFiles, k) else 0;
            var own := if k == x then BaseScore(inputs + {x}, stat, dirVsFiles, x) else 0;
            Enter(ClosedTally(inputs, stat, dirVsFiles), x, stat(x), dirVsFiles).scores[k]
              == before + own + if stat(x).File? && k == DirOf(x) then 1 else 0
  {
    CleanIdempotent(x);
    DirIsParent(x);
    FreshInput(inputs, stat, x);
    ParentSortsFirst(x);
    assert DirOf(x) == Parent(x) != x;
  }

  lemma TallyStep(folder: string, inputs: set<string>, stat: Stat, dirVsFiles: int, x: string)
    requires AllBefore(inputs, x) && "" !in inputs && CleanRelative(x) && Trim(folder, x) == x
    ensures Visit(ClosedTally(inputs, stat, dirVsFiles), folder, x, stat(x), dirVsFiles)
         == ClosedTally(inputs + {x}, stat, dirVsFiles)
  {
    var entered := Enter(ClosedTally(inputs, stat, dirVsFiles), x, stat(x), dirVsFiles);
    var credited := Credit(entered, if stat(x).File? then DirOf(x) else x);
    CleanIdempotent(x);
    EnteredKeys(inputs, stat, dirVsFiles, x);
    forall k | k in Keys(inputs + {x}, stat)
      ensures k in credited.scores && credited.scores[k] == Score(inputs + {x}, stat, dirVsFiles, k)
    {
      CreditedScore(inputs, stat, dirVsFiles, x, k);
    }
    IsClosedTally(credited, inputs + {x}, stat, dirVsFiles);
  }

  lemma IsClosedTally(t: Tally, inputs: set<string>, stat: Stat, dirVsFiles: int)
    requires t.dirs == TrackedDirs(inputs, stat) && t.scores.Keys == Keys(inputs, stat)
    requires forall k :: k in t.scores ==> t.scores[k] == Score(inputs, stat, dirVsFiles, k)
    ensures t == ClosedTally(inputs, stat, dirVsFiles)
  {
  }

  /** The score of k once x has been entered and credited. */
  lemma CreditedScore(inputs: set<string>, stat: Stat, dirVsFiles: int, x: string, k: string)
    requires AllBefore(inputs, x) && "" !in inputs && CleanRelative(x) && k in Keys(inputs + {x}, stat)
    ensures var entered := Enter(ClosedTally(inputs, stat, dirVsFiles), x, stat(x), dirVsFiles);
            var credited := Credit(entered, if stat(x).File? then DirOf(x) else x).scores;
            k in credited && credited[k] == Score(inputs + {x}, stat, dirVsFiles, k)
  {
    EnteredKeys(inputs, stat, dirVsFiles, x);
    DirIsParent(x);
    EnteredScore(inputs, stat, dirVsFiles, x, k);
    ScoreGrows(inputs, stat, dirVsFiles, x, k);
    GainIsCredit(TrackedDirs(inputs + {x}, stat), x, stat(x), k);
  }

  /** The incremental scores are the closed form: they depend on the set of inputs alone. */
  lemma {:induction false} ScoresAreClosedForm(folder: string, stat: Stat, dirVsFiles: int, paths: seq<string>)
    requires StrictlySorted(paths) && ProperInputs(folder, Elements(paths))
    ensures TallyAll(folder, stat, dirVsFiles, paths) == ClosedTally(Elements(paths), stat, dirVsFiles)
  {
    if paths == [] {
      assert Keys({}, stat) == {};
    } else {
      var init, x := paths[..|paths| - 1], paths[|paths| - 1];
      assert paths == init + [x];
      assert Elements(paths) == Elements(init) + {x};
      CleanIdempotent(x);
      if "" in init { CleanIdempotent(""); }
      ScoresAreClosedForm(folder, stat, dirVsFiles, init);
      TallyStep(folder, Elements(init), stat, dirVsFiles, x);
    }
  }
}
