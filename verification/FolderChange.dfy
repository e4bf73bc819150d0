/** What aggregateChanges makes of a change of the watched folder itself, the path ".". */
module FolderChange {
  import opened Strings
  import opened Paths
  import opened Aggregation
  import opened Sweeping
  import opened ScanList

  /** Clean paths below the folder, and "" for the folder itself. */
  ghost predicate Changed(paths: seq<string>) {
    forall p :: p in paths ==> p == "" || CleanRelative(p)
  }

  lemma {:induction false} UniqueElements(s: seq<string>, previous: string)
    ensures forall p :: p in Unique(s, previous) ==> p in s || (p == "" && "." in s)
  {
    if s != [] {
      UniqueElements(s[1..], if s[0] == "." then "" else s[0]);
    }
  }

  lemma CleanedAreChanged(raw: seq<string>)
    requires forall p :: p in raw ==> !Rooted(p)
    ensures Changed(SortedUniqueAndClean(raw))
  {
    var s := Sort(CleanAll(raw));
    SortSorts(CleanAll(raw));
    SameElements(s, CleanAll(raw));
    CleanedElements(raw);
    UniqueElements(s, "");
    forall p | p in s && p != "." ensures CleanRelative(p) {
      assert p in Elements(s);
      var q :| q in raw && Clean(q) == p;
      CleanIdempotent(q);
    }
    NotTwice(s, "");
  }

  /** A "." never gets through as it is. */
  lemma {:induction false} NotTwice(s: seq<string>, previous: string)
    ensures "." !in Unique(s, previous)
  {
    if s != [] {
      NotTwice(s[1..], if s[0] == "." then "" else s[0]);
    }
  }

  /** Once the folder has been entered its score stays at dirVsFiles or above, and no key is rooted. */
  ghost predicate FolderWorth(t: Tally, dirVsFiles: int, entered: bool) {
    && (forall k :: k in t.scores ==> !Rooted(k))
    && (entered ==> "" in t.scores && t.scores[""] >= dirVsFiles)
  }

  lemma VisitKeepsFolder(t: Tally, folder: string, path: string, status: PathStatus, dirVsFiles: int, entered: bool)
    requires Rooted(folder) && FolderWorth(t, dirVsFiles, entered)
    requires (path == "" && !status.File?) || CleanRelative(path)
    ensures FolderWorth(Visit(t, folder, path, status, dirVsFiles), dirVsFiles, entered || path == "")
  {
    assert Trim(folder, path) == path;
    if path != "" {
      DirIsParent(path);
      CleanIdempotent(path);
    }
    EnterKeepsFolder(t, path, status, dirVsFiles, entered);
  }

  lemma EnterKeepsFolder(t: Tally, path: string, status: PathStatus, dirVsFiles: int, entered: bool)
    requires FolderWorth(t, dirVsFiles, entered) && !Rooted(path) && (path == "" ==> !status.File?)
    requires status.File? ==> !Rooted(DirOf(path))
    ensures FolderWorth(Enter(t, path, status, dirVsFiles), dirVsFiles, entered || path == "")
  {
  }

  lemma {:induction false} TallyKeepsFolder(folder: string, stat: Stat, dirVsFiles: int, paths: seq<string>)
    requires Rooted(folder) && !stat("").File? && Changed(paths)
    ensures FolderWorth(TallyAll(folder, stat, dirVsFiles, paths), dirVsFiles, "" in paths)
  {
    if paths != [] {
      var init, last := paths[..|paths| - 1], paths[|paths| - 1];
      TallyKeepsFolder(folder, stat, dirVsFiles, init);
      VisitKeepsFolder(TallyAll(folder, stat, dirVsFiles, init), folder, last, stat(last), dirVsFiles, "" in init);
      assert "" in paths <==> "" in init || last == "";
    }
  }

  /** If the folder survives the cleaning, the whole folder is scanned and nothing else. */
  lemma FolderIsScanned(folder: string, stat: Stat, dirVsFiles: int, raw: seq<string>)
    requires Rooted(folder) && !stat("").File? && forall p :: p in raw ==> !Rooted(p)
    requires "" in SortedUniqueAndClean(raw)
    ensures Aggregate(folder, stat, dirVsFiles, raw) == [""]
  {
    var paths := SortedUniqueAndClean(raw);
    CleanedAreChanged(raw);
    TallyKeepsFolder(folder, stat, dirVsFiles, paths);
    var scores := TallyAll(folder, stat, dirVsFiles, paths).scores;
    SortedSetFacts(scores.Keys);
    WholeFolder(SortedSet(scores.Keys), scores, dirVsFiles);
  }

  lemma DashAndDot()
    ensures CleanAll(["-a", "."]) == ["-a", "."] && Sort(["-a", "."]) == ["-a", "."]
  {
    Word("-a");
    DotIsClean();
    assert Less("-a", ".");
    SortSorts(["-a", "."]);
    SortedUnique(["-a", "."], Sort(["-a", "."]));
  }

  /** So a change of the folder leads to a scan of the whole folder if something changed sorts before
      ".", as "-a" does. */
  lemma FolderAfterDash(folder: string, stat: Stat, dirVsFiles: int)
    requires Rooted(folder) && !stat("").File?
    ensures SortedUniqueAndClean(["-a", "."]) == ["-a", ""]
    ensures Aggregate(folder, stat, dirVsFiles, ["-a", "."]) == [""]
  {
    DashAndDot();
    assert ["-a", "."][1..] == ["."] && ["."][1..] == [];
    assert Unique(["."], "-a") == [""];
    FolderIsScanned(folder, stat, dirVsFiles, ["-a", "."]);
  }

  lemma DotIsClean()
    ensures Clean(".") == "."
  {
    SplitPiece(".", '/');
    assert ["."][..0] == [];
  }

  /** On its own it leads to nothing at all. */
  lemma FolderAloneIsLost(folder: string, stat: Stat, dirVsFiles: int)
    ensures SortedUniqueAndClean(["."]) == [] && Aggregate(folder, stat, dirVsFiles, ["."]) == []
  {
    DotIsClean();
    assert CleanAll(["."]) == ["."];
    SortSorts(["."]);
    SortedUnique(["."], Sort(["."]));
    SortedSetFacts({});
    NoElements(SortedSet({}));
  }

  lemma NoElements(s: seq<string>)
    requires Elements(s) == {}
    ensures s == []
  {
    if s != [] {
      HeadIsElement(s);
    }
  }

  lemma HeadIsElement(s: seq<string>)
    requires s != []
    ensures s[0] in Elements(s)
  {
  }
}
