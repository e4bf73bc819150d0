/** aggregateChanges: turns the changed paths into a list of folders and files to scan. */
module Aggregation {
  import opened Strings
  import opened Paths

  datatype PathStatus = Deleted | Directory | File

  type Stat = string -> PathStatus

  // ---------------------------------------------------------------- cleaning the input

  function CleanAll(paths: seq<string>): seq<string> {
    seq(|paths|, i requires 0 <= i < |paths| => Clean(paths[i]))
  }

  /** Drops repetitions from a sorted list; "." becomes "", which disappears when it comes first. */
  function Unique(paths: seq<string>, previous: string): seq<string> {
    if paths == [] then []
    else
      var path := if paths[0] == "." then "" else paths[0];
      (if path != previous then [path] else []) + Unique(paths[1..], path)
  }

  function SortedUniqueAndClean(paths: seq<string>): seq<string> {
    Unique(Sort(CleanAll(paths)), "")
  }

  method CleanPaths(paths: array<string>)
    modifies paths
    ensures paths[..] == CleanAll(old(paths[..]))
  {
    for i := 0 to paths.Length
      invariant forall j :: 0 <= j < i ==> paths[j] == Clean(old(paths[j]))
      invariant forall j :: i <= j < paths.Length ==> paths[j] == old(paths[j])
    {
      paths[i] := Clean(paths[i]);
    }
  }

  /** The caller's slice is left cleaned and sorted, repetitions included. */
  method SortedUniqueAndCleanPaths(paths: array<string>) returns (newPaths: seq<string>)
    modifies paths
    ensures paths[..] == Sort(CleanAll(old(paths[..])))
    ensures newPaths == SortedUniqueAndClean(old(paths[..]))
  {
    CleanPaths(paths);
    SortStrings(paths);
    newPaths := DropRepeats(paths[..]);
  }

  /** The loop of sortedUniqueAndCleanPaths over the sorted slice. */
  method DropRepeats(paths: seq<string>) returns (newPaths: seq<string>)
    ensures newPaths == Unique(paths, "")
  {
    newPaths := [];
    var previousPath := "";
    for i := 0 to |paths|
      invariant newPaths + Unique(paths[i..], previousPath) == Unique(paths, "")
    {
      var path := if paths[i] == "." then "" else paths[i];
      assert paths[i..][1..] == paths[i + 1..];
      if path != previousPath {
        newPaths := newPaths + [path];
      }
      previousPath := path;
    }
  }

  function Distinct(s: seq<string>): seq<string> {
    if |s| < 2 then s
    else if s[0] == s[1] then Distinct(s[1..])
    else [s[0]] + Distinct(s[1..])
  }

  lemma {:induction false} DistinctFacts(s: seq<string>)
    requires Sorted(s)
    ensures StrictlySorted(Distinct(s)) && Elements(Distinct(s)) == Elements(s)
    ensures s != [] ==> Distinct(s) != [] && Distinct(s)[0] == s[0]
  {
    if |s| >= 2 {
      var t := s[1..];
      DistinctFacts(t);
      assert Elements(s) == {s[0]} + Elements(t);
      if s[0] != s[1] {
        var d := Distinct(t);
        assert Elements([s[0]] + d) == {s[0]} + Elements(d);
        forall j | 0 <= j < |d| ensures Less(s[0], d[j]) {
          if j > 0 {
            assert Less(d[0], d[j]);
            LessTransitive(s[0], d[0], d[j]);
          }
        }
      }
    }
  }

  lemma {:induction false} UniqueIgnoresRepeats(s: seq<string>, previous: string)
    ensures Unique(s, previous) == Unique(Distinct(s), previous)
  {
    if |s| >= 2 {
      var path := if s[0] == "." then "" else s[0];
      if s[0] == s[1] {
        UniqueIgnoresRepeats(s[1..], previous);
        assert s[2..] == s[1..][1..];
      } else {
        UniqueIgnoresRepeats(s[1..], path);
        assert ([s[0]] + Distinct(s[1..]))[1..] == Distinct(s[1..]);
      }
    }
  }

  lemma {:induction false} UniqueOfStrict(s: seq<string>, previous: string)
    requires StrictlySorted(s) && "." !in s && (s != [] ==> s[0] != previous)
    ensures Unique(s, previous) == s
  {
    if s != [] {
      UniqueOfStrict(s[1..], s[0]);
    }
  }

  lemma CleanedElements(raw: seq<string>)
    ensures Elements(CleanAll(raw)) == set p | p in raw :: Clean(p)
  {
    forall p | p in raw ensures Clean(p) in CleanAll(raw) {
      var i :| 0 <= i < |raw| && raw[i] == p;
      assert CleanAll(raw)[i] == Clean(p);
    }
  }

  /** The cleaned list depends on nothing but the set of cleaned paths: neither order nor
      repetition of the input matters. */
  lemma OnlyTheSetMatters(raw: seq<string>, raw': seq<string>)
    requires (set p | p in raw :: Clean(p)) == (set p | p in raw' :: Clean(p))
    ensures SortedUniqueAndClean(raw) == SortedUniqueAndClean(raw')
  {
    var a, b := Sort(CleanAll(raw)), Sort(CleanAll(raw'));
    CleanedElements(raw);
    CleanedElements(raw');
    SortSorts(CleanAll(raw));
    SortSorts(CleanAll(raw'));
    SameElements(a, CleanAll(raw));
    SameElements(b, CleanAll(raw'));
    DistinctFacts(a);
    DistinctFacts(b);
    StrictlySortedUnique(Distinct(a), Distinct(b));
    UniqueIgnoresRepeats(a, "");
    UniqueIgnoresRepeats(b, "");
  }

  /** When nothing cleans to ".", the list is the sorted set of cleaned paths. */
  lemma SortedUniqueAndCleanIsSortedSet(raw: seq<string>)
    requires forall p :: p in raw ==> Clean(p) != "."
    ensures SortedUniqueAndClean(raw) == SortedSet(set p | p in raw :: Clean(p))
  {
    var s := Sort(CleanAll(raw));
    var cleaned := set p | p in raw :: Clean(p);
    CleanedElements(raw);
    SortSorts(CleanAll(raw));
    SameElements(s, CleanAll(raw));
    DistinctFacts(s);
    var d := Distinct(s);
    assert Elements(d) == cleaned;
    NothingBlank(raw, d);
    UniqueOfStrict(d, "");
    UniqueIgnoresRepeats(s, "");
    SortedSetFacts(cleaned);
    StrictlySortedUnique(d, SortedSet(cleaned));
  }

  lemma NothingBlank(raw: seq<string>, d: seq<string>)
    requires forall p :: p in raw ==> Clean(p) != "."
    requires Elements(d) == set p | p in raw :: Clean(p)
    ensures "." !in d && "" !in d
  {
    forall p | p in d ensures p != "." && p != "" {
      assert p in Elements(d);
      var q :| q in raw && Clean(q) == p;
      CleanIdempotent(q);
    }
  }

  /** The folder itself, "." once cleaned, survives as "" exactly when something sorts before ".". */
  lemma FolderKeptIff(raw: seq<string>)
    requires exists p :: p in raw && Clean(p) == "."
    ensures "" in SortedUniqueAndClean(raw) <==> exists p :: p in raw && Less(Clean(p), ".")
  {
    var s := Sort(CleanAll(raw));
    CleanedElements(raw);
    SortSorts(CleanAll(raw));
    SameElements(s, CleanAll(raw));
    assert forall x :: x in s <==> x in Elements(s);
    assert "" !in s by {
      if "" in s {
        var q :| q in raw && Clean(q) == "";
        CleanIdempotent(q);
      }
    }
    FolderKept(s, "");
    if Less(s[0], ".") {
      assert s[0] in s;
      var p :| p in raw && Clean(p) == s[0];
    }
    if p :| p in raw && Less(Clean(p), ".") {
      LeastBelow(s, Clean(p), ".");
    }
  }

  lemma LeastBelow(s: seq<string>, x: string, bound: string)
    requires Sorted(s) && x in s && Less(x, bound)
    ensures Less(s[0], bound)
  {
    LessEqRefl(s[0]);
    if s[0] != x {
      LessTransitive(s[0], x, bound);
    }
  }

  lemma {:induction false} FolderKept(s: seq<string>, previous: string)
    requires Sorted(s) && "." in s && "" !in s
    ensures "" in Unique(s, previous) <==> previous != "" || Less(s[0], ".")
  {
    LessEqRefl(s[0]);
    if s[0] == "." {
      if previous == "" {
        NoFolder(s, previous);
      }
    } else {
      FolderKept(s[1..], s[0]);
    }
  }

  /** Once "." is in front, what follows adds no further "". */
  lemma {:induction false} NoFolder(s: seq<string>, previous: string)
    requires Sorted(s) && "" !in s && (s != [] ==> LessEq(".", s[0]))
    requires previous == "" || s == [] || s[0] != "."
    ensures "" !in Unique(s, previous)
  {
    if s != [] {
      var path := if s[0] == "." then "" else s[0];
      if |s| > 1 {
        LessEqTransitive(".", s[0], s[1]);
        if s[1] == "." && s[0] != "." { LessEqAntisymmetric(s[0], "."); }
      }
      NoFolder(s[1..], path);
    }
  }

  // ---------------------------------------------------------------- scoring

  datatype Tally = Tally(scores: map<string, int>, dirs: set<string>)

  function Trim(folder: string, path: string): string {
    TrimPrefix(TrimPrefix(path, folder), "/")
  }

  function DirOf(path: string): string {
    if Dir(path) == "." then "" else Dir(path)
  }

  function Lookup(scores: map<string, int>, k: string): int {
    if k in scores then scores[k] else 0
  }

  /** Records one path: a deleted path or a directory is always worth a scan, a file gets -1 and
      adds one to its directory. */
  function Enter(t: Tally, path: string, status: PathStatus, dirVsFiles: int): Tally {
    match status
    case Deleted => t.(scores := t.scores[path := dirVsFiles])
    case Directory => Tally(t.scores[path := dirVsFiles], t.dirs + {path})
    case File =>
      var filed := t.scores[path := -1];
      Tally(filed[DirOf(path) := Lookup(filed, DirOf(path)) + 1], t.dirs + {DirOf(path)})
  }

  predicate Credits(dirs: set<string>, dir: string, k: string) {
    k in dirs && Beneath(dir, k)
  }

  /** Adds one to every tracked directory above dir. */
  function Credit(t: Tally, dir: string): Tally {
    t.(scores := map k | k in t.scores :: if Credits(t.dirs, dir, k) then t.scores[k] + 1 else t.scores[k])
  }

  function Visit(t: Tally, folder: string, path: string, status: PathStatus, dirVsFiles: int): Tally {
    var p := Trim(folder, path);
    Credit(Enter(t, p, status, dirVsFiles), if status.File? then DirOf(p) else p)
  }

  function TallyAll(folder: string, stat: Stat, dirVsFiles: int, paths: seq<string>): Tally {
    if paths == [] then Tally(map[], {})
    else
      var last := paths[|paths| - 1];
      Visit(TallyAll(folder, stat, dirVsFiles, paths[..|paths| - 1]), folder, last, stat(last), dirVsFiles)
  }

  // ---------------------------------------------------------------- the sweep

  predicate Qualifies(scores: map<string, int>, dirVsFiles: int, k: string)
    requires k in scores
  {
    scores[k] >= dirVsFiles || scores[k] == -1
  }

  /** previous is the last path appended; done is the break after appending "". */
  datatype Sweep = Sweep(previous: string, scans: seq<string>, done: bool)

  predicate Appends(s: Sweep, scores: map<string, int>, dirVsFiles: int, k: string)
    requires k in scores
  {
    !s.done && !Beneath(k, s.previous) && Qualifies(scores, dirVsFiles, k)
  }

  function SweepTo(keys: seq<string>, scores: map<string, int>, dirVsFiles: int, n: nat): Sweep
    requires n <= |keys| && Elements(keys) == scores.Keys
  {
    if n == 0 then Sweep("", [], false)
    else
      var s := SweepTo(keys, scores, dirVsFiles, n - 1);
      var k := keys[n - 1];
      assert k in Elements(keys);
      if Appends(s, scores, dirVsFiles, k) then Sweep(k, s.scans + [k], k == "") else s
  }

  /** The scan list for the paths that survive cleaning. */
  ghost function Scans(folder: string, stat: Stat, dirVsFiles: int, paths: seq<string>): seq<string> {
    var scores := TallyAll(folder, stat, dirVsFiles, paths).scores;
    SortedSetFacts(scores.Keys);
    SweepTo(SortedSet(scores.Keys), scores, dirVsFiles, |SortedSet(scores.Keys)|).scans
  }

  /** The whole of aggregateChanges as a function of the slice it is given. */
  ghost function Aggregate(folder: string, stat: Stat, dirVsFiles: int, raw: seq<string>): seq<string> {
    Scans(folder, stat, dirVsFiles, SortedUniqueAndClean(raw))
  }

  // ---------------------------------------------------------------- the imperative code

  /** The inner loop over the tracked paths: whatever the order of the map iteration, each tracked
      directory above dir gains one. */
  method CreditAncestors(scores: map<string, int>, dirs: set<string>, dir: string)
    returns (scores': map<string, int>)
    ensures scores' == Credit(Tally(scores, dirs), dir).scores
  {
    scores' := scores;
    var todo := scores.Keys;
    while todo != {}
      invariant todo <= scores.Keys == scores'.Keys
      invariant forall k :: k in todo ==> scores'[k] == scores[k]
      invariant forall k :: k in scores && k !in todo ==>
        scores'[k] == if Credits(dirs, dir, k) then scores[k] + 1 else scores[k]
      decreases todo
    {
      var k :| k in todo;
      todo := todo - {k};
      if k in dirs && HasPrefix(dir, k + "/") {
        scores' := scores'[k := scores'[k] + 1];
      }
    }
  }

  /** The keys of the score map, collected in whatever order and then sorted. */
  method SortedKeys(scores: map<string, int>) returns (keys: seq<string>)
    ensures keys == SortedSet(scores.Keys)
  {
    var list: seq<string> := [];
    var todo := scores.Keys;
    while todo != {}
      invariant todo <= scores.Keys && Elements(list) == scores.Keys - todo
      invariant |list| + |todo| == |scores.Keys|
      decreases todo
    {
      var k :| k in todo;
      todo := todo - {k};
      assert Elements(list + [k]) == Elements(list) + {k};
      list := list + [k];
    }
    var a := new string[|list|](i requires 0 <= i < |list| => list[i]);
    assert a[..] == list;
    SortStrings(a);
    keys := a[..];
    SameElements(keys, list);
    SortedDistinctIsStrict(keys);
    SortedSetFacts(scores.Keys);
    StrictlySortedUnique(keys, SortedSet(scores.Keys));
  }

  method ScorePaths(folder: string, dirVsFiles: int, paths: seq<string>, stat: Stat)
    returns (trackedPaths: map<string, int>)
    ensures trackedPaths == TallyAll(folder, stat, dirVsFiles, paths).scores
  {
    trackedPaths := map[];
    var trackedDirs: set<string> := {};
    for i := 0 to |paths|
      invariant Tally(trackedPaths, trackedDirs) == TallyAll(folder, stat, dirVsFiles, paths[..i])
    {
      assert paths[..i + 1][..i] == paths[..i];
      var path := TrimPrefix(paths[i], folder);
      path := TrimPrefix(path, "/");
      trackedPaths, trackedDirs := ScorePath(trackedPaths, trackedDirs, path, stat(paths[i]), dirVsFiles);
    }
    assert paths[..|paths|] == paths;
  }

  /** One turn of the first loop of aggregateChanges, once the path is trimmed. */
  method ScorePath(scores: map<string, int>, dirs: set<string>, path: string, pathStatus: PathStatus, dirVsFiles: int)
    returns (trackedPaths: map<string, int>, trackedDirs: set<string>)
    ensures Tally(trackedPaths, trackedDirs) == Credit(Enter(Tally(scores, dirs), path, pathStatus, dirVsFiles),
                                                       if pathStatus.File? then DirOf(path) else path)
  {
    trackedPaths, trackedDirs := scores, dirs;
    var dir;
    if pathStatus == Deleted {
      dir := path;
      trackedPaths := trackedPaths[path := dirVsFiles];
    } else if pathStatus == Directory {
      dir := path;
      trackedPaths := trackedPaths[path := dirVsFiles];
      trackedDirs := trackedDirs + {dir};
    } else {
      dir := Dir(path);
      if dir == "." {
        dir := "";
      }
      trackedPaths := trackedPaths[path := -1];
      trackedPaths := trackedPaths[dir := (if dir in trackedPaths then trackedPaths[dir] else 0) + 1];
      trackedDirs := trackedDirs + {dir};
    }
    assert Tally(trackedPaths, trackedDirs) == Enter(Tally(scores, dirs), path, pathStatus, dirVsFiles);
    trackedPaths := CreditAncestors(trackedPaths, trackedDirs, dir);
  }

  method AggregateChanges(folder: string, dirVsFiles: int, paths: array<string>, stat: Stat)
    returns (scans: seq<string>)
    modifies paths
    ensures paths[..] == Sort(CleanAll(old(paths[..])))
    ensures scans == Aggregate(folder, stat, dirVsFiles, old(paths[..]))
  {
    var unique := SortedUniqueAndCleanPaths(paths);
    var trackedPaths := ScorePaths(folder, dirVsFiles, unique, stat);
    var keys := SortedKeys(trackedPaths);
    SortedSetFacts(trackedPaths.Keys);
    scans := SweepKeys(dirVsFiles, keys, trackedPaths);
  }

  /** The last loop of aggregateChanges. */
  method SweepKeys(dirVsFiles: int, keys: seq<string>, trackedPaths: map<string, int>)
    returns (scans: seq<string>)
    requires Elements(keys) == trackedPaths.Keys
    ensures scans == SweepTo(keys, trackedPaths, dirVsFiles, |keys|).scans
  {
    var previousPath := "";
    scans := [];
    var i := 0;
    while i < |keys|
      invariant 0 <= i <= |keys|
      invariant SweepTo(keys, trackedPaths, dirVsFiles, i) == Sweep(previousPath, scans, false)
    {
      var trackedPath := keys[i];
      assert trackedPath in Elements(keys);
      var score := trackedPaths[trackedPath];
      i := i + 1;
      if HasPrefix(trackedPath, previousPath + "/") {
        continue;
      }
      if score < dirVsFiles && score != -1 {
        continue;
      }
      previousPath := trackedPath;
      scans := scans + [trackedPath];
      if trackedPath == "" {
        DoneStays(keys, trackedPaths, dirVsFiles, i);
        break;
      }
    }
  }

  lemma {:induction false} DoneStays(keys: seq<string>, scores: map<string, int>, dirVsFiles: int, n: nat)
    requires n <= |keys| && Elements(keys) == scores.Keys
    requires SweepTo(keys, scores, dirVsFiles, n).done
    ensures SweepTo(keys, scores, dirVsFiles, |keys|) == SweepTo(keys, scores, dirVsFiles, n)
    decreases |keys| - n
  {
    if n < |keys| {
      DoneStays(keys, scores, dirVsFiles, n + 1);
    }
  }
}
