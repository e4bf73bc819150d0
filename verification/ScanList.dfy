/** What the scan list of aggregateChanges guarantees, in terms of the set of changed paths. */
module ScanList {
  import opened Strings
  import opened Paths
  import opened Aggregation
  import opened Scores
  import opened Sweeping

  /** The scan list for a set of changed paths. */
  ghost function ScanListOf(folder: string, stat: Stat, dirVsFiles: int, inputs: set<string>): seq<string> {
    Scans(folder, stat, dirVsFiles, SortedSet(inputs))
  }

  /** A path worth a scan of its own, by its closed-form score. */
  ghost predicate Qualified(inputs: set<string>, stat: Stat, dirVsFiles: int, k: string) {
    && k in Keys(inputs, stat)
    && (Score(inputs, stat, dirVsFiles, k) >= dirVsFiles || Score(inputs, stat, dirVsFiles, k) == -1)
  }

  ghost predicate Covered(scans: seq<string>, p: string) {
    exists s :: s in scans && CoveredBy(p, s)
  }

  /** aggregateChanges of any slice of paths is the scan list of the set they clean to. */
  lemma AggregateIsScanList(folder: string, stat: Stat, dirVsFiles: int, raw: seq<string>)
    requires forall p :: p in raw ==> Clean(p) != "."
    ensures Aggregate(folder, stat, dirVsFiles, raw)
         == ScanListOf(folder, stat, dirVsFiles, set p | p in raw :: Clean(p))
  {
    SortedUniqueAndCleanIsSortedSet(raw);
  }

  lemma CleanListing(inputs: set<string>, list: seq<string>)
    requires Elements(list) == inputs && forall p :: p in inputs ==> CleanRelative(p)
    ensures (set p | p in list :: Clean(p)) == inputs
    ensures forall p :: p in list ==> Clean(p) != "."
  {
    assert forall p :: p in list <==> p in Elements(list);
  }

  lemma AggregateOfCleanSet(folder: string, stat: Stat, dirVsFiles: int, inputs: set<string>)
    requires forall p :: p in inputs ==> CleanRelative(p)
    ensures Aggregate(folder, stat, dirVsFiles, SortedSet(inputs)) == ScanListOf(folder, stat, dirVsFiles, inputs)
  {
    SortedSetFacts(inputs);
    CleanListing(inputs, SortedSet(inputs));
    AggregateIsScanList(folder, stat, dirVsFiles, SortedSet(inputs));
  }

  /** The scan list does not depend on the order or the repetition of the paths, whatever they
      clean to. */
  lemma AggregateIgnoresOrder(folder: string, stat: Stat, dirVsFiles: int, raw: seq<string>, raw': seq<string>)
    requires (set p | p in raw :: Clean(p)) == (set p | p in raw' :: Clean(p))
    ensures Aggregate(folder, stat, dirVsFiles, raw) == Aggregate(folder, stat, dirVsFiles, raw')
  {
    OnlyTheSetMatters(raw, raw');
  }

  lemma KeysAreRelative(folder: string, stat: Stat, inputs: set<string>)
    requires ProperInputs(folder, inputs)
    ensures forall k :: k in Keys(inputs, stat) ==> !Rooted(k)
    ensures "" !in inputs
  {
    forall f | f in inputs ensures !Rooted(Parent(f)) && f != "" {
      DirIsParent(f);
      CleanIdempotent(f);
    }
  }

  /** The bridge: the scan list is the sweep over the closed-form scores. */
  lemma ScanListIsSwept(folder: string, stat: Stat, dirVsFiles: int, inputs: set<string>)
    returns (keys: seq<string>, scores: map<string, int>)
    requires ProperInputs(folder, inputs)
    ensures SweepInput(keys, scores) && keys == SortedSet(Keys(inputs, stat))
    ensures ScanListOf(folder, stat, dirVsFiles, inputs) == Swept(keys, scores, dirVsFiles)
    ensures forall k :: Worth(scores, dirVsFiles, k) <==> Qualified(inputs, stat, dirVsFiles, k)
  {
    SortedSetFacts(inputs);
    ScoresAreClosedForm(folder, stat, dirVsFiles, SortedSet(inputs));
    scores := ClosedTally(inputs, stat, dirVsFiles).scores;
    assert scores.Keys == Keys(inputs, stat);
    keys := SortedSet(scores.Keys);
    SortedSetFacts(scores.Keys);
    KeysAreRelative(folder, stat, inputs);
    assert forall k :: k in keys ==> k in Elements(keys);
  }

  /** Every scan qualifies: it is a changed path or the directory of a changed file. */
  lemma ScansQualify(folder: string, stat: Stat, dirVsFiles: int, inputs: set<string>, s: string)
    requires ProperInputs(folder, inputs) && s in ScanListOf(folder, stat, dirVsFiles, inputs)
    ensures Qualified(inputs, stat, dirVsFiles, s)
  {
    var keys, scores := ScanListIsSwept(folder, stat, dirVsFiles, inputs);
    SweepShape(keys, scores, dirVsFiles, |keys|);
  }

  // ---------------------------------------------------------------- coverage

  lemma CoveredByTransitive(p: string, k: string, s: string)
    requires CoveredBy(p, k) && CoveredBy(k, s)
    ensures CoveredBy(p, s)
  {
    NothingAboveFolder(s);
    if s != "" && p != k && k != s {
      BeneathTransitive(p, k, s);
    }
  }

  /** A path is covered exactly when it, a directory above it or the folder qualifies. */
  lemma CoveredIffQualified(folder: string, stat: Stat, dirVsFiles: int, inputs: set<string>, p: string)
    requires ProperInputs(folder, inputs) && !Rooted(p)
    ensures Covered(ScanListOf(folder, stat, dirVsFiles, inputs), p) <==>
            exists k :: Qualified(inputs, stat, dirVsFiles, k) && CoveredBy(p, k)
  {
    var keys, scores := ScanListIsSwept(folder, stat, dirVsFiles, inputs);
    var scans := ScanListOf(folder, stat, dirVsFiles, inputs);
    if k :| Qualified(inputs, stat, dirVsFiles, k) && CoveredBy(p, k) {
      assert Worth(scores, dirVsFiles, k);
      var s := WorthIsCovered(keys, scores, dirVsFiles, k);
      CoveredByTransitive(p, k, s);
    }
    if s :| s in scans && CoveredBy(p, s) {
      ScansQualify(folder, stat, dirVsFiles, inputs, s);
    }
  }

  /** No changed file is also the directory of a changed file. */
  ghost predicate FileConsistent(inputs: set<string>, stat: Stat) {
    forall p :: p in inputs && stat(p).File? ==> p !in FileParents(inputs, stat)
  }

  /** A changed file whose -1 was lost because a changed file lies directly in it, with too few
      changes counted beneath it, and with nothing above it that qualifies. */
  ghost predicate Stranded(inputs: set<string>, stat: Stat, dirVsFiles: int, p: string) {
    && p in inputs && stat(p).File? && p in FileParents(inputs, stat)
    && |Credited(inputs, stat, p)| <= dirVsFiles
    && forall k :: Qualified(inputs, stat, dirVsFiles, k) && k != p ==> !CoveredBy(p, k)
  }

  /** The direct file inputs of a directory are counted for it. */
  lemma DirectFilesCredited(folder: string, stat: Stat, inputs: set<string>, d: string, f: string)
    requires ProperInputs(folder, inputs) && f in inputs && stat(f).File? && Parent(f) == d
    ensures f in Credited(inputs, stat, d)
  {
    LessEqRefl(f);
    if d != "" {
      BeneathParent(f, d);
    }
  }

  /** An input qualifies unless it is a file that lost its -1. */
  lemma InputQualifies(folder: string, stat: Stat, dirVsFiles: int, inputs: set<string>, p: string)
    requires ProperInputs(folder, inputs) && p in inputs
    ensures !stat(p).File? ==> Score(inputs, stat, dirVsFiles, p) >= dirVsFiles
    ensures Qualified(inputs, stat, dirVsFiles, p) <==>
            !(stat(p).File? && p in FileParents(inputs, stat) && |Credited(inputs, stat, p)| <= dirVsFiles)
  {
    KeysAreRelative(folder, stat, inputs);
    if stat(p).File? {
      if p in FileParents(inputs, stat) {
        var f :| f in inputs && stat(f).File? && Parent(f) == p;
        DirectFilesCredited(folder, stat, inputs, p, f);
        assert Credited(inputs, stat, p) != {};
      } else {
        assert Credited(inputs, stat, p) == {};
      }
    }
  }

  /** A changed path is covered by the scan list unless it is stranded. */
  lemma InputCoveredIff(folder: string, stat: Stat, dirVsFiles: int, inputs: set<string>, p: string)
    requires ProperInputs(folder, inputs) && p in inputs
    ensures Covered(ScanListOf(folder, stat, dirVsFiles, inputs), p) <==> !Stranded(inputs, stat, dirVsFiles, p)
  {
    CoveredIffQualified(folder, stat, dirVsFiles, inputs, p);
    InputQualifies(folder, stat, dirVsFiles, inputs, p);
    assert CoveredBy(p, p);
  }

  /** Exactly when every changed path is covered by the scan list. */
  lemma EveryInputCoveredIff(folder: string, stat: Stat, dirVsFiles: int, inputs: set<string>)
    requires ProperInputs(folder, inputs)
    ensures (forall p :: p in inputs ==> Covered(ScanListOf(folder, stat, dirVsFiles, inputs), p)) <==>
            !(exists p :: Stranded(inputs, stat, dirVsFiles, p))
  {
    var scans := ScanListOf(folder, stat, dirVsFiles, inputs);
    forall p | p in inputs
      ensures Covered(scans, p) <==> !Stranded(inputs, stat, dirVsFiles, p)
    {
      InputCoveredIff(folder, stat, dirVsFiles, inputs, p);
    }
    if forall p :: p in inputs ==> Covered(scans, p) {
      forall p ensures !Stranded(inputs, stat, dirVsFiles, p) {
        if p in inputs { assert Covered(scans, p); }
      }
    }
  }

  /** On a consistent file system every changed path is scanned, lies beneath a scan, or the whole
      folder is scanned. */
  lemma EveryInputCovered(folder: string, stat: Stat, dirVsFiles: int, inputs: set<string>)
    requires ProperInputs(folder, inputs) && FileConsistent(inputs, stat)
    ensures forall p :: p in inputs ==> Covered(ScanListOf(folder, stat, dirVsFiles, inputs), p)
  {
    EveryInputCoveredIff(folder, stat, dirVsFiles, inputs);
  }

  lemma Longest(inputs: set<string>) returns (p: string)
    requires inputs != {}
    ensures p in inputs && forall q :: q in inputs ==> |q| <= |p|
  {
    var x :| x in inputs;
    var rest := inputs - {x};
    if rest == {} {
      p := x;
      assert forall q :: q in inputs ==> q == x || q in rest;
    } else {
      p := Longest(rest);
      assert forall q :: q in inputs ==> q == x || q in rest;
      if |p| < |x| {
        p := x;
      }
    }
  }

  /** If anything changed something is scanned: the list, which would mean the whole folder if it were
      empty, never is. */
  lemma SomethingIsScanned(folder: string, stat: Stat, dirVsFiles: int, inputs: set<string>)
    requires ProperInputs(folder, inputs) && inputs != {}
    ensures ScanListOf(folder, stat, dirVsFiles, inputs) != []
  {
    var p := Longest(inputs);
    assert forall f :: f in inputs ==> |Parent(f)| < |f|;
    assert p !in FileParents(inputs, stat);
    InputQualifies(folder, stat, dirVsFiles, inputs, p);
    assert !Stranded(inputs, stat, dirVsFiles, p);
    InputCoveredIff(folder, stat, dirVsFiles, inputs, p);
  }

  // ---------------------------------------------------------------- no redundant scans

  ghost predicate TopmostQualified(inputs: set<string>, stat: Stat, dirVsFiles: int, a: string) {
    && Qualified(inputs, stat, dirVsFiles, a)
    && forall q :: Qualified(inputs, stat, dirVsFiles, q) ==> !Beneath(a, q)
  }

  ghost predicate Intruder(inputs: set<string>, stat: Stat, dirVsFiles: int, a: string, c: string, b: string) {
    && TopmostQualified(inputs, stat, dirVsFiles, a)
    && Qualified(inputs, stat, dirVsFiles, b) && Beneath(b, a)
    && Qualified(inputs, stat, dirVsFiles, c) && HasPrefix(c, a) && |a| < |c| && c[|a|] < '/'
  }

  /** Exactly when the scan list repeats itself: below a topmost qualifying directory something
      else qualifies, and some qualifying path continues that directory's name with a byte that
      sorts below the separator. */
  lemma RedundantIffIntruder(folder: string, stat: Stat, dirVsFiles: int, inputs: set<string>)
    requires ProperInputs(folder, inputs)
    ensures Redundant(ScanListOf(folder, stat, dirVsFiles, inputs)) <==>
            && !Qualified(inputs, stat, dirVsFiles, "")
            && exists a, c, b :: Intruder(inputs, stat, dirVsFiles, a, c, b)
  {
    var keys, scores := ScanListIsSwept(folder, stat, dirVsFiles, inputs);
    RedundantIffIntrusion(keys, scores, dirVsFiles);
    forall a, c, b
      ensures Intrusion(scores, dirVsFiles, a, c, b) <==> Intruder(inputs, stat, dirVsFiles, a, c, b)
    {
      assert Topmost(scores, dirVsFiles, a) <==> TopmostQualified(inputs, stat, dirVsFiles, a) by {
        assert forall q :: Worth(scores, dirVsFiles, q) <==> Qualified(inputs, stat, dirVsFiles, q);
      }
    }
  }

  ghost predicate NoLowBytes(inputs: set<string>) {
    forall p, i :: p in inputs && 0 <= i < |p| ==> p[i] >= '/'
  }

  /** Without bytes below the separator no scan is an ancestor of another. */
  lemma NoRedundantScans(folder: string, stat: Stat, dirVsFiles: int, inputs: set<string>)
    requires ProperInputs(folder, inputs) && NoLowBytes(inputs)
    ensures !Redundant(ScanListOf(folder, stat, dirVsFiles, inputs))
  {
    RedundantIffIntruder(folder, stat, dirVsFiles, inputs);
    forall a, c, b ensures !Intruder(inputs, stat, dirVsFiles, a, c, b) {
      if c in Keys(inputs, stat) {
        KeyHasNoLowByte(inputs, stat, c);
      }
    }
  }

  lemma KeyHasNoLowByte(inputs: set<string>, stat: Stat, c: string)
    requires NoLowBytes(inputs) && c in Keys(inputs, stat)
    ensures forall i :: 0 <= i < |c| ==> c[i] >= '/'
  {
    if c !in inputs {
      var f :| f in inputs && Parent(f) == c;
      ParentIsPrefix(f);
    }
  }

  /** An input at or beneath each scan. */
  lemma ScanHasInput(folder: string, stat: Stat, dirVsFiles: int, inputs: set<string>, s: string)
    requires ProperInputs(folder, inputs) && s in ScanListOf(folder, stat, dirVsFiles, inputs)
    ensures exists p :: p in inputs && CoveredBy(p, s)
  {
    ScansQualify(folder, stat, dirVsFiles, inputs, s);
    if s in inputs {
      assert CoveredBy(s, s);
    } else {
      var p :| p in inputs && Parent(p) == s;
      if s != "" {
        BeneathParent(p, s);
      }
      assert CoveredBy(p, s);
    }
  }

  ghost predicate HoldInputs(scans: seq<string>, inputs: set<string>) {
    && StrictlySorted(scans)
    && ("" in scans ==> scans == [""])
    && forall s :: s in scans ==> exists p :: p in inputs && CoveredBy(p, s)
  }

  /** Distinct scans hold distinct inputs, unless one scan lies above another. */
  lemma {:induction false} ScansInject(scans: seq<string>, inputs: set<string>, n: nat) returns (held: set<string>)
    requires HoldInputs(scans, inputs) && !Redundant(scans) && n <= |scans|
    ensures held <= inputs && |held| == n
    ensures forall p :: p in held ==> Covered(scans[..n], p)
  {
    if n == 0 {
      held := {};
    } else {
      var before := ScansInject(scans, inputs, n - 1);
      var s := scans[n - 1];
      assert s in scans;
      var p :| p in inputs && CoveredBy(p, s);
      if p in before {
        SharedInputIsRedundant(scans, inputs, n, p);
      }
      held := before + {p};
      assert scans[..n] == scans[..n - 1] + [s];
      forall q | q in held ensures Covered(scans[..n], q) {
        if q in before {
          var s' :| s' in scans[..n - 1] && CoveredBy(q, s');
          assert s' in scans[..n];
        } else {
          assert s in scans[..n];
        }
      }
    }
  }

  lemma SharedInputIsRedundant(scans: seq<string>, inputs: set<string>, n: nat, p: string)
    requires HoldInputs(scans, inputs) && 0 < n <= |scans|
    requires CoveredBy(p, scans[n - 1]) && Covered(scans[..n - 1], p)
    ensures Redundant(scans)
  {
    var s' :| s' in scans[..n - 1] && CoveredBy(p, s');
    var i :| 0 <= i < n - 1 && scans[i] == s';
    assert Less(scans[i], scans[n - 1]);
    AncestorsComparable(p, scans[n - 1], s');
  }

  /** So there are at most as many scans as distinct changed paths. */
  lemma AtMostOneScanPerInput(folder: string, stat: Stat, dirVsFiles: int, inputs: set<string>)
    requires ProperInputs(folder, inputs) && !Redundant(ScanListOf(folder, stat, dirVsFiles, inputs))
    ensures |ScanListOf(folder, stat, dirVsFiles, inputs)| <= |inputs|
  {
    var keys, scores := ScanListIsSwept(folder, stat, dirVsFiles, inputs);
    SweepShape(keys, scores, dirVsFiles, |keys|);
    var scans := ScanListOf(folder, stat, dirVsFiles, inputs);
    forall s | s in scans ensures exists p :: p in inputs && CoveredBy(p, s) {
      ScanHasInput(folder, stat, dirVsFiles, inputs, s);
    }
    var held := ScansInject(scans, inputs, |scans|);
    SubsetSize(held, inputs);
  }

  lemma SubsetSize<T>(a: set<T>, b: set<T>)
    requires a <= b
    ensures |a| <= |b|
  {
    assert b == a + (b - a);
  }

  // ---------------------------------------------------------------- thresholds

  ghost function InputsUnder(inputs: set<string>, d: string): set<string> {
    set p | p in inputs && p != d && CoveredBy(p, d)
  }

  ghost function FilesIn(inputs: set<string>, stat: Stat, d: string): set<string> {
    set f | f in inputs && stat(f).File? && Parent(f) == d
  }

  /** No excessive scans: a directory that did not change itself is scanned only if at least
      dirVsFiles changed paths lie beneath it. */
  lemma ScannedDirectoryIsBusy(folder: string, stat: Stat, dirVsFiles: int, inputs: set<string>, s: string)
    requires ProperInputs(folder, inputs)
    requires s in ScanListOf(folder, stat, dirVsFiles, inputs) && s !in inputs
    ensures |InputsUnder(inputs, s)| >= dirVsFiles
  {
    ScansQualify(folder, stat, dirVsFiles, inputs, s);
    SubsetSize(Credited(inputs, stat, s), InputsUnder(inputs, s));
  }

  /** No long file lists: once dirVsFiles changed files lie directly in one directory, that
      directory or one above it is scanned, and none of the files is listed unless the list is
      redundant anyway. */
  lemma BusyDirectoryIsScanned(folder: string, stat: Stat, dirVsFiles: int, inputs: set<string>, d: string)
    requires ProperInputs(folder, inputs) && 0 < dirVsFiles <= |FilesIn(inputs, stat, d)|
    requires !(d in inputs && stat(d).File?)
    ensures Covered(ScanListOf(folder, stat, dirVsFiles, inputs), d)
    ensures var scans := ScanListOf(folder, stat, dirVsFiles, inputs);
            d == "" || !Redundant(scans) ==> forall f :: f in FilesIn(inputs, stat, d) ==> f !in scans
  {
    BusyDirectoryQualifies(folder, stat, dirVsFiles, inputs, d);
    KeysAreRelative(folder, stat, inputs);
    CoveredIffQualified(folder, stat, dirVsFiles, inputs, d);
    assert CoveredBy(d, d);
    var keys, scores := ScanListIsSwept(folder, stat, dirVsFiles, inputs);
    WholeFolder(keys, scores, dirVsFiles);
    var scans := ScanListOf(folder, stat, dirVsFiles, inputs);
    forall f | f in FilesIn(inputs, stat, d) && f in scans ensures d != "" && Redundant(scans) {
      if d != "" {
        FileBeneathScan(scans, d, f);
      }
    }
  }

  lemma BusyDirectoryQualifies(folder: string, stat: Stat, dirVsFiles: int, inputs: set<string>, d: string)
    requires ProperInputs(folder, inputs) && 0 < dirVsFiles <= |FilesIn(inputs, stat, d)|
    requires !(d in inputs && stat(d).File?)
    ensures Qualified(inputs, stat, dirVsFiles, d)
  {
    forall f | f in FilesIn(inputs, stat, d) ensures f in Credited(inputs, stat, d) {
      DirectFilesCredited(folder, stat, inputs, d, f);
    }
    SubsetSize(FilesIn(inputs, stat, d), Credited(inputs, stat, d));
    var any :| any in FilesIn(inputs, stat, d);
    assert d in FileParents(inputs, stat);
  }

  lemma FileBeneathScan(scans: seq<string>, d: string, f: string)
    requires Covered(scans, d) && f in scans && Parent(f) == d != ""
    ensures "" in scans || Redundant(scans)
  {
    var s :| s in scans && CoveredBy(d, s);
    BeneathParent(f, d);
    if s != "" && s != d {
      BeneathTransitive(f, d, s);
    }
  }

  // ---------------------------------------------------------------- where the naive claims fail

  lemma Word(e: string)
    requires e != "" && e != "." && e != ".." && '/' !in e
    ensures CleanRelative(e)
  {
    NormalIsClean([e]);
  }

  lemma NoFilesQualify(folder: string, stat: Stat, dirVsFiles: int, inputs: set<string>)
    requires ProperInputs(folder, inputs) && forall p :: p in inputs ==> !stat(p).File?
    ensures forall k :: Qualified(inputs, stat, dirVsFiles, k) <==> k in inputs
  {
    assert FileParents(inputs, stat) == {};
    forall k | k in inputs ensures Qualified(inputs, stat, dirVsFiles, k) {
      InputQualifies(folder, stat, dirVsFiles, inputs, k);
    }
  }

  /** Whatever their names: a changed directory, something changed beneath it and a changed
      neighbour whose name continues the directory's with a low byte. */
  lemma IntruderMakesRedundant(folder: string, stat: Stat, dirVsFiles: int, inputs: set<string>, a: string,
                               c: string, b: string)
    requires ProperInputs(folder, inputs) && forall p :: p in inputs ==> !stat(p).File? && |p| >= |a|
    requires a in inputs && c in inputs && b in inputs
    requires Beneath(b, a) && HasPrefix(c, a) && |a| < |c| && c[|a|] < '/'
    ensures Redundant(ScanListOf(folder, stat, dirVsFiles, inputs))
  {
    NoFilesQualify(folder, stat, dirVsFiles, inputs);
    KeysAreRelative(folder, stat, inputs);
    RedundantIffIntruder(folder, stat, dirVsFiles, inputs);
    assert Intruder(inputs, stat, dirVsFiles, a, c, b);
  }

  /** "a-b" sorts between "a" and "a/c", so both "a" and "a/c" are scanned. */
  lemma RedundantWitness(folder: string, dirVsFiles: int)
    requires Rooted(folder)
    ensures Redundant(ScanListOf(folder, _ => Directory, dirVsFiles, {"a", "a-b", "a/c"}))
  {
    Word("a");
    Word("a-b");
    NormalIsClean(["a", "c"]);
    assert Join(["a", "c"], '/') == "a/c";
    AbsoluteFolderIsProper(folder, {"a", "a-b", "a/c"});
    assert "a" + "/" == "a/";
    IntruderMakesRedundant(folder, _ => Directory, dirVsFiles, {"a", "a-b", "a/c"}, "a", "a-b", "a/c");
  }

  /** A changed "file" with few changed paths in it, in a folder with nothing else that counts. */
  lemma FewChildrenStrand(folder: string, stat: Stat, dirVsFiles: int, inputs: set<string>, p: string)
    requires ProperInputs(folder, inputs) && p in inputs && stat(p).File? && p in FileParents(inputs, stat)
    requires Parent(p) == "" && |inputs| <= dirVsFiles && |FilesIn(inputs, stat, "")| < dirVsFiles
    ensures !Covered(ScanListOf(folder, stat, dirVsFiles, inputs), p)
  {
    KeysAreRelative(folder, stat, inputs);
    SubsetSize(Credited(inputs, stat, p), inputs);
    InputQualifies(folder, stat, dirVsFiles, inputs, p);
    CoveredIffQualified(folder, stat, dirVsFiles, inputs, p);
    assert Credited(inputs, stat, "") == FilesIn(inputs, stat, "");
    forall k | CoveredBy(p, k) ensures k == "" || k == p {
      if k != "" && k != p {
        BeneathParent(p, k);
        NothingAboveFolder(k);
      }
    }
  }

  lemma TwoNames()
    ensures CleanRelative("a") && CleanRelative("a/b") && Parent("a") == "" && Parent("a/b") == "a"
  {
    Word("a");
    NormalIsClean(["a", "b"]);
    assert Join(["a", "b"], '/') == "a/b";
    LastSepAt("a", "b");
    assert "a" + ['/'] + "b" == "a/b";
  }

  lemma StrandedWitness(folder: string, dirVsFiles: int)
    requires Rooted(folder) && dirVsFiles >= 2
    ensures !Covered(ScanListOf(folder, _ => File, dirVsFiles, {"a", "a/b"}), "a")
  {
    TwoNames();
    AbsoluteFolderIsProper(folder, {"a", "a/b"});
    var stat: Stat := _ => File;
    var inputs := {"a", "a/b"};
    assert "a/b" in inputs && stat("a/b").File? && Parent("a/b") == "a";
    assert FilesIn(inputs, stat, "") == {"a"};
    FewChildrenStrand(folder, stat, dirVsFiles, inputs, "a");
  }
}
