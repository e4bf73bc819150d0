/** The last loop of aggregateChanges: which qualifying keys end up in the scan list. */
module Sweeping {
  import opened Strings
  import opened Paths
  import opened Aggregation

  /** The keys the sweep runs over: strictly sorted paths relative to the folder. */
  ghost predicate SweepInput(keys: seq<string>, scores: map<string, int>) {
    && Elements(keys) == scores.Keys
    && StrictlySorted(keys)
    && forall k :: k in keys ==> !Rooted(k)
  }

  ghost predicate Worth(scores: map<string, int>, dirVsFiles: int, k: string) {
    k in scores && Qualifies(scores, dirVsFiles, k)
  }

  ghost function Swept(keys: seq<string>, scores: map<string, int>, dirVsFiles: int): seq<string>
    requires SweepInput(keys, scores)
  {
    SweepTo(keys, scores, dirVsFiles, |keys|).scans
  }

  lemma KeyAt(keys: seq<string>, scores: map<string, int>, k: string) returns (i: nat)
    requires SweepInput(keys, scores) && k in scores
    ensures i < |keys| && keys[i] == k
  {
    assert k in Elements(keys);
    i :| 0 <= i < |keys| && keys[i] == k;
  }

  lemma OrderOfKeys(keys: seq<string>, scores: map<string, int>, i: nat, j: nat)
    requires SweepInput(keys, scores) && i < |keys| && j < |keys| && Less(keys[i], keys[j])
    ensures i < j
  {
    if j < i {
      LessTransitive(keys[i], keys[j], keys[i]);
    }
  }

  /** Shape of the sweep's state: the scans are qualifying keys already passed, in key order,
      previous is the last of them, and done means that "" alone was appended. */
  lemma {:induction false} SweepShape(keys: seq<string>, scores: map<string, int>, dirVsFiles: int, n: nat)
    requires SweepInput(keys, scores) && n <= |keys|
    ensures var s := SweepTo(keys, scores, dirVsFiles, n);
            && (forall x :: x in s.scans ==> x in keys[..n] && Worth(scores, dirVsFiles, x))
            && StrictlySorted(s.scans)
            && s.previous == (if s.scans == [] then "" else s.scans[|s.scans| - 1])
            && (s.done ==> s.scans == [""])
            && ("" in s.scans ==> s.done)
  {
    if n > 0 {
      SweepShape(keys, scores, dirVsFiles, n - 1);
      var s := SweepTo(keys, scores, dirVsFiles, n - 1);
      var k := keys[n - 1];
      assert k in Elements(keys);
      if Appends(s, scores, dirVsFiles, k) {
        forall x | x in s.scans ensures Less(x, k) {
          var j :| 0 <= j < n - 1 && keys[..n - 1][j] == x;
          assert Less(keys[j], keys[n - 1]);
        }
        assert s.scans != [] ==> Less(s.scans[0], k);
      }
    }
  }

  /** Scans are never taken back. */
  lemma {:induction false} SweepGrows(keys: seq<string>, scores: map<string, int>, dirVsFiles: int, m: nat, n: nat)
    requires Elements(keys) == scores.Keys && m <= n <= |keys|
    ensures SweepTo(keys, scores, dirVsFiles, m).scans <= SweepTo(keys, scores, dirVsFiles, n).scans
  {
    if m < n {
      SweepGrows(keys, scores, dirVsFiles, m, n - 1);
    }
  }

  /** Every qualifying key is covered right after the sweep passed it. */
  lemma PassedIsCovered(keys: seq<string>, scores: map<string, int>, dirVsFiles: int, i: nat)
    requires SweepInput(keys, scores) && i < |keys| && Worth(scores, dirVsFiles, keys[i])
    ensures var s := SweepTo(keys, scores, dirVsFiles, i + 1);
            CoveredBy(keys[i], s.previous) && s.previous in s.scans
  {
    SweepShape(keys, scores, dirVsFiles, i);
    var s := SweepTo(keys, scores, dirVsFiles, i);
    if !s.done && Beneath(keys[i], s.previous) && s.scans == [] {
      BeneathFolder(keys[i]);
      assert false;
    }
  }

  /** Coverage: every qualifying key is scanned, lies beneath a scan, or the whole folder is
      scanned. */
  lemma WorthIsCovered(keys: seq<string>, scores: map<string, int>, dirVsFiles: int, k: string) returns (scan: string)
    requires SweepInput(keys, scores) && Worth(scores, dirVsFiles, k)
    ensures scan in Swept(keys, scores, dirVsFiles) && CoveredBy(k, scan)
  {
    var i := KeyAt(keys, scores, k);
    PassedIsCovered(keys, scores, dirVsFiles, i);
    SweepGrows(keys, scores, dirVsFiles, i + 1, |keys|);
    scan := SweepTo(keys, scores, dirVsFiles, i + 1).previous;
  }

  /** If the folder itself qualifies it is the only scan. */
  lemma WholeFolder(keys: seq<string>, scores: map<string, int>, dirVsFiles: int)
    requires SweepInput(keys, scores)
    ensures Worth(scores, dirVsFiles, "") <==> "" in Swept(keys, scores, dirVsFiles)
    ensures Worth(scores, dirVsFiles, "") ==> Swept(keys, scores, dirVsFiles) == [""]
  {
    SweepShape(keys, scores, dirVsFiles, |keys|);
    if Worth(scores, dirVsFiles, "") {
      var scan := WorthIsCovered(keys, scores, dirVsFiles, "");
      NothingAboveFolder(scan);
    }
  }

  // ---------------------------------------------------------------- redundant scans

  ghost predicate Redundant(scans: seq<string>) {
    exists x, y :: x in scans && y in scans && Beneath(y, x)
  }

  ghost predicate Topmost(scores: map<string, int>, dirVsFiles: int, a: string) {
    && Worth(scores, dirVsFiles, a)
    && forall q :: Worth(scores, dirVsFiles, q) ==> !Beneath(a, q)
  }

  /** An intruder: a qualifying path whose name continues that of a topmost qualifying directory
      with a byte below the separator, while something qualifies beneath that directory. */
  ghost predicate Intrusion(scores: map<string, int>, dirVsFiles: int, a: string, c: string, b: string) {
    && Topmost(scores, dirVsFiles, a)
    && Worth(scores, dirVsFiles, b) && Beneath(b, a)
    && Worth(scores, dirVsFiles, c) && HasPrefix(c, a) && |a| < |c| && c[|a|] < '/'
  }

  /** previous never moves backwards. */
  lemma {:induction false} PreviousGrows(keys: seq<string>, scores: map<string, int>, dirVsFiles: int, m: nat, n: nat)
    requires SweepInput(keys, scores) && m <= n <= |keys|
    ensures LessEq(SweepTo(keys, scores, dirVsFiles, m).previous, SweepTo(keys, scores, dirVsFiles, n).previous)
  {
    if m == n {
      LessEqRefl(SweepTo(keys, scores, dirVsFiles, m).previous);
    } else {
      PreviousGrows(keys, scores, dirVsFiles, m, n - 1);
      PreviousStep(keys, scores, dirVsFiles, n);
      LessEqTransitive(SweepTo(keys, scores, dirVsFiles, m).previous, SweepTo(keys, scores, dirVsFiles, n - 1).previous,
                       SweepTo(keys, scores, dirVsFiles, n).previous);
    }
  }

  lemma PreviousStep(keys: seq<string>, scores: map<string, int>, dirVsFiles: int, n: nat)
    requires SweepInput(keys, scores) && 0 < n <= |keys|
    ensures LessEq(SweepTo(keys, scores, dirVsFiles, n - 1).previous, SweepTo(keys, scores, dirVsFiles, n).previous)
  {
    SweepShape(keys, scores, dirVsFiles, n - 1);
    SweepShape(keys, scores, dirVsFiles, n);
    var s, t := SweepTo(keys, scores, dirVsFiles, n - 1), SweepTo(keys, scores, dirVsFiles, n);
    if t == s {
      LessEqRefl(s.previous);
    } else {
      assert s.scans != [] ==> Less(t.scans[|s.scans| - 1], t.scans[|s.scans|]);
    }
  }

  lemma TopmostIsScanned(keys: seq<string>, scores: map<string, int>, dirVsFiles: int, i: nat)
    requires SweepInput(keys, scores) && i < |keys|
    requires !Worth(scores, dirVsFiles, "") && Topmost(scores, dirVsFiles, keys[i])
    ensures var s := SweepTo(keys, scores, dirVsFiles, i + 1);
            s.previous == keys[i] && keys[i] in s.scans
  {
    SweepShape(keys, scores, dirVsFiles, i);
    SweepShape(keys, scores, dirVsFiles, i + 1);
    BeneathFolder(keys[i]);
    PassedIsCovered(keys, scores, dirVsFiles, i);
  }

  lemma TopmostInSwept(keys: seq<string>, scores: map<string, int>, dirVsFiles: int, i: nat)
    requires SweepInput(keys, scores) && i < |keys|
    requires !Worth(scores, dirVsFiles, "") && Topmost(scores, dirVsFiles, keys[i])
    ensures SweepTo(keys, scores, dirVsFiles, i + 1).previous == keys[i] && keys[i] in Swept(keys, scores, dirVsFiles)
  {
    TopmostIsScanned(keys, scores, dirVsFiles, i);
    SweepGrows(keys, scores, dirVsFiles, i + 1, |keys|);
  }

  lemma CoveringScan(keys: seq<string>, scores: map<string, int>, dirVsFiles: int, i: nat) returns (scan: string)
    requires SweepInput(keys, scores) && i < |keys| && Worth(scores, dirVsFiles, keys[i])
    ensures scan == SweepTo(keys, scores, dirVsFiles, i + 1).previous
    ensures CoveredBy(keys[i], scan) && scan in Swept(keys, scores, dirVsFiles)
  {
    PassedIsCovered(keys, scores, dirVsFiles, i);
    SweepGrows(keys, scores, dirVsFiles, i + 1, |keys|);
    scan := SweepTo(keys, scores, dirVsFiles, i + 1).previous;
  }

  lemma ScanBeyondIsRedundant(scans: seq<string>, a: string, b: string, scan: string)
    requires a in scans && scan in scans && Beneath(b, a) && CoveredBy(b, scan)
    requires LessEq(a, scan) && a != scan && scan != ""
    ensures Redundant(scans)
  {
    AncestorsComparable(b, a, scan);
    if Beneath(a, scan) {
      BeneathLess(a, scan);
      LessEqAntisymmetric(a, scan);
    }
    assert Beneath(scan, a);
  }

  lemma LocateIntrusion(keys: seq<string>, scores: map<string, int>, dirVsFiles: int, a: string, c: string, b: string)
    returns (i: nat, j: nat, k: nat)
    requires SweepInput(keys, scores) && Intrusion(scores, dirVsFiles, a, c, b)
    ensures i < j < k < |keys| && keys[i] == a && keys[j] == c && keys[k] == b && !Beneath(c, a) && a != c
  {
    i := KeyAt(keys, scores, a);
    j := KeyAt(keys, scores, c);
    k := KeyAt(keys, scores, b);
    LowByteIntrudes(a, c, b);
    OrderOfKeys(keys, scores, i, j);
    OrderOfKeys(keys, scores, j, k);
  }

  /** An intruder moves previous off the directory, for good. */
  lemma PreviousMovesOn(keys: seq<string>, scores: map<string, int>, dirVsFiles: int, i: nat, j: nat, k: nat)
    requires SweepInput(keys, scores) && i < j < k < |keys|
    requires SweepTo(keys, scores, dirVsFiles, i + 1).previous == keys[i] != ""
    requires Worth(scores, dirVsFiles, keys[j]) && !Beneath(keys[j], keys[i]) && keys[j] != keys[i]
    ensures LessEq(keys[i], SweepTo(keys, scores, dirVsFiles, k + 1).previous)
    ensures SweepTo(keys, scores, dirVsFiles, k + 1).previous != keys[i]
  {
    PassedIsCovered(keys, scores, dirVsFiles, j);
    var atC := SweepTo(keys, scores, dirVsFiles, j + 1).previous;
    var atB := SweepTo(keys, scores, dirVsFiles, k + 1).previous;
    PreviousGrows(keys, scores, dirVsFiles, i + 1, j + 1);
    PreviousGrows(keys, scores, dirVsFiles, j + 1, k + 1);
    LessEqTransitive(keys[i], atC, atB);
    if atB == keys[i] {
      LessEqAntisymmetric(keys[i], atC);
    }
  }

  /** An intruder resets previous, so something beneath the directory is scanned again. */
  lemma IntrusionIsRedundant(keys: seq<string>, scores: map<string, int>, dirVsFiles: int, a: string,
                             c: string, b: string)
    requires SweepInput(keys, scores) && !Worth(scores, dirVsFiles, "")
    requires Intrusion(scores, dirVsFiles, a, c, b)
    ensures Redundant(Swept(keys, scores, dirVsFiles))
  {
    var i, j, k := LocateIntrusion(keys, scores, dirVsFiles, a, c, b);
    TopmostInSwept(keys, scores, dirVsFiles, i);
    PreviousMovesOn(keys, scores, dirVsFiles, i, j, k);
    var atB := CoveringScan(keys, scores, dirVsFiles, k);
    ScanBeyondIsRedundant(Swept(keys, scores, dirVsFiles), a, b, atB);
  }

  /** Above every qualifying path there is a topmost one. */
  lemma {:induction false} TopmostAbove(scores: map<string, int>, dirVsFiles: int, x: string) returns (a: string)
    requires Worth(scores, dirVsFiles, x)
    ensures Topmost(scores, dirVsFiles, a) && (a == x || Beneath(x, a))
    decreases |x|
  {
    if Topmost(scores, dirVsFiles, x) {
      a := x;
    } else {
      var q :| Worth(scores, dirVsFiles, q) && Beneath(x, q);
      BeneathLess(x, q);
      a := TopmostAbove(scores, dirVsFiles, q);
      if a != q {
        BeneathTransitive(x, q, a);
      }
    }
  }

  /** While everything that qualifies lies beneath the last scan, previous does not move; so once
      it moved there was a qualifying key that does not lie beneath it. */
  lemma {:induction false} PreviousMoved(keys: seq<string>, scores: map<string, int>, dirVsFiles: int, i: nat, n: nat)
    returns (j: nat)
    requires SweepInput(keys, scores) && i < n <= |keys|
    requires var a := SweepTo(keys, scores, dirVsFiles, i + 1).previous;
             SweepTo(keys, scores, dirVsFiles, n).previous != a
    ensures i < j < n && Worth(scores, dirVsFiles, keys[j])
    ensures !Beneath(keys[j], SweepTo(keys, scores, dirVsFiles, i + 1).previous)
  {
    var a := SweepTo(keys, scores, dirVsFiles, i + 1).previous;
    if SweepTo(keys, scores, dirVsFiles, n - 1).previous == a {
      j := n - 1;
      assert keys[j] in Elements(keys);
    } else {
      j := PreviousMoved(keys, scores, dirVsFiles, i, n - 1);
    }
  }

  /** A scan was not covered by what previous was when the sweep reached it. */
  lemma {:induction false} ScannedAt(keys: seq<string>, scores: map<string, int>, dirVsFiles: int, n: nat, y: string)
    returns (k: nat)
    requires SweepInput(keys, scores) && n <= |keys| && y in SweepTo(keys, scores, dirVsFiles, n).scans
    ensures k < n && keys[k] == y && Appends(SweepTo(keys, scores, dirVsFiles, k), scores, dirVsFiles, y)
  {
    if y in SweepTo(keys, scores, dirVsFiles, n - 1).scans {
      k := ScannedAt(keys, scores, dirVsFiles, n - 1, y);
    } else {
      k := n - 1;
    }
  }

  lemma RedundancyHasIntruder(keys: seq<string>, scores: map<string, int>, dirVsFiles: int)
    returns (a: string, c: string, b: string)
    requires SweepInput(keys, scores) && !Worth(scores, dirVsFiles, "")
    requires Redundant(Swept(keys, scores, dirVsFiles))
    ensures Intrusion(scores, dirVsFiles, a, c, b)
  {
    var x, y :| x in Swept(keys, scores, dirVsFiles) && y in Swept(keys, scores, dirVsFiles) && Beneath(y, x);
    SweepShape(keys, scores, dirVsFiles, |keys|);
    a := TopmostAbove(scores, dirVsFiles, x);
    b := y;
    if a != x {
      BeneathTransitive(y, x, a);
    }
    BeneathLess(y, a);
    var i := KeyAt(keys, scores, a);
    var k := ScannedAt(keys, scores, dirVsFiles, |keys|, y);
    OrderOfKeys(keys, scores, i, k);
    TopmostIsScanned(keys, scores, dirVsFiles, i);
    var j := PreviousMoved(keys, scores, dirVsFiles, i, k);
    c := keys[j];
    IntruderHasLowByte(a, c, y);
  }

  /** Exactly when the scan list names both a directory and something beneath it. */
  lemma RedundantIffIntrusion(keys: seq<string>, scores: map<string, int>, dirVsFiles: int)
    requires SweepInput(keys, scores)
    ensures Redundant(Swept(keys, scores, dirVsFiles)) <==>
            !Worth(scores, dirVsFiles, "") && exists a, c, b :: Intrusion(scores, dirVsFiles, a, c, b)
  {
    WholeFolder(keys, scores, dirVsFiles);
    if Worth(scores, dirVsFiles, "") {
      BeneathFolder("");
    } else {
      if Redundant(Swept(keys, scores, dirVsFiles)) {
        var a, c, b := RedundancyHasIntruder(keys, scores, dirVsFiles);
      }
      if a, c, b :| Intrusion(scores, dirVsFiles, a, c, b) {
        IntrusionIsRedundant(keys, scores, dirVsFiles, a, c, b);
      }
    }
  }
}
