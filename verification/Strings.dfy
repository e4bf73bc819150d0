module Options {
  datatype Option<+T> = None | Some(value: T)
}

/** Byte strings as Go orders, sorts, splits and joins them. A character stands for one byte. */
module Strings {

  /** The order of sort.Strings: byte by byte, a proper prefix first. */
  predicate LessEq(a: string, b: string) {
    a == [] || (b != [] && (a[0] < b[0] || (a[0] == b[0] && LessEq(a[1..], b[1..]))))
  }

  predicate Less(a: string, b: string) {
    a != b && LessEq(a, b)
  }

  lemma LessEqRefl(a: string)
    ensures LessEq(a, a)
  {
  }

  lemma {:induction false} LessEqTotal(a: string, b: string)
    ensures LessEq(a, b) || LessEq(b, a)
  {
    if a != [] && b != [] {
      LessEqTotal(a[1..], b[1..]);
    }
  }

  lemma {:induction false} LessEqAntisymmetric(a: string, b: string)
    requires LessEq(a, b) && LessEq(b, a)
    ensures a == b
  {
    if a != [] && b != [] {
      LessEqAntisymmetric(a[1..], b[1..]);
      assert a == [a[0]] + a[1..] && b == [b[0]] + b[1..];
    }
  }

  lemma {:induction false} LessEqTransitive(a: string, b: string, c: string)
    requires LessEq(a, b) && LessEq(b, c)
    ensures LessEq(a, c)
  {
    if a != [] && b != [] && c != [] && a[0] == b[0] == c[0] {
      LessEqTransitive(a[1..], b[1..], c[1..]);
    }
  }

  lemma LessTransitive(a: string, b: string, c: string)
    requires Less(a, b) && Less(b, c)
    ensures Less(a, c)
  {
    LessEqTransitive(a, b, c);
    if a == c {
      LessEqAntisymmetric(a, b);
    }
  }

  /** A string sorts before each of its proper extensions. */
  lemma {:induction false} PrefixSortsFirst(a: string, z: string)
    requires z != []
    ensures Less(a, a + z)
  {
    if a != [] {
      PrefixSortsFirst(a[1..], z);
      assert (a + z)[1..] == a[1..] + z;
    }
    assert |a + z| > |a|;
  }

  /** Whatever sorts between a string and one of its extensions extends it too. */
  lemma {:induction false} BetweenExtends(a: string, c: string, y: string) returns (z: string)
    requires LessEq(a, c) && LessEq(c, a + y)
    ensures c == a + z && LessEq(z, y)
  {
    if a == [] {
      z := c;
      assert a + y == y;
    } else {
      assert (a + y)[1..] == a[1..] + y;
      assert (a + y)[0] == a[0];
      z := BetweenExtends(a[1..], c[1..], y);
      assert c == [c[0]] + c[1..];
      assert c == a + z;
    }
  }

  predicate Sorted(s: seq<string>) {
    forall i, j :: 0 <= i < j < |s| ==> LessEq(s[i], s[j])
  }

  predicate StrictlySorted(s: seq<string>) {
    forall i, j :: 0 <= i < j < |s| ==> Less(s[i], s[j])
  }

  function Insert(x: string, s: seq<string>): seq<string> {
    if s == [] || LessEq(x, s[0]) then [x] + s
    else [s[0]] + Insert(x, s[1..])
  }

  lemma {:induction false} InsertSorted(x: string, s: seq<string>)
    requires Sorted(s)
    ensures Sorted(Insert(x, s)) && multiset(Insert(x, s)) == multiset(s) + multiset{x}
  {
    if s == [] {
    } else if LessEq(x, s[0]) {
      forall j | 0 <= j < |s| ensures LessEq(x, s[j]) {
        LessEqRefl(s[0]);
        LessEqTransitive(x, s[0], s[j]);
      }
    } else {
      InsertSorted(x, s[1..]);
      assert s == [s[0]] + s[1..];
      LessEqTotal(x, s[0]);
      var r := Insert(x, s[1..]);
      forall j | 0 <= j < |r| ensures LessEq(s[0], r[j]) {
        assert r[j] in multiset(r);
        assert r[j] == x || r[j] in s[1..];
      }
    }
  }

  /** What sort.Strings leaves in the slice. */
  function Sort(s: seq<string>): seq<string> {
    if s == [] then [] else Insert(s[0], Sort(s[1..]))
  }

  lemma {:induction false} SortSorts(s: seq<string>)
    ensures Sorted(Sort(s)) && multiset(Sort(s)) == multiset(s) && |Sort(s)| == |s|
  {
    if s != [] {
      SortSorts(s[1..]);
      InsertSorted(s[0], Sort(s[1..]));
      assert s == [s[0]] + s[1..];
      assert |multiset(Sort(s))| == |multiset(s)|;
    }
  }

  /** Two sorted arrangements of the same elements are equal, so the result of a sort does not
      depend on the algorithm, nor on the order of its input. */
  lemma {:induction false} SortedUnique(a: seq<string>, b: seq<string>)
    requires Sorted(a) && Sorted(b) && multiset(a) == multiset(b)
    ensures a == b
  {
    if a == [] || b == [] {
      assert |multiset(a)| == |a| && |multiset(b)| == |b|;
    } else {
      FirstIsLeast(a, b);
      FirstIsLeast(b, a);
      LessEqAntisymmetric(a[0], b[0]);
      TailElements(a);
      TailElements(b);
      SortedUnique(a[1..], b[1..]);
      SameHeadAndTail(a, b);
    }
  }

  lemma SameHeadAndTail(a: seq<string>, b: seq<string>)
    requires a != [] && b != [] && a[0] == b[0] && a[1..] == b[1..]
    ensures a == b
  {
    assert a == [a[0]] + a[1..] && b == [b[0]] + b[1..];
  }

  lemma TailElements(a: seq<string>)
    requires a != [] && Sorted(a)
    ensures Sorted(a[1..])
    ensures multiset(a[1..]) == multiset(a) - multiset{a[0]}
  {
    assert a == [a[0]] + a[1..];
  }

  lemma FirstIsLeast(a: seq<string>, b: seq<string>)
    requires Sorted(a) && a != [] && b != [] && multiset(a) == multiset(b)
    ensures LessEq(a[0], b[0])
  {
    assert b[0] in multiset(b);
    assert b[0] in a;
    LessEqRefl(a[0]);
  }

  lemma SortPermutation(a: seq<string>, b: seq<string>)
    requires multiset(a) == multiset(b)
    ensures Sort(a) == Sort(b)
  {
    SortSorts(a);
    SortSorts(b);
    SortedUnique(Sort(a), Sort(b));
  }

  /** The elements of a sequence. */
  function Elements<T>(s: seq<T>): set<T> {
    set x | x in s
  }

  lemma {:induction false} StrictlySortedUnique(a: seq<string>, b: seq<string>)
    requires StrictlySorted(a) && StrictlySorted(b) && Elements(a) == Elements(b)
    ensures a == b
  {
    assert a != [] ==> a[0] in Elements(a);
    assert b != [] ==> b[0] in Elements(b);
    if a != [] {
      StrictFirstIsLeast(a, b);
      StrictFirstIsLeast(b, a);
      LessEqAntisymmetric(a[0], b[0]);
      StrictTail(a);
      StrictTail(b);
      StrictlySortedUnique(a[1..], b[1..]);
      assert a == [a[0]] + a[1..] && b == [b[0]] + b[1..];
    }
  }

  lemma StrictFirstIsLeast(a: seq<string>, b: seq<string>)
    requires StrictlySorted(a) && a != [] && b != [] && Elements(a) == Elements(b)
    ensures LessEq(a[0], b[0])
  {
    assert b[0] in Elements(b);
    assert b[0] in a;
    LessEqRefl(a[0]);
  }

  lemma StrictTail(a: seq<string>)
    requires StrictlySorted(a) && a != []
    ensures Elements(a[1..]) == Elements(a) - {a[0]}
  {
    assert a == [a[0]] + a[1..];
    assert forall j :: 1 <= j < |a| ==> Less(a[0], a[j]);
  }

  /** The elements of a set in some order. */
  ghost function Listing(s: set<string>): seq<string> {
    if s == {} then [] else var x :| x in s; [x] + Listing(s - {x})
  }

  lemma {:induction false} ListingFacts(s: set<string>)
    ensures Elements(Listing(s)) == s && |Listing(s)| == |s|
  {
    if s != {} {
      var r := Listing(s);
      ListingFacts(s - {r[0]});
      assert r == [r[0]] + Listing(s - {r[0]});
      assert Elements(r) == {r[0]} + Elements(r[1..]);
    }
  }

  /** The elements of a set in sorted order. */
  ghost function SortedSet(s: set<string>): seq<string> {
    Sort(Listing(s))
  }

  lemma SameElements(a: seq<string>, b: seq<string>)
    requires multiset(a) == multiset(b)
    ensures Elements(a) == Elements(b)
  {
    forall x ensures x in a <==> x in b {
      assert x in a <==> x in multiset(a);
    }
  }

  /** A sorted list without repetition: as many entries as distinct elements. */
  lemma {:induction false} SortedDistinctIsStrict(s: seq<string>)
    requires Sorted(s) && |Elements(s)| == |s|
    ensures StrictlySorted(s)
  {
    if s != [] {
      var t := s[1..];
      assert Elements(s) == {s[0]} + Elements(t);
      ElementsBound(t);
      SortedDistinctIsStrict(t);
      assert s[0] !in Elements(t);
      forall j | 1 <= j < |s| ensures Less(s[0], s[j]) {
        assert s[j] == t[j - 1];
      }
    }
  }

  lemma {:induction false} ElementsBound<T>(s: seq<T>)
    ensures |Elements(s)| <= |s|
  {
    if s != [] {
      ElementsBound(s[1..]);
      assert Elements(s) == {s[0]} + Elements(s[1..]);
    }
  }

  lemma SortedSetFacts(s: set<string>)
    ensures StrictlySorted(SortedSet(s)) && Elements(SortedSet(s)) == s
  {
    ListingFacts(s);
    SortSorts(Listing(s));
    SameElements(Listing(s), SortedSet(s));
    SortedDistinctIsStrict(SortedSet(s));
  }

  /** sort.Strings: sorts the caller's slice in place. */
  method SortStrings(a: array<string>)
    modifies a
    ensures a[..] == Sort(old(a[..]))
    ensures Sorted(a[..]) && multiset(a[..]) == multiset(old(a[..]))
  {
    var sorted := Sort(a[..]);
    SortSorts(a[..]);
    forall i | 0 <= i < a.Length {
      a[i] := sorted[i];
    }
    assert a[..] == sorted;
  }

  predicate HasPrefix(s: string, prefix: string) {
    prefix <= s
  }

  /** strings.TrimPrefix */
  function TrimPrefix(s: string, prefix: string): string {
    if HasPrefix(s, prefix) then s[|prefix|..] else s
  }

  /** strings.Join with a one-byte separator. */
  function Join(es: seq<string>, sep: char): string {
    if es == [] then ""
    else if |es| == 1 then es[0]
    else es[0] + [sep] + Join(es[1..], sep)
  }

  /** strings.Split with a one-byte separator. */
  function Split(s: string, sep: char): (es: seq<string>)
    ensures es != []
  {
    if s == "" then [""]
    else
      var rest := Split(s[1..], sep);
      if s[0] == sep then [""] + rest else [[s[0]] + rest[0]] + rest[1..]
  }

  predicate Free(es: seq<string>, sep: char) {
    forall i :: 0 <= i < |es| ==> sep !in es[i]
  }

  lemma {:induction false} SplitFree(s: string, sep: char)
    ensures Free(Split(s, sep), sep)
  {
    if s != "" {
      SplitFree(s[1..], sep);
    }
  }

  lemma {:induction false} SplitPiece(e: string, sep: char)
    requires sep !in e
    ensures Split(e, sep) == [e]
  {
    if e != "" {
      SplitPiece(e[1..], sep);
      assert e == [e[0]] + e[1..];
    }
  }

  lemma {:induction false} SplitAppend(e: string, sep: char, t: string)
    requires sep !in e
    ensures Split(e + [sep] + t, sep) == [e] + Split(t, sep)
  {
    var s := e + [sep] + t;
    if e == "" {
      assert s[1..] == t;
    } else {
      assert s[1..] == e[1..] + [sep] + t;
      SplitAppend(e[1..], sep, t);
      assert e == [e[0]] + e[1..];
      var rest := Split(s[1..], sep);
      assert rest[0] == e[1..] && rest[1..] == Split(t, sep);
    }
  }

  /** Splitting undoes joining when no piece holds the separator. */
  lemma {:induction false} SplitJoin(es: seq<string>, sep: char)
    requires es != [] && Free(es, sep)
    ensures Split(Join(es, sep), sep) == es
  {
    if |es| == 1 {
      SplitPiece(es[0], sep);
      assert es == [es[0]];
    } else {
      SplitJoin(es[1..], sep);
      SplitAppend(es[0], sep, Join(es[1..], sep));
      assert es == [es[0]] + es[1..];
    }
  }

  /** Joining undoes splitting. */
  lemma {:induction false} JoinSplit(s: string, sep: char)
    ensures Join(Split(s, sep), sep) == s
  {
    if s != "" {
      JoinSplit(s[1..], sep);
      var rest := Split(s[1..], sep);
      if s[0] == sep {
        JoinAfterEmpty(rest, sep);
      } else {
        JoinLonger(rest, s[0], sep);
      }
      assert s == [s[0]] + s[1..];
    }
  }

  lemma JoinAfterEmpty(es: seq<string>, sep: char)
    requires es != []
    ensures Join([""] + es, sep) == [sep] + Join(es, sep)
  {
    assert ([""] + es)[1..] == es;
    assert "" + [sep] + Join(es, sep) == [sep] + Join(es, sep);
  }

  lemma JoinLonger(es: seq<string>, c: char, sep: char)
    requires es != []
    ensures Join([[c] + es[0]] + es[1..], sep) == [c] + Join(es, sep)
  {
    var longer := [[c] + es[0]] + es[1..];
    assert longer[1..] == es[1..];
    if |es| > 1 {
      assert ([c] + es[0]) + [sep] + Join(es[1..], sep) == [c] + (es[0] + [sep] + Join(es[1..], sep));
    }
  }

  lemma {:induction false} JoinAppend(es: seq<string>, e: string, sep: char)
    requires es != []
    ensures Join(es + [e], sep) == Join(es, sep) + [sep] + e
  {
    if |es| == 1 {
      assert (es + [e])[1..] == [e];
    } else {
      JoinAppend(es[1..], e, sep);
      assert (es + [e])[1..] == es[1..] + [e];
    }
  }
}
