/** Slash-separated paths: filepath.Clean, filepath.Dir and the ancestor relation. */
module Paths {
  import opened Strings

  /** One step of filepath.Clean: drops "" and ".", lets ".." cancel the element before it. */
  function Push(rooted: bool, st: seq<string>, e: string): seq<string> {
    if e == "" || e == "." then st
    else if e == ".." && st != [] && st[|st| - 1] != ".." then st[..|st| - 1]
    else if e == ".." && rooted then st
    else st + [e]
  }

  function Squash(rooted: bool, es: seq<string>): seq<string> {
    if es == [] then []
    else Push(rooted, Squash(rooted, es[..|es| - 1]), es[|es| - 1])
  }

  predicate Rooted(path: string) {
    path != "" && path[0] == '/'
  }

  function Clean(path: string): string {
    var body := Join(Squash(Rooted(path), Split(path, '/')), '/');
    if Rooted(path) then "/" + body else if body == "" then "." else body
  }

  /** A clean path below the watched folder: what a file system event carries. */
  predicate CleanRelative(path: string) {
    Clean(path) == path && !Rooted(path) && path != "."
  }

  /** The elements a cleaned path is made of. */
  predicate Normal(rooted: bool, es: seq<string>) {
    && Free(es, '/')
    && (forall i :: 0 <= i < |es| ==> es[i] != "" && es[i] != ".")
    && (forall i :: 0 <= i < |es| && es[i] == ".." ==> !rooted && forall j :: 0 <= j < i ==> es[j] == "..")
  }

  lemma {:induction false} SquashNormal(rooted: bool, es: seq<string>)
    requires Free(es, '/')
    ensures Normal(rooted, Squash(rooted, es))
    ensures |Squash(rooted, es)| <= |es|
  {
    if es != [] {
      SquashNormal(rooted, es[..|es| - 1]);
      var st := Squash(rooted, es[..|es| - 1]);
      var e := es[|es| - 1];
      if e == ".." && (st == [] || st[|st| - 1] == "..") && !rooted {
        forall j | 0 <= j < |st| ensures st[j] == ".." {
          assert st[|st| - 1] == "..";
        }
      }
    }
  }

  lemma {:induction false} SquashFixed(rooted: bool, es: seq<string>)
    requires Normal(rooted, es)
    ensures Squash(rooted, es) == es
  {
    if es != [] {
      var st := es[..|es| - 1];
      SquashFixed(rooted, st);
      assert es == st + [es[|es| - 1]];
      if es[|es| - 1] == ".." && st != [] {
        assert es[|st| - 1] == "..";
      }
    }
  }

  /** A fixed point of Squash is one at every prefix, since each element must have been pushed. */
  lemma SquashInit(rooted: bool, es: seq<string>)
    requires es != [] && Free(es, '/') && Squash(rooted, es) == es
    ensures Squash(rooted, es[..|es| - 1]) == es[..|es| - 1]
  {
    var init := es[..|es| - 1];
    SquashNormal(rooted, init);
    assert |Squash(rooted, init)| <= |init|;
    assert Squash(rooted, es) == Squash(rooted, init) + [es[|es| - 1]];
  }

  lemma {:induction false} JoinHead(es: seq<string>)
    requires es != [] && Free(es, '/') && es[0] != ""
    ensures Join(es, '/') != "" && Join(es, '/')[0] == es[0][0] != '/'
  {
    assert es[0][0] in es[0];
  }

  lemma CleanIdempotent(path: string)
    ensures Clean(Clean(path)) == Clean(path)
    ensures Rooted(Clean(path)) == Rooted(path) && Clean(path) != ""
  {
    var rooted := Rooted(path);
    SplitFree(path, '/');
    var es := Squash(rooted, Split(path, '/'));
    SquashNormal(rooted, Split(path, '/'));
    SquashFixed(rooted, es);
    var body := Join(es, '/');
    if es == [] {
      assert Clean("/") == "/" by {
        assert Split("/", '/') == ["", ""];
        assert Squash(true, ["", ""][..1]) == [];
      }
      assert Clean(".") == "." by {
        SplitPiece(".", '/');
        assert Split(".", '/') == ["."];
      }
    } else {
      JoinHead(es);
      SplitJoin(es, '/');
      if rooted {
        SplitAppend("", '/', body);
        assert "/" + body == "" + ['/'] + body;
        var all := [""] + es;
        SquashSkipsEmpty(rooted, es);
        assert Split("/" + body, '/') == all;
      }
    }
  }

  lemma {:induction false} SquashSkipsEmpty(rooted: bool, es: seq<string>)
    ensures Squash(rooted, [""] + es) == Squash(rooted, es)
  {
    if es == [] {
      assert ([""] + es)[..0] == [];
    } else {
      SquashSkipsEmpty(rooted, es[..|es| - 1]);
      assert ([""] + es)[..|es|] == [""] + es[..|es| - 1];
    }
  }

  /** The index of the last separator, or -1. */
  function LastSep(path: string): (i: int)
    ensures -1 <= i < |path|
    ensures i >= 0 ==> path[i] == '/'
    ensures forall j :: i < j < |path| ==> path[j] != '/'
  {
    if path == "" then -1
    else if path[|path| - 1] == '/' then |path| - 1
    else LastSep(path[..|path| - 1])
  }

  /** filepath.Dir */
  function Dir(path: string): string {
    Clean(path[..LastSep(path) + 1])
  }

  /** The directory a relative path lies in, "" for the watched folder itself. */
  function Parent(path: string): string {
    var i := LastSep(path);
    if i < 0 then "" else path[..i]
  }

  /** The elements of a clean relative path are what Clean made of it. */
  lemma CleanElements(path: string) returns (es: seq<string>)
    requires CleanRelative(path)
    ensures es != [] && path == Join(es, '/') && Normal(false, es)
    ensures Squash(false, es[..|es| - 1]) == es[..|es| - 1]
  {
    es := Split(path, '/');
    SplitFree(path, '/');
    JoinSplit(path, '/');
    var st := Squash(false, es);
    SquashNormal(false, es);
    assert st != [];
    SplitJoin(st, '/');
    assert st == es;
    SquashInit(false, es);
  }

  /** Conversely, joining normal elements gives a clean relative path. */
  lemma NormalIsClean(es: seq<string>)
    requires es != [] && Normal(false, es)
    ensures CleanRelative(Join(es, '/'))
  {
    SplitJoin(es, '/');
    SquashFixed(false, es);
    JoinHead(es);
    SplitPiece(".", '/');
    assert Join(es, '/') == "." ==> es == ["."];
  }

  lemma SplitBeforeSlash(es: seq<string>)
    requires es != [] && Free(es, '/')
    ensures Split(Join(es, '/') + "/", '/') == es + [""]
  {
    JoinAppend(es, "", '/');
    SplitJoin(es + [""], '/');
    assert Join(es, '/') + ['/'] + "" == Join(es, '/') + "/";
  }

  lemma ParentIsPrefix(path: string)
    ensures HasPrefix(path, Parent(path))
  {
  }

  /** A trailing slash does not survive cleaning. */
  lemma SlashCleaned(es: seq<string>)
    requires es != [] && Normal(false, es) && Squash(false, es) == es
    ensures Clean(Join(es, '/') + "/") == Join(es, '/')
  {
    JoinHead(es);
    SplitBeforeSlash(es);
    assert (es + [""])[..|es|] == es;
  }

  lemma DirOfElement(leaf: string)
    requires '/' !in leaf
    ensures Dir(leaf) == "." && Parent(leaf) == ""
  {
    assert leaf[..LastSep(leaf) + 1] == "";
    assert Squash(false, [""][..0]) == [];
  }

  lemma DirOfJoined(parent: string, leaf: string)
    requires Clean(parent + "/") == parent && '/' !in leaf
    ensures Dir(parent + ['/'] + leaf) == parent == Parent(parent + ['/'] + leaf)
  {
    LastSepAt(parent, leaf);
    assert (parent + ['/'] + leaf)[..|parent| + 1] == parent + "/";
  }

  /** On clean paths filepath.Dir cuts the last element off; "." stands for the watched folder. */
  lemma DirIsParent(path: string)
    requires CleanRelative(path)
    ensures Dir(path) == if Parent(path) == "" then "." else Parent(path)
    ensures !Rooted(Parent(path)) && Parent(path) != "."
  {
    var es := CleanElements(path);
    var init, leaf := es[..|es| - 1], es[|es| - 1];
    if init == [] {
      DirOfElement(path);
    } else {
      assert es == init + [leaf];
      JoinAppend(init, leaf, '/');
      SlashCleaned(init);
      DirOfJoined(Join(init, '/'), leaf);
      NormalIsClean(init);
      JoinHead(init);
    }
  }

  lemma LastSepAt(parent: string, leaf: string)
    requires '/' !in leaf
    ensures LastSep(parent + ['/'] + leaf) == |parent|
    ensures Parent(parent + ['/'] + leaf) == parent
  {
    var path := parent + ['/'] + leaf;
    var i := LastSep(path);
    assert path[|parent|] == '/';
    assert forall j :: |parent| < j < |path| ==> path[j] in leaf;
    assert i == |parent|;
    assert path[..i] == parent;
  }

  /** p lies strictly beneath directory d, by the prefix test of aggregateChanges. */
  predicate Beneath(p: string, d: string) {
    HasPrefix(p, d + "/")
  }

  /** A scan of s covers p; scanning "" covers the whole folder. */
  predicate CoveredBy(p: string, s: string) {
    s == "" || p == s || Beneath(p, s)
  }

  lemma BeneathFolder(p: string)
    ensures Beneath(p, "") <==> Rooted(p)
  {
    assert "" + "/" == "/";
  }

  lemma NothingAboveFolder(d: string)
    ensures !Beneath("", d)
  {
    assert |d + "/"| > 0;
  }

  lemma BeneathTransitive(a: string, b: string, c: string)
    requires Beneath(a, b) && Beneath(b, c)
    ensures Beneath(a, c)
  {
    assert (c + "/") <= b <= a;
  }

  lemma BeneathLess(p: string, d: string)
    requires Beneath(p, d)
    ensures Less(d, p) && |d| < |p|
  {
    assert p == d + p[|d|..];
    PrefixSortsFirst(d, p[|d|..]);
  }

  /** Two directories above one path are comparable. */
  lemma AncestorsComparable(p: string, a: string, b: string)
    requires p == a || Beneath(p, a)
    requires p == b || Beneath(p, b)
    ensures a == b || Beneath(a, b) || Beneath(b, a)
  {
    if |a| == |b| {
      assert a == p[..|a|] && b == p[..|b|];
    } else if |a| < |b| {
      assert a + "/" == p[..|a| + 1] == b[..|a| + 1];
    } else {
      assert b + "/" == p[..|b| + 1] == a[..|b| + 1];
    }
  }

  /** Every directory above a path is its parent or lies above its parent, never both. */
  lemma BeneathParent(p: string, d: string)
    requires d != ""
    ensures Beneath(p, d) <==> d == Parent(p) || Beneath(Parent(p), d)
    ensures d == Parent(p) ==> !Beneath(Parent(p), d)
  {
    var i := LastSep(p);
    assert i >= 0 && d == Parent(p) ==> p[..i + 1] == d + "/";
    if Beneath(p, d) {
      assert p[|d|] == (d + "/")[|d|] == '/';
      assert |d| <= i;
      assert p[..|d|] == (d + "/")[..|d|] == d;
      if |d| < i {
        assert d + "/" == p[..|d| + 1] == Parent(p)[..|d| + 1];
      }
    }
  }

  /** A path that sorts between a directory and something beneath it, without being beneath it,
      continues the directory's name with a byte below the separator. */
  lemma IntruderHasLowByte(a: string, c: string, b: string)
    requires Less(a, c) && Less(c, b) && Beneath(b, a) && !Beneath(c, a)
    ensures HasPrefix(c, a) && |a| < |c| && c[|a|] < '/'
  {
    var y := b[|a|..];
    assert b == a + y;
    assert y[0] == (a + "/")[|a|] == '/';
    var z := BetweenExtends(a, c, y);
    assert z == "" ==> c == a;
    assert c[|a|] == z[0] <= '/';
    assert c[..|a| + 1] == a + [z[0]];
  }

  lemma LowByteIntrudes(a: string, c: string, b: string)
    requires Beneath(b, a) && HasPrefix(c, a) && |a| < |c| && c[|a|] < '/'
    ensures Less(a, c) && Less(c, b) && !Beneath(c, a)
  {
    assert c == a + c[|a|..];
    PrefixSortsFirst(a, c[|a|..]);
    assert b[|a|] == (a + "/")[|a|] == '/';
    assert b == a + b[|a|..];
    SharedPrefix(a, c[|a|..], b[|a|..]);
    assert c[|a|] != (a + "/")[|a|];
  }

  lemma {:induction false} SharedPrefix(a: string, x: string, y: string)
    requires LessEq(x, y)
    ensures LessEq(a + x, a + y)
  {
    if a == "" {
      assert a + x == x && a + y == y;
    } else {
      SharedPrefix(a[1..], x, y);
      assert (a + x)[1..] == a[1..] + x && (a + y)[1..] == a[1..] + y;
    }
  }
}
