/** The key under which AddDir stores the node of a listed directory: its full name less the name of
    the directory above and one byte more. */
module ChildNames {
  import opened Strings
  import opened Paths
  import opened Watchpoints
  import opened TriePaths
  import opened Traversal
  import opened TreeNames
  import opened Dispatching

  /** filepath.Join of a directory and a name listed there. */
  function FullName(dir: string, base: string): string {
    Clean(dir + "/" + base)
  }

  function ChildKey(dir: string, base: string): string
    requires |dir| + 1 <= |FullName(dir, base)|
  {
    FullName(dir, base)[|dir| + 1..]
  }

  predicate Listed(base: string) {
    base != "" && base != "." && base != ".." && '/' !in base
  }

  lemma FullNameInRoot(base: string)
    requires Listed(base)
    ensures FullName("/", base) == "/" + base
  {
    var s := "/" + "/" + base;
    SplitPiece(base, '/');
    SplitAppend("", '/', base);
    SplitAppend("", '/', "/" + base);
    assert "/" + base == "" + ['/'] + base && s == "" + ['/'] + ("/" + base);
    SquashSkipsEmpty(true, ["", base]);
    SquashSkipsEmpty(true, [base]);
    SquashFixed(true, [base]);
    assert [""] + ["", base] == Split(s, '/') && [""] + [base] == ["", base];
    assert Join([base], '/') == base;
  }

  lemma FullNameBelow(es: seq<string>, base: string)
    requires es != [] && Normal(true, es) && Listed(base)
    ensures FullName("/" + Join(es, '/'), base) == "/" + Join(es, '/') + "/" + base
  {
    var all := es + [base];
    var s := "/" + Join(es, '/') + "/" + base;
    JoinAppend(es, base, '/');
    RootedIsClean(all);
    assert s == "/" + Join(all, '/');
  }

  lemma RootedIsClean(es: seq<string>)
    requires es != [] && Normal(true, es)
    ensures Clean("/" + Join(es, '/')) == "/" + Join(es, '/')
  {
    SplitJoin(es, '/');
    SplitAppend("", '/', Join(es, '/'));
    assert "/" + Join(es, '/') == "" + ['/'] + Join(es, '/');
    SquashSkipsEmpty(true, es);
    SquashFixed(true, es);
  }

  lemma RootedElements(dir: string) returns (es: seq<string>)
    requires Clean(dir) == dir && Rooted(dir)
    ensures Normal(true, es) && dir == "/" + Join(es, '/') && (es == [] <==> dir == "/")
  {
    es := Squash(true, Split(dir, '/'));
    SplitFree(dir, '/');
    SquashNormal(true, Split(dir, '/'));
    if es != [] {
      JoinHead(es);
    }
  }

  /** The key is the name of the directory in every directory but "/". There the byte cut off is the
      first of the name itself, and the key is not what Get and WalkPath look up. */
  lemma KeyIsNameIff(dir: string, base: string)
    requires Clean(dir) == dir && Rooted(dir) && Listed(base)
    ensures |dir| + 1 <= |FullName(dir, base)|
    ensures ChildKey(dir, base) == base <==> dir != "/"
    ensures dir == "/" ==> ChildKey(dir, base) == base[1..]
  {
    var es := RootedElements(dir);
    if es == [] {
      FullNameInRoot(base);
    } else {
      FullNameBelow(es, base);
    }
  }

  // ---------------------------------------------------------------- below "/"

  /** The node of "/". The nodes of all other names lie beside it, not below. */
  const SLASH := Kid(Root, "")

  lemma NamesLieBeside(name: string)
    requires AbsoluteName(name) && name != "/"
    ensures !Below(SLASH, DirPath(name)) && !Below(DirPath(name), SLASH)
  {
    var bases := Split(name[1..], '/');
    assert bases[0] != "";
    ExtendIsBelow(Kid(Root, bases[0]), bases[1..]);
    Beside(Kid(Root, bases[0]), DirPath(name));
  }

  lemma Beside(a: Path, p: Path)
    requires a.Kid? && a.dad == Root && a != SLASH && Below(a, p)
    ensures !Below(SLASH, p) && !Below(p, SLASH)
  {
    assert Depth(a) == 1 && Depth(SLASH) == 1;
    assert !Below(SLASH, Root) && !Below(a, Root);
    assert !Below(a, SLASH) && !Below(SLASH, a);
    if Below(SLASH, p) {
      LineOfAncestors(SLASH, a, p);
    }
    if Below(p, SLASH) {
      BelowTransitive(a, p, SLASH);
    }
  }

  /** So no name leads to a node that AddDir stored below "/", under whatever key. */
  lemma NoNameLeadsBelow(name: string, q: Path)
    requires AbsoluteName(name) && Above(SLASH, q)
    ensures DirPath(name) != q
  {
    if name != "/" {
      NamesLieBeside(name);
    } else {
      SlashIsDirPath();
    }
  }

  lemma SlashIsDirPath()
    ensures DirPath("/") == SLASH == DirPath("")
  {
    SplitPiece("", '/');
    assert "/"[1..] == "";
    assert Extend(Root, [""]) == SLASH;
  }

  predicate InRoot(dir: string) {
    dir == "" || dir == "/"
  }

  /** A user of "/" receives the events directly in "/" and no others, recursive or not. */
  lemma SlashHearsOnlyItsOwn(nodes: map<Path, Watchpoint>, dir: string, base: string, e: Event, u: Chan)
    requires (dir == "" || AbsoluteName(dir)) && SLASH in nodes && u in Users(nodes[SLASH])
    ensures Receives(nodes, DirPath(dir), base, e, SLASH, u) <==> InRoot(dir) && e <= nodes[SLASH][u]
  {
    SlashIsDirPath();
    if !InRoot(dir) {
      NamesLieBeside(dir);
      NotAboveItself(DirPath(dir), base);
      if SLASH == Kid(DirPath(dir), base) {
        BelowIsDeeper(DirPath(dir), SLASH);
      }
    }
  }

  /** And a node below "/" receives those of the entry of "/" that is named like the key of the node. */
  lemma BelowSlashHearsItsKey(nodes: map<Path, Watchpoint>, dir: string, base: string, e: Event, q: Path, u: Chan)
    requires (dir == "" || AbsoluteName(dir)) && SLASH in nodes && q in nodes && u in Users(nodes[q]) && Above(SLASH, q)
    ensures Receives(nodes, DirPath(dir), base, e, q, u) <==> InRoot(dir) && q == Kid(SLASH, base) && e <= nodes[q][u]
  {
    SlashIsDirPath();
    if InRoot(dir) {
      NotBoth(SLASH, q);
    } else {
      NamesLieBeside(dir);
      if Below(q, DirPath(dir)) {
        BelowTransitive(SLASH, q, DirPath(dir));
      }
    }
  }

  lemma NotBoth(p: Path, q: Path)
    requires Above(p, q)
    ensures !Below(q, p)
  {
    if Below(q, p) {
      BelowIsDeeper(p, q);
      BelowIsDeeper(q, p);
      assert Below(p, q.dad);
      BelowIsDeeper(p, q.dad);
    }
  }

  /** Hence the node of a directory d listed in "/", stored under d less its first byte, hears nothing of
      that directory: neither what happens in it nor what happens to it. */
  lemma StoredInSlashIsDeaf(nodes: map<Path, Watchpoint>, d: string, base: string, e: Event, u: Chan)
    requires Listed(d)
    ensures var q := Kid(SLASH, d[1..]);
            SLASH in nodes && q in nodes && u in Users(nodes[q]) ==>
              && !Receives(nodes, DirPath("/" + d), base, e, q, u)
              && !Receives(nodes, DirPath("/"), d, e, q, u)
  {
    var q := Kid(SLASH, d[1..]);
    SplitPiece(d, '/');
    assert ("/" + d)[1..] == d;
    assert AbsoluteName("/" + d) && AbsoluteName("/");
    assert Above(SLASH, q);
    if SLASH in nodes && q in nodes && u in Users(nodes[q]) {
      BelowSlashHearsItsKey(nodes, "/" + d, base, e, q, u);
      BelowSlashHearsItsKey(nodes, "/", d, e, q, u);
    }
  }
}
