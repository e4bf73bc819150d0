/** Recursive watches reach all the way down: what the tree's own channel asks for on a directory it
    asks for on every directory below that is not ignored. */
module Coverage {
  import opened Watchpoints
  import opened TriePaths
  import opened Traversal
  import opened Walking
  import opened Stopping

  /** What the tree's own channel asks for on a node. */
  function Asked(nodes: map<Path, Watchpoint>, q: Path): Event {
    Get(Before(nodes, q), Rec) - INTERNAL
  }

  /** x is one of the directories listed in q, and not an ignored one. */
  ghost predicate WatchedIn(w: World, q: Path, x: Path) {
    x in Subdirs(w.listing, q) && !w.doNotWatch(NameOf(x))
  }

  /** What the tree's own channel asks for on a node it asks for on every directory listed there. */
  ghost predicate Deep(w: World, nodes: map<Path, Watchpoint>) {
    forall q, x {:trigger WatchedIn(w, q, x)} :: q in nodes && WatchedIn(w, q, x) ==> Asked(nodes, q) <= Asked(nodes, x)
  }

  /** A node that lists something is a directory, and so is listed by its parent, unless that is the
      root of the tree. A symbolic link to a directory is not listed: no node may stand for one. */
  ghost predicate RealNode(listing: Listing, q: Path) {
    q.Kid? ==>
      && (forall b :: b in listing(NameOf(q)) ==> Base(b))
      && (listing(NameOf(q)) != [] && q.dad.Kid? ==> q in Subdirs(listing, q.dad))
  }

  ghost predicate RealDirectories(listing: Listing, ps: set<Path>) {
    forall q {:trigger RealNode(listing, q)} :: q in ps ==> RealNode(listing, q)
  }

  /** The same of p and everything above it: its name leads through no symbolic link. */
  ghost predicate RealName(listing: Listing, p: Path) {
    RealNode(listing, p) && (p.Kid? ==> RealName(listing, p.dad))
  }

  lemma {:induction false} AboveIsReal(listing: Listing, q: Path, p: Path)
    requires RealName(listing, p) && Below(q, p)
    ensures RealNode(listing, q)
  {
    if q != p {
      AboveIsReal(listing, q, p.dad);
    }
  }

  /** Watching a real name adds no symbolic links. */
  lemma StillReal(listing: Listing, was: set<Path>, grown: set<Path>, now: set<Path>, p: Path, dirs: set<Path>)
    requires forall q :: q in grown ==> q in was || Below(q, p)
    requires now == grown || (Directories(listing, dirs) && Discovered(listing, dirs, grown, now))
    ensures RealDirectories(listing, was) && RealName(listing, p) ==> RealDirectories(listing, now)
  {
    if RealDirectories(listing, was) && RealName(listing, p) {
      forall q | q in now ensures RealNode(listing, q) {
        if q in was {
        } else if q in grown {
          AboveIsReal(listing, q, p);
        } else {
          assert ListedDir(listing, dirs, q);
        }
      }
    }
  }

  /** The listing is that of a directory tree ps with proper names. */
  ghost predicate Shows(listing: Listing, ps: set<Path>) {
    && Trie(ps) && Kid(Root, "") !in ps && (forall p :: p in ps ==> Proper(p))
    && forall p {:trigger NameOf(p)} :: p in ps ==> ListsChildren(listing(NameOf(p)), ps, p)
  }

  ghost predicate ListsChildren(names: seq<string>, ps: set<Path>, p: Path) {
    && (forall i, j :: 0 <= i < j < |names| ==> names[i] != names[j])
    && forall b :: b in names <==> Kid(p, b) in ps
  }

  /** All of this holds of every directory tree. */
  lemma TreesAreReal(listing: Listing, ps: set<Path>)
    requires Shows(listing, ps)
    ensures Directories(listing, ps) && RealDirectories(listing, ps)
  {
    forall p, b | p in ps && b in listing(NameOf(p)) ensures Base(b) && Kid(p, b) in ps {
      assert ListsChildren(listing(NameOf(p)), ps, p);
      assert Proper(Kid(p, b));
    }
    forall p, i, j | p in ps && 0 <= i < j < |listing(NameOf(p))|
      ensures listing(NameOf(p))[i] != listing(NameOf(p))[j]
    {
      assert ListsChildren(listing(NameOf(p)), ps, p);
    }
    forall q | q in ps ensures RealNode(listing, q) {
      if q.Kid? {
        assert HasDad(ps, q);
        assert ListsChildren(listing(NameOf(q.dad)), ps, q.dad);
      }
    }
  }

  /** "/a/b/c/d", one directory in the other. */
  function Nested(name: string): seq<string> {
    match name
    case "" => ["a"]
    case "/a" => ["b"]
    case "/a/b" => ["c"]
    case "/a/b/c" => ["d"]
    case _ => []
  }

  lemma NestedIsReal()
    ensures var c := Kid(Kid(Kid(Root, "a"), "b"), "c");
            var ps := {Root, Kid(Root, "a"), c.dad, c, Kid(c, "d")};
            Directories(Nested, ps) && RealDirectories(Nested, ps) && RealName(Nested, Kid(c, "d"))
  {
    var a := Kid(Root, "a");
    var b := Kid(a, "b");
    var c := Kid(b, "c");
    var d := Kid(c, "d");
    var ps := {Root, a, b, c, d};
    assert NameOf(Root) == "" && NameOf(a) == "/a" && NameOf(b) == "/a/b" && NameOf(c) == "/a/b/c"
      && NameOf(d) == "/a/b/c/d";
    forall p | p in ps ensures HasDad(ps, p) && Proper(p) && ListsChildren(Nested(NameOf(p)), ps, p) {
    }
    TreesAreReal(Nested, ps);
  }

  lemma DeepGrown(w: World, was: map<Path, Watchpoint>, now: map<Path, Watchpoint>)
    requires Deep(w, was) && Grown(was, now)
    ensures Deep(w, now)
  {
    forall q, x | q in now && WatchedIn(w, q, x) ensures Asked(now, q) <= Asked(now, x) {
      assert Asked(now, q) == Asked(was, q) && Asked(now, x) == Asked(was, x);
    }
  }

  /** Nothing changes for the tree's own channel. */
  lemma DeepSame(w: World, was: map<Path, Watchpoint>, now: map<Path, Watchpoint>)
    requires Deep(w, was) && was.Keys == now.Keys && forall q :: q in now ==> Asked(now, q) == Asked(was, q)
    ensures Deep(w, now)
  {
    forall q, x | q in now && WatchedIn(w, q, x) ensures Asked(now, q) <= Asked(now, x) {
      assert Asked(now, q) == Asked(was, q) && Asked(now, x) == Asked(was, x);
    }
  }

  lemma AskedAfter(was: map<Path, Watchpoint>, now: map<Path, Watchpoint>, touched: set<Path>, want: Event, q: Path)
    requires Walked(was, now, touched, want)
    ensures Asked(now, q) == Asked(was, q) + if q in touched then want - INTERNAL else {}
  {
  }

  /** A walk that touches with every directory those below it keeps the tree deep. */
  lemma DeepWalk(w: World, was: map<Path, Watchpoint>, now: map<Path, Watchpoint>, touched: set<Path>, want: Event)
    requires Deep(w, was) && Walked(was, now, touched, want)
    requires forall q, x {:trigger WatchedIn(w, q, x)} :: q in touched && WatchedIn(w, q, x) ==> x in touched
    ensures Deep(w, now)
  {
    forall q, x | q in now && WatchedIn(w, q, x) ensures Asked(now, q) <= Asked(now, x) {
      AskedAfter(was, now, touched, want, q);
      AskedAfter(was, now, touched, want, x);
    }
  }

  /** AddDir touches everything below. */
  lemma ListedWalk(w: World, r: Path, touched: set<Path>)
    requires forall q :: q in touched <==> Reaches(DirKids(w.listing), Ignored(w.doNotWatch), r, q)
    ensures forall q, x {:trigger WatchedIn(w, q, x)} :: q in touched && WatchedIn(w, q, x) ==> x in touched
  {
    forall q, x | q in touched && WatchedIn(w, q, x) ensures x in touched {
      assert x.Kid? && x.dad == q;
    }
  }

  /** Where the tree's own channel asks for something on r, it does so on every node Walk reaches from
      there that lists anything. */
  lemma {:induction false} AskedBelow(w: World, nodes: map<Path, Watchpoint>, r: Path, q: Path)
    requires Deep(w, nodes) && RealDirectories(w.listing, nodes.Keys) && r.Kid? && r in nodes
    requires Reaches(WalkKids(nodes.Keys), Ignored(w.doNotWatch), r, q) && w.listing(NameOf(q)) != []
    ensures Asked(nodes, r) <= Asked(nodes, q)
  {
    if q != r {
      ReachedIsBelow(WalkKids(nodes.Keys), Ignored(w.doNotWatch), r, q.dad);
      assert q.dad.Kid?;
      assert q in NamedChildren(nodes.Keys, q.dad) && RealNode(w.listing, q);
      AskedBelow(w, nodes, r, q.dad);
      assert WatchedIn(w, q.dad, q);
      ReachedExists(w, nodes, r, q.dad);
    }
  }

  lemma {:induction false} ReachedIsBelow(kids: Path -> set<Path>, ignored: Path -> bool, r: Path, q: Path)
    requires Reaches(kids, ignored, r, q) && r.Kid?
    ensures q.Kid?
  {
    if q != r {
      ReachedIsBelow(kids, ignored, r, q.dad);
    }
  }

  lemma ReachedExists(w: World, nodes: map<Path, Watchpoint>, r: Path, q: Path)
    requires Reaches(WalkKids(nodes.Keys), Ignored(w.doNotWatch), r, q) && Asked(nodes, r) <= Asked(nodes, q)
    ensures q in nodes || Asked(nodes, r) == {}
  {
  }

  /** So Walk, too, touches everything below. */
  lemma NodesWalk(w: World, nodes: map<Path, Watchpoint>, r: Path, touched: set<Path>)
    requires Deep(w, nodes) && RealDirectories(w.listing, nodes.Keys) && r.Kid? && r in nodes && Asked(nodes, r) != {}
    requires forall q :: q in touched <==> Reaches(WalkKids(nodes.Keys), Ignored(w.doNotWatch), r, q)
    ensures forall q, x {:trigger WatchedIn(w, q, x)} :: q in touched && WatchedIn(w, q, x) ==> x in touched
  {
    forall q, x | q in touched && WatchedIn(w, q, x) ensures x in touched {
      assert x.Kid? && x.dad == q && x.tip in w.listing(NameOf(q));
      AskedBelow(w, nodes, r, q);
      assert q in nodes;
      assert Asked(nodes, q) <= Asked(nodes, x);
      assert x in nodes;
      assert RealNode(w.listing, q) && Base(x.tip);
      assert x in NamedChildren(nodes.Keys, q) && WalkKids(nodes.Keys)(q) == NamedChildren(nodes.Keys, q);
      assert Reaches(WalkKids(nodes.Keys), Ignored(w.doNotWatch), r, x);
    }
  }

  /** A recursive watch of a root that is not ignored keeps the tree deep. */
  lemma RecursiveKeepsDeep(w: World, start: map<Path, Watchpoint>, was: map<Path, Watchpoint>,
                           walked: map<Path, Watchpoint>, now: map<Path, Watchpoint>, p: Path, c: Chan, e: Event,
                           touched: set<Path>)
    requires Deep(w, start) && RealDirectories(w.listing, start.Keys)
    requires Grown(start, was) && (p in start ==> start == was) && p in was && p.Kid?
    requires !w.doNotWatch(NameOf(p)) && c.User?
    requires Walked(was, walked, touched, e + OMIT + CREATE)
    requires now == walked[p := AddTo(AddTo(walked[p], Rec, e + CREATE + OMIT), c, e)]
    requires forall q :: q in touched <==> Visits(w, was, p, e + OMIT + CREATE, q)
    ensures Deep(w, now) && (e + CREATE) - INTERNAL <= Asked(now, p)
  {
    var want := e + OMIT + CREATE;
    DeepGrown(w, start, was);
    VisitedIsClosed(w, was, p, want, touched);
    DeepWalk(w, was, walked, touched, want);
    AskedAfter(was, walked, touched, want, p);
    assert want - INTERNAL <= Asked(walked, p) by {
      assert !(want - INTERNAL <= Get(was[p], Rec)) ==> Visits(w, was, p, want, p);
    }
    assert Asked(now, p) == Asked(walked, p);
    assert now.Keys == walked.Keys;
    DeepSame(w, walked, now);
  }

  lemma VisitedIsClosed(w: World, was: map<Path, Watchpoint>, p: Path, want: Event, touched: set<Path>)
    requires Deep(w, was) && p.Kid? && p in was && (Asked(was, p) != {} ==> RealDirectories(w.listing, was.Keys))
    requires forall q :: q in touched <==> Visits(w, was, p, want, q)
    ensures forall q, x {:trigger WatchedIn(w, q, x)} :: q in touched && WatchedIn(w, q, x) ==> x in touched
  {
    var asked := Get(was[p], Rec);
    if want - INTERNAL <= asked {
    } else if asked <= INTERNAL {
      ListedWalk(w, p, touched);
    } else {
      NodesWalk(w, was, p, touched);
    }
  }

  /** A plain watch does not concern the tree's own channel. */
  lemma PlainKeepsDeep(w: World, was: map<Path, Watchpoint>, grown: map<Path, Watchpoint>, now: map<Path, Watchpoint>,
                       p: Path, c: Chan)
    requires Deep(w, was) && Grown(was, grown) && grown.Keys == now.Keys && p in now && c.User?
    requires forall q :: q in now && q != p ==> now[q] == grown[q]
    requires Get(now[p], Rec) == Get(grown[p], Rec)
    ensures Deep(w, now)
  {
    DeepGrown(w, was, grown);
    DeepSame(w, grown, now);
  }

  // ---------------------------------------------------------------- Stop

  /** Stopping a channel at every node keeps the tree deep. */
  lemma DeepStop(w: World, was: map<Path, Watchpoint>, now: map<Path, Watchpoint>, done: set<Path>, c: Chan)
    requires Deep(w, was) && Heeded(was, now, done, c) && now.Keys <= done
    requires forall q :: q in was ==> NodeInv(was[q])
    ensures Deep(w, now)
  {
    forall q, x | q in now && WatchedIn(w, q, x) ensures Asked(now, q) <= Asked(now, x) {
      assert HeedsDad(was, now, q, c);
      assert Asked(was, q) <= Asked(was, x);
      if x in now {
        assert HeedsDad(was, now, x, c);
        assert x.Kid? && x.dad == q;
      }
      if Rec in was[q] {
        CreationsAsked(was[q]);
      }
    }
  }

  lemma CreationsAsked(wp: Watchpoint)
    requires NodeInv(wp) && Rec in wp
    ensures wp[Rec] - INTERNAL != {}
  {
    var bit: Bit := 20;
    assert bit in CREATE && bit in wp[Rec] - INTERNAL;
  }

  // ---------------------------------------------------------------- what it is good for

  lemma {:induction false} DeepReaches(w: World, nodes: map<Path, Watchpoint>, r: Path, x: Path)
    requires Deep(w, nodes) && Reaches(DirKids(w.listing), Ignored(w.doNotWatch), r, x)
    ensures Asked(nodes, r) <= Asked(nodes, x)
  {
    if x != r {
      DeepReaches(w, nodes, r, x.dad);
      assert WatchedIn(w, x.dad, x);
    }
  }

  /** No recursive watch goes deaf: in a deep tree in step with the OS, what the tree's own channel
      asks for on a directory is watched on every directory reached below it. */
  lemma DeepIsWatched(w: World, os: Masks, nodes: map<Path, Watchpoint>, r: Path, x: Path)
    requires Deep(w, nodes) && OsMatches(os, nodes) && Asked(nodes, r) != {}
    requires Reaches(DirKids(w.listing), Ignored(w.doNotWatch), r, x)
    ensures x in nodes && Asked(nodes, r) <= MaskOf(os, NameOf(x))
  {
    DeepReaches(w, nodes, r, x);
    assert x in nodes && Rec in nodes[x];
    NodeInStep(os, nodes, x);
    RecWithinTotal(nodes[x]);
  }
}
