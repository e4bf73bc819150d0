/** What a recursive walk does to the watchpoints of the tree. */
module Walking {
  import opened Watchpoints
  import opened TriePaths
  import opened Traversal

  /** The places of a trie: with every node its parent. */
  ghost predicate Trie(ps: set<Path>) {
    Root in ps && forall p {:trigger HasDad(ps, p)} :: p in ps ==> HasDad(ps, p)
  }

  ghost predicate HasDad(ps: set<Path>, p: Path) {
    p.Kid? ==> p.dad in ps
  }

  lemma TrieGrows(ps: set<Path>, q: Path)
    requires Trie(ps) && HasDad(ps, q)
    ensures Trie(ps + {q})
  {
    forall p | p in ps + {q} ensures HasDad(ps + {q}, p) {
      assert HasDad(ps, p);
    }
  }

  function ChildrenIn(ps: set<Path>, p: Path): set<Path> {
    set q | q in ps && q.Kid? && q.dad == p
  }

  ghost function TreeKids(ps: set<Path>): Path -> set<Path> {
    p => ChildrenIn(ps, p)
  }

  /** Walk passes over children with an empty base name. */
  function NamedChildren(ps: set<Path>, p: Path): set<Path> {
    set q | q in ps && q.Kid? && q.dad == p && q.tip != ""
  }

  ghost function WalkKids(ps: set<Path>): Path -> set<Path> {
    p => NamedChildren(ps, p)
  }

  /** The directories that ReadDir lists under the name of a node. */
  type Listing = string -> seq<string>

  function Subdirs(listing: Listing, p: Path): set<Path> {
    set b | b in listing(NameOf(p)) :: Kid(p, b)
  }

  ghost function DirKids(listing: Listing): Path -> set<Path> {
    p => Subdirs(listing, p)
  }

  /** A finite tree of directories: every listing is of proper names, each once. */
  ghost predicate Directories(listing: Listing, dirs: set<Path>) {
    && (forall p, b :: p in dirs && b in listing(NameOf(p)) ==> Base(b) && Kid(p, b) in dirs)
    && (forall p, i, j :: p in dirs && 0 <= i < j < |listing(NameOf(p))| ==>
         listing(NameOf(p))[i] != listing(NameOf(p))[j])
  }

  /** The nodes a walk has added are directories listed by their parents. */
  ghost predicate Discovered(listing: Listing, dirs: set<Path>, was: set<Path>, now: set<Path>) {
    was <= now && forall q {:trigger ListedDir(listing, dirs, q)} :: q in now && q !in was ==>
                    ListedDir(listing, dirs, q)
  }

  ghost predicate ListedDir(listing: Listing, dirs: set<Path>, q: Path) {
    q in dirs && q.Kid? && q in Subdirs(listing, q.dad)
  }

  lemma DirectoriesFamily(listing: Listing, dirs: set<Path>)
    requires Directories(listing, dirs)
    ensures Family(DirKids(listing), dirs)
  {
  }

  lemma TreeFamily(ps: set<Path>)
    ensures Family(TreeKids(ps), ps) && Family(WalkKids(ps), ps)
  {
  }

  /** What a walk meets outside the tree: the directories listed under a name, whether the listing can
      be read, whether the OS takes a watch, and which names are not to be watched. */
  datatype World =
    World(listing: Listing, readable: string -> bool, accepts: string -> bool, doNotWatch: string -> bool)

  /** How a walk or a watch ends. */
  datatype Outcome = Done | Refused | Unreadable

  ghost function Ignored(doNotWatch: string -> bool): Path -> bool {
    p => doNotWatch(NameOf(p))
  }

  function Before(nodes: map<Path, Watchpoint>, p: Path): Watchpoint {
    if p in nodes then nodes[p] else map[]
  }

  /** Nodes may have been added, without watchpoints. */
  ghost predicate Grown(was: map<Path, Watchpoint>, now: map<Path, Watchpoint>) {
    was.Keys <= now.Keys && forall q :: q in now ==> now[q] == Before(was, q)
  }

  lemma GrownTwice(was: map<Path, Watchpoint>, mid: map<Path, Watchpoint>, now: map<Path, Watchpoint>)
    requires Grown(was, mid) && Grown(mid, now)
    ensures Grown(was, now)
  {
  }

  /** The tree's own channel asks for want on the nodes in touched; everything else is as before. */
  ghost predicate Walked(was: map<Path, Watchpoint>, now: map<Path, Watchpoint>, touched: set<Path>, want: Event) {
    && was.Keys <= now.Keys && touched <= now.Keys
    && forall q :: q in now ==> now[q] == if q in touched then AddTo(Before(was, q), Rec, want) else Before(was, q)
  }

  lemma WalkedOne(was: map<Path, Watchpoint>, now: map<Path, Watchpoint>, touched: set<Path>, want: Event, p: Path)
    requires Walked(was, now, touched, want) && p in now && p !in touched
    ensures Walked(was, now[p := AddTo(now[p], Rec, want)], touched + {p}, want)
  {
  }

  lemma WalkedGrown(was: map<Path, Watchpoint>, mid: map<Path, Watchpoint>, now: map<Path, Watchpoint>,
                    touched: set<Path>, want: Event)
    requires Walked(was, mid, touched, want) && Grown(mid, now)
    ensures Walked(was, now, touched, want)
  {
  }

  /** The OS is asked to watch more on node q, and refuses. */
  ghost predicate Refuses(w: World, was: map<Path, Watchpoint>, q: Path, want: Event) {
    !w.accepts(NameOf(q)) && !(want - INTERNAL <= Total(Before(was, q)))
  }

  /** A walk gets past node q. */
  ghost predicate Passes(w: World, was: map<Path, Watchpoint>, q: Path, want: Event, listed: bool) {
    !Refuses(w, was, q, want) && (listed ==> w.readable(NameOf(q)))
  }

  /** How a walk from r ends: it is done if and only if it gets past everything it reaches; it touches
      nothing else, and all of that if it is done. */
  ghost predicate Ends(w: World, kids: Path -> set<Path>, r: Path, was: map<Path, Watchpoint>, touched: set<Path>,
                       want: Event, listed: bool, outcome: Outcome) {
    && (outcome == Done <==> forall q :: Reaches(kids, Ignored(w.doNotWatch), r, q) ==> Passes(w, was, q, want, listed))
    && (forall q :: q in touched ==> Reaches(kids, Ignored(w.doNotWatch), r, q))
    && (outcome == Done ==> forall q :: Reaches(kids, Ignored(w.doNotWatch), r, q) ==> q in touched)
  }

  /** Invariant of the walk: it touched what it visited and did not skip, and got past that. */
  ghost predicate Progress(w: World, kids: Path -> set<Path>, r: Path, universe: set<Path>, done: set<Path>,
                           stack: seq<Path>, was: map<Path, Watchpoint>, touched: set<Path>, want: Event,
                           listed: bool) {
    && Frontier(kids, Ignored(w.doNotWatch), r, universe, done, stack)
    && (forall q :: q in touched <==> q in done && !w.doNotWatch(NameOf(q)))
    && forall q :: q in touched ==> Passes(w, was, q, want, listed)
  }

  /** One turn of the walk: the node on top of the stack is skipped, or touched and passed. */
  lemma ProgressNext(w: World, kids: Path -> set<Path>, r: Path, universe: set<Path>, done: set<Path>,
                     stack: seq<Path>, was: map<Path, Watchpoint>, touched: set<Path>, want: Event, listed: bool,
                     more: seq<Path>)
    requires Progress(w, kids, r, universe, done, stack, was, touched, want, listed) && stack != []
    requires Family(kids, universe)
    requires var p := stack[|stack| - 1];
             if w.doNotWatch(NameOf(p)) then more == []
             else Passes(w, was, p, want, listed) && NoRepeats(more) && forall x :: x in more <==> x in kids(p)
    ensures var p := stack[|stack| - 1];
            Progress(w, kids, r, universe, done + {p}, stack[..|stack| - 1] + more, was,
                     if w.doNotWatch(NameOf(p)) then touched else touched + {p}, want, listed)
  {
    FrontierNext(kids, Ignored(w.doNotWatch), r, universe, done, stack, more);
  }

  /** The node on top of the stack was not met before. */
  lemma ProgressTop(w: World, kids: Path -> set<Path>, r: Path, universe: set<Path>, done: set<Path>,
                    stack: seq<Path>, was: map<Path, Watchpoint>, touched: set<Path>, want: Event, listed: bool)
    requires Progress(w, kids, r, universe, done, stack, was, touched, want, listed) && stack != []
    ensures var p := stack[|stack| - 1]; p in stack && p in universe && p !in done && p !in touched
  {
  }

  lemma ProgressDone(w: World, kids: Path -> set<Path>, r: Path, universe: set<Path>, done: set<Path>,
                     was: map<Path, Watchpoint>, touched: set<Path>, want: Event, listed: bool)
    requires Progress(w, kids, r, universe, done, [], was, touched, want, listed)
    ensures Ends(w, kids, r, was, touched, want, listed, Done)
  {
    FrontierDone(kids, Ignored(w.doNotWatch), r, universe, done);
  }

  /** The walk breaks off at a node it does not get past. */
  lemma ProgressCut(w: World, kids: Path -> set<Path>, r: Path, universe: set<Path>, done: set<Path>,
                    stack: seq<Path>, was: map<Path, Watchpoint>, touched: set<Path>, want: Event, listed: bool,
                    outcome: Outcome)
    requires Progress(w, kids, r, universe, done, stack, was, touched, want, listed) && stack != []
    requires var p := stack[|stack| - 1]; !w.doNotWatch(NameOf(p)) && !Passes(w, was, p, want, listed)
    requires outcome != Done
    ensures Ends(w, kids, r, was, touched + {stack[|stack| - 1]}, want, listed, outcome)
  {
    var p := stack[|stack| - 1];
    assert p in stack;
    MetAreReached(kids, Ignored(w.doNotWatch), r, universe, done, stack);
  }

  /** The nodes a recursive watch of p visits: none if the tree's own channel asks for everything
      already, the listed directories if it asks for nothing on p, else the nodes that exist. */
  ghost predicate Visits(w: World, was: map<Path, Watchpoint>, p: Path, want: Event, q: Path) {
    var asked := Get(Before(was, p), Rec);
    if want - INTERNAL <= asked then false
    else if asked <= INTERNAL then Reaches(DirKids(w.listing), Ignored(w.doNotWatch), p, q)
    else Reaches(WalkKids(was.Keys), Ignored(w.doNotWatch), p, q)
  }

  /** It gets past all of them. */
  ghost predicate PassesAll(w: World, was: map<Path, Watchpoint>, p: Path, want: Event) {
    forall q :: Visits(w, was, p, want, q) ==> Passes(w, was, q, want, Get(Before(was, p), Rec) <= INTERNAL)
  }

  /** An ignored root is not visited, nor is anything below it. */
  lemma {:induction false} IgnoredRootHidesAll(kids: Path -> set<Path>, ignored: Path -> bool, r: Path, q: Path)
    requires ignored(r)
    ensures !Reaches(kids, ignored, r, q)
  {
    if q.Kid? {
      IgnoredRootHidesAll(kids, ignored, r, q.dad);
    }
  }

  /** Creating nodes without watchpoints, p perhaps among them, changes nothing of this. */
  lemma GrownVisits(w: World, was: map<Path, Watchpoint>, now: map<Path, Watchpoint>, p: Path, want: Event)
    requires Grown(was, now) && (p in was ==> was == now)
    ensures forall q :: Visits(w, now, p, want, q) <==> Visits(w, was, p, want, q)
    ensures PassesAll(w, now, p, want) <==> PassesAll(w, was, p, want)
  {
    forall q ensures Before(now, q) == Before(was, q) {
    }
    assert forall q :: Visits(w, now, p, want, q) <==> Visits(w, was, p, want, q);
    assert forall q :: Refuses(w, now, q, want) <==> Refuses(w, was, q, want);
  }

  /** Nobody's event sets shrink. */
  ghost predicate TakesNothing(was: map<Path, Watchpoint>, now: map<Path, Watchpoint>) {
    forall q, k :: k != Nil ==> Get(Before(was, q), k) <= Get(Before(now, q), k)
  }

  /** Only channel c of node p gains events among the users, and exactly these. */
  ghost predicate UsersGain(was: map<Path, Watchpoint>, now: map<Path, Watchpoint>, p: Path, c: Chan, gain: Event) {
    forall q, k: Chan :: k.User? ==>
      Get(Before(now, q), k) == Get(Before(was, q), k) + if q == p && k == c then gain else {}
  }

  /** The tree's own channel gains events on the nodes visited and on p only, and if the walk is done
      exactly these. */
  ghost predicate TreeGains(w: World, was: map<Path, Watchpoint>, now: map<Path, Watchpoint>, p: Path, want: Event,
                            outcome: Outcome) {
    forall q ::
      var gain := if Visits(w, was, p, want, q) || (outcome == Done && q == p) then want else {};
      if outcome == Done then Get(Before(now, q), Rec) == Get(Before(was, q), Rec) + gain
      else Get(Before(now, q), Rec) <= Get(Before(was, q), Rec) + gain
  }

  /** The watchpoint of a node after a recursive watch. */
  ghost predicate WatchedNode(was: Watchpoint, now: Watchpoint, atRoot: bool, touched: bool, c: Chan, e: Event) {
    var walked := if touched then AddTo(was, Rec, e + OMIT + CREATE) else was;
    now == if atRoot then AddTo(AddTo(walked, Rec, e + CREATE + OMIT), c, e) else walked
  }

  lemma NodeGains(was: Watchpoint, now: Watchpoint, atRoot: bool, touched: bool, c: Chan, e: Event)
    requires c.User? && WatchedNode(was, now, atRoot, touched, c, e)
    ensures forall k: Chan :: k.User? ==> Get(now, k) == Get(was, k) + if atRoot && k == c then e else {}
    ensures Get(now, Rec) == Get(was, Rec) + if atRoot || touched then e + OMIT + CREATE else {}
  {
    assert e + CREATE + OMIT == e + OMIT + CREATE;
  }

  lemma BecomesWatched(was: map<Path, Watchpoint>, grown: map<Path, Watchpoint>, walked: map<Path, Watchpoint>,
                       now: map<Path, Watchpoint>, p: Path, c: Chan, e: Event, touched: set<Path>, outcome: Outcome,
                       q: Path)
    requires Grown(was, grown) && p in walked && Walked(grown, walked, touched, e + OMIT + CREATE)
    requires now == if outcome != Done then walked
                    else walked[p := AddTo(AddTo(walked[p], Rec, e + CREATE + OMIT), c, e)]
    ensures WatchedNode(Before(was, q), Before(now, q), outcome == Done && q == p, q in touched, c, e)
  {
    assert Before(walked, q) == if q in touched then AddTo(Before(was, q), Rec, e + OMIT + CREATE) else Before(was, q);
  }

  lemma RecursiveGains(w: World, was: map<Path, Watchpoint>, grown: map<Path, Watchpoint>,
                       walked: map<Path, Watchpoint>, now: map<Path, Watchpoint>, p: Path, c: Chan, e: Event,
                       touched: set<Path>, outcome: Outcome)
    requires Grown(was, grown) && (p in was ==> was == grown) && p in walked && c.User?
    requires Walked(grown, walked, touched, e + OMIT + CREATE)
    requires now == if outcome != Done then walked
                    else walked[p := AddTo(AddTo(walked[p], Rec, e + CREATE + OMIT), c, e)]
    requires forall q :: q in touched ==> Visits(w, grown, p, e + OMIT + CREATE, q)
    requires outcome == Done ==> forall q :: Visits(w, grown, p, e + OMIT + CREATE, q) ==> q in touched
    ensures UsersGain(was, now, p, c, if outcome == Done then e else {})
    ensures TreeGains(w, was, now, p, e + OMIT + CREATE, outcome)
  {
    GrownVisits(w, was, grown, p, e + OMIT + CREATE);
    forall q
      ensures WatchedNode(Before(was, q), Before(now, q), outcome == Done && q == p, q in touched, c, e)
    {
      BecomesWatched(was, grown, walked, now, p, c, e, touched, outcome, q);
    }
    NodesGain(w, was, now, p, c, e, touched, outcome);
  }

  lemma NodesGain(w: World, was: map<Path, Watchpoint>, now: map<Path, Watchpoint>, p: Path, c: Chan, e: Event,
                  touched: set<Path>, outcome: Outcome)
    requires c.User?
    requires forall q :: WatchedNode(Before(was, q), Before(now, q), outcome == Done && q == p, q in touched, c, e)
    requires forall q :: q in touched ==> Visits(w, was, p, e + OMIT + CREATE, q)
    requires outcome == Done ==> forall q :: Visits(w, was, p, e + OMIT + CREATE, q) ==> q in touched
    ensures UsersGain(was, now, p, c, if outcome == Done then e else {})
    ensures TreeGains(w, was, now, p, e + OMIT + CREATE, outcome)
  {
    forall q
      ensures forall k: Chan :: k.User? ==>
                Get(Before(now, q), k) == Get(Before(was, q), k) + if outcome == Done && q == p && k == c then e else {}
      ensures Get(Before(now, q), Rec) == Get(Before(was, q), Rec)
                + if (outcome == Done && q == p) || q in touched then e + OMIT + CREATE else {}
    {
      NodeGains(Before(was, q), Before(now, q), outcome == Done && q == p, q in touched, c, e);
    }
  }

  lemma RecursiveTakesNothing(was: map<Path, Watchpoint>, grown: map<Path, Watchpoint>, walked: map<Path, Watchpoint>,
                              now: map<Path, Watchpoint>, p: Path, c: Chan, e: Event, touched: set<Path>)
    requires Grown(was, grown) && Walked(grown, walked, touched, e + OMIT + CREATE) && p in walked && c.User?
    requires now == walked || now == walked[p := AddTo(AddTo(walked[p], Rec, e + CREATE + OMIT), c, e)]
    ensures TakesNothing(was, now)
  {
    forall q, k: Chan | k != Nil ensures Get(Before(was, q), k) <= Get(Before(now, q), k) {
      assert Get(Before(was, q), k) <= Get(Before(walked, q), k);
    }
  }

  lemma PlainTakesNothing(was: map<Path, Watchpoint>, now: map<Path, Watchpoint>, p: Path, c: Chan, e: Event)
    requires was.Keys <= now.Keys && forall q :: q in now && q != p ==> now[q] == Before(was, q)
    requires p in now && (now[p] == AddTo(Before(was, p), c, e) || TakenBack(Before(was, p), now[p], c, e))
    ensures TakesNothing(was, now)
  {
    forall q, k: Chan | k != Nil ensures Get(Before(was, q), k) <= Get(Before(now, q), k) {
      if q == p && k != c {
        assert Get(now[p], k) == Get(Before(was, p), k);
      }
    }
  }

  /** After a recursive watch the OS watches every node the walk touched for at least the events
      asked for and for creations. */
  lemma TouchedAreWatched(os: Masks, was: map<Path, Watchpoint>, now: map<Path, Watchpoint>,
                          touched: set<Path>, e: Event, q: Path)
    requires OsMatches(os, now) && Walked(was, now, touched, e + OMIT + CREATE) && q in touched
    ensures (e + CREATE) - INTERNAL <= MaskOf(os, NameOf(q))
  {
    assert now[q] == AddTo(Before(was, q), Rec, e + OMIT + CREATE);
    NodeInStep(os, now, q);
    RecWithinTotal(now[q]);
  }

  /** Registering the channel after the walk, without a word to the OS: the total of the node stays
      exactly if everything asked for was in it already. On a node without watchpoints it changes. */
  lemma IgnoredRootDrifts(wp: Watchpoint, c: Chan, e: Event)
    requires NodeInv(wp) && c.User? && e !! OMIT
    ensures var wp' := AddTo(AddTo(wp, Rec, e + CREATE + OMIT), c, e);
            && NodeInv(wp') && (Total(wp') == Total(wp) <==> (e + CREATE) - INTERNAL <= Total(wp))
            && (wp == map[] ==> Total(wp') != Total(wp))
  {
    var mid := AddTo(wp, Rec, e + CREATE + OMIT);
    AddKeepsNode(wp, Rec, e + CREATE + OMIT);
    AddKeepsNode(mid, c, e);
    AddKeepsCache(wp, Rec, e + CREATE + OMIT);
    AddKeepsCache(mid, c, e);
    var bit: Bit := 20;
    assert bit in CREATE && bit in (e + CREATE) - INTERNAL;
  }

  lemma AskedWithinTotal(wp: Watchpoint, e: Event)
    requires NodeInv(wp) && (e + CREATE) - INTERNAL <= Get(wp, Rec)
    ensures (e + CREATE) - INTERNAL <= Total(wp)
  {
    var bit: Bit := 20;
    assert bit in CREATE && bit in (e + CREATE) - INTERNAL;
    RecWithinTotal(wp);
  }

  /** A finished walk touched its root, unless that is ignored: then it touched nothing at all. */
  lemma RootTouched(w: World, was: map<Path, Watchpoint>, now: map<Path, Watchpoint>, p: Path, e: Event,
                    touched: set<Path>, outcome: Outcome)
    requires Walked(was, now, touched, e + OMIT + CREATE) && p in was && NodeInv(was[p])
    requires !((e + CREATE) - INTERNAL <= Get(was[p], Rec))
    requires forall q :: q in touched ==> Visits(w, was, p, e + OMIT + CREATE, q)
    requires outcome == Done ==> forall q :: Visits(w, was, p, e + OMIT + CREATE, q) ==> q in touched
    requires outcome == Done <==> PassesAll(w, was, p, e + OMIT + CREATE)
    ensures if w.doNotWatch(NameOf(p)) then outcome == Done && now[p] == was[p]
            else outcome == Done ==> p in touched && (e + CREATE) - INTERNAL <= Total(now[p])
  {
    if w.doNotWatch(NameOf(p)) {
      forall q ensures !Visits(w, was, p, e + OMIT + CREATE, q) {
        IgnoredRootHidesAll(DirKids(w.listing), Ignored(w.doNotWatch), p, q);
        IgnoredRootHidesAll(WalkKids(was.Keys), Ignored(w.doNotWatch), p, q);
      }
    } else if outcome == Done {
      assert Visits(w, was, p, e + OMIT + CREATE, p);
      AddKeepsCache(was[p], Rec, e + OMIT + CREATE);
    }
  }

  lemma AddTwice(wp: Watchpoint, c: Chan, e: Event)
    requires c.User? && e !! OMIT
    ensures var once := AddTo(AddTo(wp, Rec, e + CREATE + OMIT), c, e);
            AddTo(once, Rec, e + OMIT + CREATE) == once
  {
    var once := AddTo(AddTo(wp, Rec, e + CREATE + OMIT), c, e);
    var again := e + OMIT + CREATE;
    assert once[Rec] + again == once[Rec];
    assert once[Nil] + again - OMIT == once[Nil];
  }

  /** Adding to a node changes its total exactly if some of the events are new to it. */
  lemma QuietAdd(wp: Watchpoint, c: Chan, e: Event)
    requires NodeInv(wp) && c.User? && e !! INTERNAL
    ensures AddDiff(wp, e) == NONE <==> e <= Total(wp)
    ensures e <= Get(AddTo(wp, c, e), c)
  {
    AddKeepsCache(wp, c, e);
  }
}
