/** The non-recursive notify tree: a trie of watchpoints kept in step with the OS layer. */
module NotifyTree {
  import opened Strings
  import opened Watchpoints
  import opened TriePaths
  import opened Traversal
  import opened TreeNames
  import opened Walking
  import opened Stopping
  import opened Coverage
  import opened Dispatching
  import opened WatchpointMaps

  class Tree {
    /** The masks the OS layer was last given. */
    var os: Masks
    /** The watchpoint of every node. */
    var nodes: map<Path, Watchpoint>

    /** The OS watches exactly what the watchpoints add up to. */
    ghost predicate Valid()
      reads this
    {
      Trie(nodes.Keys) && OsMatches(os, nodes)
    }

    constructor ()
      ensures Valid() && nodes == map[Root := map[]] && os == map[]
    {
      NothingMatchesNothing();
      nodes := map[Root := map[]];
      os := map[];
    }

    // ---------------------------------------------------------------- the OS layer

    /** ok tells whether the OS takes the watch; if not, nothing changes there. */
    method OsWatch(name: string, e: Event, ok: bool)
      requires name !in os && e != {}
      modifies this`os
      ensures os == if ok then SetMask(old(os), name, e) else old(os)
    {
      if ok {
        os := os[name := e];
      }
    }

    /** Neither of the event sets passed to Rewatch is ever zero. */
    method OsRewatch(name: string, before: Event, after: Event, ok: bool)
      requires MaskOf(os, name) == before && before != {} && after != {}
      modifies this`os
      ensures os == if ok then SetMask(old(os), name, after) else old(os)
    {
      if ok {
        os := os[name := after];
      }
    }

    method OsUnwatch(name: string, ok: bool)
      requires name in os
      modifies this`os
      ensures os == if ok then SetMask(old(os), name, {}) else old(os)
    {
      if ok {
        os := os - {name};
      }
    }

    /** The switch of watch and recFunc on a grown event set; "eset is empty" cannot happen. */
    method TellGrown(name: string, diff: Diff, ok: bool, ghost before: Event, ghost after: Event) returns (failed: bool)
      requires Tells(diff, before, after) && before <= after && MaskOf(os, name) == before
      requires name in os ==> os[name] != {}
      modifies this`os
      ensures failed <==> !ok && before != after
      ensures os == if failed then old(os) else SetMask(old(os), name, after)
    {
      failed := false;
      if diff == NONE {
      } else if diff.after == {} {
        assert false;
      } else if diff.before == {} {
        OsWatch(name, diff.after, ok);
        failed := !ok;
      } else {
        OsRewatch(name, diff.before, diff.after, ok);
        failed := !ok;
      }
    }

    /** The switch of Stop; an error of the OS is dropped. */
    method TellStopped(name: string, diff: Diff, ok: bool, ghost before: Event, ghost after: Event)
      requires Tells(diff, before, after) && MaskOf(os, name) == before
      requires name in os ==> os[name] != {}
      requires before == {} ==> diff == NONE
      modifies this`os
      ensures os == if ok then SetMask(old(os), name, after) else old(os)
    {
      if diff == NONE {
      } else if diff.after == {} {
        OsUnwatch(name, ok);
      } else {
        OsRewatch(name, diff.before, diff.after, ok);
      }
    }

    // ---------------------------------------------------------------- growing the trie

    method AddChild(p: Path, base: string) returns (q: Path)
      requires Valid() && p in nodes && Tip(p, base)
      modifies this`nodes
      ensures Valid() && q == Kid(p, base) && q in nodes
      ensures Grown(old(nodes), nodes) && (q in old(nodes) ==> nodes == old(nodes))
      ensures nodes.Keys == old(nodes).Keys + {q}
    {
      q := Kid(p, base);
      if q !in nodes {
        NodeInStep(os, nodes, p);
        NodeAppears(os, nodes, q);
        TrieGrows(nodes.Keys, q);
        assert nodes[q := map[]].Keys == nodes.Keys + {q};
        nodes := nodes[q := map[]];
      }
    }

    /** node.Add: finds or creates the node of an absolute name; new nodes have no watchpoint. */
    method Add(name: string) returns (p: Path)
      requires Valid() && AbsoluteName(name)
      modifies this`nodes
      ensures Valid() && p in nodes && p == DirPath(name) && GrownTo(old(nodes), nodes, p)
    {
      var i := IndexBase("", name);
      assert name[i..] == name[1..];
      p := Root;
      var j := IndexSep(name[i..]);
      while j != -1
        invariant 1 <= i <= |name| && -1 <= j < |name| - i
        invariant if j == -1 then '/' !in name[i..] else name[i..][j] == '/' && '/' !in name[i..][..j]
        invariant Valid() && p in nodes && GrownTo(old(nodes), nodes, DirPath(name))
        invariant RestOfName(p, name[i..]) && Extend(p, Split(name[i..], '/')) == DirPath(name)
        decreases |name| - i
      {
        var rest := name[i..];
        SplitFirst(p, rest, j);
        p := AddChildTo(p, rest[..j], Split(rest[j + 1..], '/'), DirPath(name), old(nodes));
        assert rest[j + 1..] == name[i + j + 1..];
        i := i + j + 1;
        j := IndexSep(name[i..]);
      }
      SplitLast(p, name[i..]);
      p := AddChildTo(p, name[i..], [], DirPath(name), old(nodes));
    }

    /** addchild, on the way down to target. */
    method AddChildTo(p: Path, base: string, ghost rest: seq<string>, ghost target: Path,
                      ghost was: map<Path, Watchpoint>)
      returns (q: Path)
      requires Valid() && p in nodes && Tip(p, base) && Extend(Kid(p, base), rest) == target
      requires GrownTo(was, nodes, target)
      modifies this`nodes
      ensures Valid() && q == Kid(p, base) && q in nodes && GrownTo(was, nodes, target)
    {
      ghost var mid := nodes;
      ExtendIsBelow(Kid(p, base), rest);
      q := AddChild(p, base);
      GrownToNext(was, mid, nodes, q, target);
    }

    /** node.Get: walks down the child maps; found tells whether the whole name is there. */
    method Find(name: string) returns (found: bool, p: Path)
      requires Valid() && AbsoluteName(name)
      ensures found <==> DirPath(name) in nodes
      ensures found ==> p == DirPath(name) && NameOf(p) == name
    {
      var i := IndexBase("", name);
      assert name[i..] == name[1..];
      p := Root;
      var j := IndexSep(name[i..]);
      while j != -1
        invariant 1 <= i <= |name| && -1 <= j < |name| - i && p in nodes
        invariant if j == -1 then '/' !in name[i..] else name[i..][j] == '/' && '/' !in name[i..][..j]
        invariant Extend(p, Split(name[i..], '/')) == DirPath(name)
        decreases |name| - i
      {
        var rest := name[i..];
        SplitFirst(p, rest, j);
        p := Kid(p, rest[..j]);
        if p !in nodes {
          ExtendIsBelow(p, Split(rest[j + 1..], '/'));
          MissingAncestor(nodes, p, DirPath(name));
          return false, p;
        }
        assert rest[j + 1..] == name[i + j + 1..];
        i := i + j + 1;
        j := IndexSep(name[i..]);
      }
      SplitLast(p, name[i..]);
      p := Kid(p, name[i..]);
      found := p in nodes;
      NameOfDirPath(name);
    }

    // ---------------------------------------------------------------- watching

    /** Adds events to a node and tells the OS, if its total changed. If the OS refuses, the two are
        no longer in step. */
    method Register(p: Path, c: Chan, e: Event, ok: bool) returns (failed: bool)
      requires Valid() && p in nodes && c != Nil
      requires if c == Rec then CREATE + OMIT <= e else e !! OMIT
      modifies this
      ensures nodes == old(nodes)[p := AddTo(old(nodes)[p], c, e)] && nodes.Keys == old(nodes).Keys
      ensures failed <==> !ok && !(e - INTERNAL <= Total(old(nodes)[p]))
      ensures (Valid() <==> !failed) && (failed ==> os == old(os))
    {
      ghost var wp' := AddTo(nodes[p], c, e);
      NodeInStep(os, nodes, p);
      AddKeepsNode(nodes[p], c, e);
      AddKeepsCache(nodes[p], c, e);
      NodeChanges(os, nodes, p, wp');
      var wp := new WatchpointMap(nodes[p]);
      var diff := wp.AddEvents(c, e);
      NodeInStep(os, nodes, p);
      if Total(nodes[p]) != Total(wp') {
        OutOfStep(os, nodes, p, wp');
      }
      failed := TellGrown(NameOf(p), diff, ok, Total(nodes[p]), Total(wp.events));
      nodes := nodes[p := wp.events];
    }

    /** watch: a plain watchpoint. If the OS refuses, the new events are taken back, which leaves the
        total as it was; the channel keeps those that were in the total already. */
    method WatchNode(p: Path, c: Chan, e: Event, ok: bool) returns (failed: bool)
      requires Valid() && p in nodes && c.User? && e !! INTERNAL
      modifies this
      ensures Valid() && nodes.Keys == old(nodes).Keys && forall q :: q in nodes && q != p ==> nodes[q] == old(nodes)[q]
      ensures failed <==> !ok && !(e <= Total(old(nodes)[p]))
      ensures !failed ==> nodes[p] == AddTo(old(nodes)[p], c, e) && e <= Get(nodes[p], c)
      ensures failed ==> os == old(os) && TakenBack(old(nodes)[p], nodes[p], c, e)
    {
      NodeInStep(os, nodes, p);
      QuietAdd(nodes[p], c, e);
      failed := AddDiff(nodes[p], e) != NONE && !ok;
      if failed {
        AddAndTakeBack(p, c, e);
      } else {
        var unused := Register(p, c, e, ok);
      }
    }

    /** The error branch of watch: Add, a refused OS call, Del of the new events. */
    method AddAndTakeBack(p: Path, c: Chan, e: Event)
      requires Valid() && p in nodes && c.User? && e !! INTERNAL && AddDiff(nodes[p], e) != NONE
      modifies this`nodes
      ensures Valid() && nodes.Keys == old(nodes).Keys && forall q :: q in nodes && q != p ==> nodes[q] == old(nodes)[q]
      ensures TakenBack(old(nodes)[p], nodes[p], c, e)
    {
      NodeInStep(os, nodes, p);
      var wp := new WatchpointMap(nodes[p]);
      wp.AddAndDel(c, e);
      QuietChange(os, nodes, p, wp.events);
      nodes := nodes[p := wp.events];
    }

    /** recFunc: what a recursive walk does at one node that is not ignored. */
    method WatchStep(p: Path, want: Event, w: World, ghost was: map<Path, Watchpoint>, ghost touched: set<Path>)
      returns (failed: bool)
      requires Valid() && p in nodes && CREATE + OMIT <= want
      requires Walked(was, nodes, touched, want) && p !in touched
      modifies this
      ensures nodes.Keys == old(nodes).Keys && Walked(was, nodes, touched + {p}, want)
      ensures (failed <==> Refuses(w, was, p, want)) && (Valid() <==> !failed)
    {
      WalkedOne(was, nodes, touched, want, p);
      failed := Register(p, Rec, want, w.accepts(NameOf(p)));
    }

    /** Creates the nodes of the directories listed below p and pushes them. */
    method PushSubdirs(p: Path, names: seq<string>) returns (more: seq<Path>)
      requires Valid() && p in nodes && Bases(names)
      requires forall i, j :: 0 <= i < j < |names| ==> names[i] != names[j]
      modifies this`nodes
      ensures Valid() && Grown(old(nodes), nodes)
      ensures NoRepeats(more) && (forall x :: x in more ==> x in nodes)
      ensures forall x :: x in more <==> x in set b | b in names :: Kid(p, b)
      ensures forall q :: q in nodes ==> q in old(nodes) || q in more
    {
      more := [];
      for i := 0 to |names|
        invariant Valid() && Grown(old(nodes), nodes) && |more| == i
        invariant forall k :: 0 <= k < i ==> more[k] == Kid(p, names[k]) && more[k] in nodes
        invariant forall q :: q in nodes ==> q in old(nodes) || q in more
      {
        ghost var mid := nodes;
        var q := AddChild(p, names[i]);
        GrownTwice(old(nodes), mid, nodes);
        more := more + [q];
      }
    }

    /** One turn of AddDir: watches the directory and finds its subdirectories. */
    method VisitDir(p: Path, want: Event, w: World, ghost dirs: set<Path>, ghost was: map<Path, Watchpoint>,
                    ghost touched: set<Path>)
      returns (outcome: Outcome, more: seq<Path>)
      requires Valid() && p in nodes && p in dirs && CREATE + OMIT <= want && Directories(w.listing, dirs)
      requires Walked(was, nodes, touched, want) && p !in touched
      modifies this
      ensures Discovered(w.listing, dirs, old(nodes).Keys, nodes.Keys) && Walked(was, nodes, touched + {p}, want)
      ensures (outcome == Refused <==> Refuses(w, was, p, want)) && (Valid() <==> outcome != Refused)
      ensures outcome == Done <==> Passes(w, was, p, want, true)
      ensures outcome == Done ==> NoRepeats(more) && (forall x :: x in more ==> x in nodes)
      ensures outcome == Done ==> forall x :: x in more <==> x in Subdirs(w.listing, p)
    {
      more := [];
      var failed := WatchStep(p, want, w, was, touched);
      if failed {
        return Refused, more;
      }
      if !w.readable(NameOf(p)) {
        return Unreadable, more;
      }
      ghost var mid := nodes;
      more := PushSubdirs(p, w.listing(NameOf(p)));
      WalkedGrown(was, mid, nodes, touched + {p}, want);
      outcome := Done;
    }

    /** node.AddDir with recFunc: walks the directories below r, creating their nodes; want is what
        the tree's own channel asks for. Every directory reached without passing an ignored one is
        watched, and no other node changes. The walk ends early where the OS refuses or a directory
        cannot be read. */
    method AddDir(r: Path, want: Event, w: World, ghost dirs: set<Path>)
      returns (outcome: Outcome, ghost touched: set<Path>)
      requires Valid() && r in nodes && r in dirs && CREATE + OMIT <= want && Directories(w.listing, dirs)
      modifies this
      ensures Walked(old(nodes), nodes, touched, want) && (Valid() <==> outcome != Refused)
      ensures Discovered(w.listing, dirs, old(nodes).Keys, nodes.Keys)
      ensures Ends(w, DirKids(w.listing), r, old(nodes), touched, want, true, outcome)
    {
      ghost var kids := DirKids(w.listing);
      ghost var done := {};
      var stack := [r];
      touched := {};
      DirectoriesFamily(w.listing, dirs);
      FrontierStart(kids, Ignored(w.doNotWatch), r, dirs);
      while |stack| != 0
        invariant Valid() && (forall q :: q in stack ==> q in nodes)
        invariant Progress(w, kids, r, dirs, done, stack, old(nodes), touched, want, true)
        invariant Walked(old(nodes), nodes, touched, want)
        invariant Discovered(w.listing, dirs, old(nodes).Keys, nodes.Keys)
        decreases dirs - done
      {
        var p := stack[|stack| - 1];
        ProgressTop(w, kids, r, dirs, done, stack, old(nodes), touched, want, true);
        var more := [];
        ghost var before := touched;
        if !w.doNotWatch(NameOf(p)) {
          outcome, more := VisitDir(p, want, w, dirs, old(nodes), touched);
          touched := touched + {p};
          if outcome != Done {
            ProgressCut(w, kids, r, dirs, done, stack, old(nodes), before, want, true, outcome);
            return;
          }
        }
        ProgressNext(w, kids, r, dirs, done, stack, old(nodes), before, want, true, more);
        stack := stack[..|stack| - 1] + more;
        done := done + {p};
      }
      ProgressDone(w, kids, r, dirs, done, old(nodes), touched, want, true);
      outcome := Done;
    }

    /** Pushes the children of p, in whatever order its child map is walked. */
    method PushChildren(p: Path) returns (more: seq<Path>)
      ensures NoRepeats(more) && forall x :: x in more <==> x in ChildrenIn(nodes.Keys, p)
    {
      more := [];
      var todo := ChildrenIn(nodes.Keys, p);
      while todo != {}
        invariant todo <= ChildrenIn(nodes.Keys, p)
        invariant NoRepeats(more) && forall x :: x in more <==> x in ChildrenIn(nodes.Keys, p) - todo
        decreases todo
      {
        var q :| q in todo;
        assert q !in more;
        todo := todo - {q};
        more := more + [q];
      }
    }

    /** Pushes them but for a child with an empty base name. */
    method PushNamed(p: Path) returns (more: seq<Path>)
      ensures NoRepeats(more) && forall x :: x in more <==> x in NamedChildren(nodes.Keys, p)
    {
      more := [];
      var todo := ChildrenIn(nodes.Keys, p);
      while todo != {}
        invariant todo <= ChildrenIn(nodes.Keys, p)
        invariant NoRepeats(more) && forall x :: x in more <==> x in NamedChildren(nodes.Keys, p) - todo
        decreases todo
      {
        var q :| q in todo;
        assert q !in more;
        todo := todo - {q};
        if q.tip != "" {
          more := more + [q];
        }
      }
    }

    /** One turn of Walk. */
    method VisitNode(p: Path, want: Event, w: World, ghost was: map<Path, Watchpoint>, ghost touched: set<Path>)
      returns (outcome: Outcome, more: seq<Path>)
      requires Valid() && p in nodes && CREATE + OMIT <= want
      requires Walked(was, nodes, touched, want) && p !in touched
      modifies this
      ensures nodes.Keys == old(nodes).Keys && Walked(was, nodes, touched + {p}, want)
      ensures outcome != Unreadable && (Valid() <==> outcome != Refused)
      ensures outcome == Done <==> Passes(w, was, p, want, false)
      ensures outcome == Done ==> NoRepeats(more) && forall x :: x in more <==> x in NamedChildren(old(nodes).Keys, p)
    {
      more := [];
      var failed := WatchStep(p, want, w, was, touched);
      if failed {
        return Refused, more;
      }
      more := PushNamed(p);
      outcome := Done;
    }

    /** node.Walk with recFunc: the same walk over the nodes that exist. */
    method Walk(r: Path, want: Event, w: World) returns (outcome: Outcome, ghost touched: set<Path>)
      requires Valid() && r in nodes && CREATE + OMIT <= want
      modifies this
      ensures nodes.Keys == old(nodes).Keys && Walked(old(nodes), nodes, touched, want)
      ensures outcome != Unreadable && (Valid() <==> outcome != Refused)
      ensures Ends(w, WalkKids(old(nodes).Keys), r, old(nodes), touched, want, false, outcome)
    {
      ghost var all := nodes.Keys;
      ghost var kids := WalkKids(all);
      ghost var done := {};
      var stack := [r];
      touched := {};
      TreeFamily(all);
      FrontierStart(kids, Ignored(w.doNotWatch), r, all);
      while |stack| != 0
        invariant Valid() && nodes.Keys == all
        invariant Progress(w, kids, r, all, done, stack, old(nodes), touched, want, false)
        invariant Walked(old(nodes), nodes, touched, want)
        decreases all - done
      {
        var p := stack[|stack| - 1];
        ProgressTop(w, kids, r, all, done, stack, old(nodes), touched, want, false);
        var more := [];
        ghost var before := touched;
        if !w.doNotWatch(NameOf(p)) {
          outcome, more := VisitNode(p, want, w, old(nodes), touched);
          touched := touched + {p};
          if outcome != Done {
            ProgressCut(w, kids, r, all, done, stack, old(nodes), before, want, false, outcome);
            return;
          }
        }
        ProgressNext(w, kids, r, all, done, stack, old(nodes), before, want, false, more);
        stack := stack[..|stack| - 1] + more;
        done := done + {p};
      }
      ProgressDone(w, kids, r, all, done, old(nodes), touched, want, false);
      outcome := Done;
    }

    /** watchAdd of a recursive event set. The OS is not told, so the masks stay in step exactly if the
        total of the node had all these events. */
    method WatchAdd(p: Path, c: Chan, e: Event)
      requires Valid() && p in nodes && c.User? && e !! OMIT
      modifies this`nodes
      ensures nodes == old(nodes)[p := AddTo(AddTo(old(nodes)[p], Rec, e + CREATE + OMIT), c, e)]
      ensures Valid() <==> (e + CREATE) - INTERNAL <= Total(old(nodes)[p])
    {
      NodeInStep(os, nodes, p);
      IgnoredRootDrifts(nodes[p], c, e);
      ghost var wp' := AddTo(AddTo(nodes[p], Rec, e + CREATE + OMIT), c, e);
      if Total(wp') == Total(nodes[p]) {
        QuietChange(os, nodes, p, wp');
      } else {
        OutOfStep(os, nodes, p, wp');
      }
      var wp := new WatchpointMap(nodes[p]);
      var diff := wp.AddEvents(Rec, e + CREATE + OMIT);
      diff := wp.AddEvents(c, e);
      nodes := nodes[p := wp.events];
    }

    /** The second Add of watchrec on a node that asked for the events before; it changes nothing. */
    method AddAgain(p: Path, c: Chan, e: Event, ghost wp: Watchpoint)
      requires p in nodes && c.User? && e !! OMIT && nodes[p] == AddTo(AddTo(wp, Rec, e + CREATE + OMIT), c, e)
      modifies this`nodes
      ensures nodes == old(nodes)
    {
      AddTwice(wp, c, e);
      var again := new WatchpointMap(nodes[p]);
      var diff := again.AddEvents(Rec, e + OMIT + CREATE);
      nodes := nodes[p := again.events];
    }

    /** The walk of watchrec: over the directories below p if the tree's own channel asks for nothing
        on p yet, else over the nodes below p. */
    method WalkRec(p: Path, e: Event, diff: Diff, w: World, ghost dirs: set<Path>)
      returns (outcome: Outcome, ghost touched: set<Path>)
      requires Valid() && p in nodes && p in dirs && Directories(w.listing, dirs)
      requires diff == DryAdd(nodes[p], Rec, e + CREATE) != NONE
      modifies this
      ensures Walked(old(nodes), nodes, touched, e + OMIT + CREATE) && (Valid() <==> outcome != Refused)
      ensures Discovered(w.listing, dirs, old(nodes).Keys, nodes.Keys)
      ensures outcome == Done <==> PassesAll(w, old(nodes), p, e + OMIT + CREATE)
      ensures forall q :: q in touched ==> Visits(w, old(nodes), p, e + OMIT + CREATE, q)
      ensures outcome == Done ==> forall q :: Visits(w, old(nodes), p, e + OMIT + CREATE, q) ==> q in touched
      ensures Asked(old(nodes), p) != {} ==> outcome != Unreadable && nodes.Keys == old(nodes).Keys
    {
      if diff.before == {} {
        outcome, touched := AddDir(p, e + OMIT + CREATE, w, dirs);
        assert forall q :: Visits(w, old(nodes), p, e + OMIT + CREATE, q) <==>
                             Reaches(DirKids(w.listing), Ignored(w.doNotWatch), p, q);
      } else {
        outcome, touched := Walk(p, e + OMIT + CREATE, w);
        assert forall q :: Visits(w, old(nodes), p, e + OMIT + CREATE, q) <==>
                             Reaches(WalkKids(old(nodes).Keys), Ignored(w.doNotWatch), p, q);
      }
    }

    /** watchrec: registers c for e on p and, through the tree's own channel, on everything below
        that is not ignored. On an ignored root the walk touches nothing, and registering the channel
        puts the masks out of step, unless the total of the root had all the events before. */
    method WatchRec(p: Path, c: Chan, e: Event, w: World, ghost dirs: set<Path>)
      returns (outcome: Outcome, ghost touched: set<Path>, ghost walked: map<Path, Watchpoint>)
      requires Valid() && p in nodes && p in dirs && Directories(w.listing, dirs) && c.User?
      requires e !! OMIT && RECURSIVE <= e
      modifies this
      ensures Walked(old(nodes), walked, touched, e + OMIT + CREATE) && p in walked
      ensures Discovered(w.listing, dirs, old(nodes).Keys, nodes.Keys)
      ensures nodes == if outcome != Done then walked
                       else walked[p := AddTo(AddTo(walked[p], Rec, e + CREATE + OMIT), c, e)]
      ensures outcome == Done <==> PassesAll(w, old(nodes), p, e + OMIT + CREATE)
      ensures forall q :: q in touched ==> Visits(w, old(nodes), p, e + OMIT + CREATE, q)
      ensures outcome == Done ==> forall q :: Visits(w, old(nodes), p, e + OMIT + CREATE, q) ==> q in touched
      ensures Valid() <==> (outcome != Refused &&
                           (w.doNotWatch(NameOf(p)) ==> (e + CREATE) - INTERNAL <= Total(old(nodes)[p])))
      ensures outcome == Done ==> forall q :: q in touched ==> (e + CREATE) - INTERNAL <= MaskOf(os, NameOf(q))
      ensures outcome == Done ==> e <= Get(nodes[p], c)
      ensures Asked(old(nodes), p) != {} ==> outcome != Unreadable && nodes.Keys == old(nodes).Keys
    {
      var diff := DryAdd(nodes[p], Rec, e + CREATE);
      touched := {};
      walked := nodes;
      outcome := Done;
      if diff == NONE {
        WatchAsked(p, c, e);
      } else if diff.after == {} {
        assert false;
      } else {
        outcome, touched := WalkRec(p, e, diff, w, dirs);
        walked := nodes;
        NodeInStep(old(os), old(nodes), p);
        RootTouched(w, old(nodes), walked, p, e, touched, outcome);
        if outcome == Done {
          AddWalked(p, c, e, old(nodes), touched);
        }
      }
    }

    /** The branch of watchrec on a node that is asked for the events already. */
    method WatchAsked(p: Path, c: Chan, e: Event)
      requires Valid() && p in nodes && c.User? && e !! OMIT && (e + CREATE) - INTERNAL <= Get(nodes[p], Rec)
      modifies this`nodes
      ensures Valid() && nodes == old(nodes)[p := AddTo(AddTo(old(nodes)[p], Rec, e + CREATE + OMIT), c, e)]
      ensures nodes.Keys == old(nodes).Keys && (e + CREATE) - INTERNAL <= Total(old(nodes)[p])
    {
      ghost var wp := nodes[p];
      NodeInStep(os, nodes, p);
      AskedWithinTotal(nodes[p], e);
      WatchAdd(p, c, e);
      AddAgain(p, c, e, wp);
    }

    /** The end of watchrec after a walk. */
    method AddWalked(p: Path, c: Chan, e: Event, ghost was: map<Path, Watchpoint>, ghost touched: set<Path>)
      requires Valid() && p in nodes && c.User? && e !! OMIT && Walked(was, nodes, touched, e + OMIT + CREATE)
      modifies this`nodes
      ensures nodes == old(nodes)[p := AddTo(AddTo(old(nodes)[p], Rec, e + CREATE + OMIT), c, e)]
      ensures nodes.Keys == old(nodes).Keys
      ensures Valid() <==> (e + CREATE) - INTERNAL <= Total(old(nodes)[p])
      ensures forall q :: q in touched ==> (e + CREATE) - INTERNAL <= MaskOf(os, NameOf(q))
    {
      forall q | q in touched ensures (e + CREATE) - INTERNAL <= MaskOf(os, NameOf(q)) {
        TouchedAreWatched(os, was, nodes, touched, e, q);
      }
      WatchAdd(p, c, e);
    }

    // ---------------------------------------------------------------- stopping

    /** What a walk of Stop keeps, whatever the OS says. */
    ghost predicate Stopping(was: map<Path, Watchpoint>, accepts: string -> bool)
      reads this
    {
      Trie(nodes.Keys) && OsHeard(os, was, nodes, accepts)
    }

    /** Puts a shrunk watchpoint back and tells the OS. */
    method SetNode(p: Path, wp: Watchpoint, diff: Diff, accepts: string -> bool, ghost was: map<Path, Watchpoint>)
      requires Stopping(was, accepts) && p in nodes && nodes[p] == was[p] && NodeInv(wp)
      requires Tells(diff, Total(nodes[p]), Total(wp)) && (Total(nodes[p]) == {} ==> diff == NONE)
      modifies this
      ensures Stopping(was, accepts) && nodes == old(nodes)[p := wp]
    {
      OsHeardNext(os, was, nodes, accepts, p, wp);
      assert nodes[p := wp].Keys == nodes.Keys;
      TellStopped(NameOf(p), diff, accepts(NameOf(p)), Total(nodes[p]), Total(wp));
      nodes := nodes[p := wp];
    }

    /** The callback of Stop at a node with a watchpoint. */
    method StopWatched(p: Path, min: Event, c: Chan, accepts: string -> bool, ghost was: map<Path, Watchpoint>)
      requires Stopping(was, accepts) && p in nodes && nodes[p] == was[p] && c.User? && Demand(min)
      modifies this
      ensures Stopping(was, accepts) && p in nodes && nodes == old(nodes)[p := nodes[p]]
      ensures StoppedNode(old(nodes)[p], nodes[p], c) && Heeds(old(nodes)[p], nodes[p], min, c)
      ensures min == {} && Users(old(nodes)[p]) <= {c} ==> nodes[p] == map[]
    {
      var wp, diff := DelAllFrom(nodes[p], min, c);
      SetNode(p, wp, diff, accepts, was);
    }

    /** What Stop does at one node; nodes without a watchpoint are passed over. */
    method StopNode(p: Path, min: Event, c: Chan, accepts: string -> bool, ghost was: map<Path, Watchpoint>)
      requires Stopping(was, accepts) && p in nodes && nodes[p] == was[p] && c.User? && Demand(min)
      modifies this
      ensures Stopping(was, accepts) && nodes.Keys == old(nodes).Keys
      ensures forall q :: q in nodes && q != p ==> nodes[q] == old(nodes)[q]
      ensures StoppedNode(old(nodes)[p], nodes[p], c) && Heeds(old(nodes)[p], nodes[p], min, c)
      ensures min == {} && Users(old(nodes)[p]) <= {c} ==> nodes[p] == map[]
    {
      if |nodes[p]| != 0 {
        StopWatched(p, min, c, accepts, was);
      } else {
        NothingToStop(nodes[p], min, c);
      }
    }

    /** One turn of walkWatchpoint: the children inherit what the node now demands of them. */
    method StopStep(stack: seq<Path>, mins: seq<Event>, c: Chan, accepts: string -> bool,
                    ghost was: map<Path, Watchpoint>, ghost done: set<Path>)
      returns (more: seq<Path>, more': seq<Event>)
      requires Stopping(was, accepts) && c.User? && stack != [] && StopProgress(was, nodes, done, stack, mins, c)
      modifies this
      ensures Stopping(was, accepts) && nodes.Keys == old(nodes).Keys
      ensures StopProgress(was, nodes, done + {stack[|stack| - 1]}, stack[..|stack| - 1] + more,
                           mins[..|stack| - 1] + more', c)
    {
      ghost var mid := nodes;
      TopOfStack(was, nodes, done, stack, mins, c);
      var p, min := stack[|stack| - 1], mins[|stack| - 1];
      StopNode(p, min, c, accepts, was);
      more := PushChildren(p);
      var demand := Get(nodes[p], Rec);
      more' := seq(|more|, _ => demand);
      StopProgressNext(was, mid, nodes, done, stack, mins, c, more, more');
    }

    /** walkWatchpoint with the callback of Stop, over all nodes. */
    method StopWalk(c: Chan, accepts: string -> bool)
      requires Valid() && c.User?
      modifies this
      ensures Stopping(old(nodes), accepts) && nodes.Keys == old(nodes).Keys
      ensures Stopped(old(nodes), nodes, nodes.Keys, c) && Heeded(old(nodes), nodes, nodes.Keys, c)
    {
      ghost var all, done := nodes.Keys, {};
      var stack: seq<Path>, mins: seq<Event> := [Root], [{}];
      OsHeardStart(os, nodes, accepts);
      StopProgressStart(nodes, c);
      while |stack| != 0
        invariant Stopping(old(nodes), accepts) && nodes.Keys == all
        invariant StopProgress(old(nodes), nodes, done, stack, mins, c)
        decreases all - done
      {
        var n := |stack| - 1;
        assert stack[n] in stack;
        var more, more' := StopStep(stack, mins, c, accepts, old(nodes), done);
        done := done + {stack[n]};
        stack, mins := stack[..n] + more, mins[..n] + more';
      }
      StopProgressDone(old(nodes), nodes, done, c);
    }

    /** Stop: removes channel c from every node. What other users registered stays, and so does what
        they asked for through the tree's own channel, which still asks of every node what it asks of
        its parent: no recursive watch goes deaf. Once no user is left anywhere, no watchpoint remains.
        The masks stay in step, but for the nodes whose new total the OS refused. */
    method Stop(c: Chan, accepts: string -> bool)
      requires Valid() && c.User?
      modifies this
      ensures nodes.Keys == old(nodes).Keys && OsMatches(os, Heard(old(nodes), nodes, accepts))
      ensures Valid() <==>
                forall q :: q in nodes ==> accepts(NameOf(q)) || Total(old(nodes)[q]) == Total(nodes[q])
      ensures forall q :: q in nodes ==> StoppedNode(old(nodes)[q], nodes[q], c)
      ensures Heeded(old(nodes), nodes, nodes.Keys, c)
      ensures forall w :: Deep(w, old(nodes)) ==> Deep(w, nodes)
      ensures NoOthers(old(nodes), c) ==> forall q :: q in nodes ==> nodes[q] == map[]
      ensures NoOthers(old(nodes), c) && Valid() ==> os == map[]
    {
      NodesInStep(os, nodes);
      StopWalk(c, accepts);
      InStepIff(os, old(nodes), nodes, accepts);
      forall w | Deep(w, old(nodes)) ensures Deep(w, nodes) {
        DeepStop(w, old(nodes), nodes, nodes.Keys, c);
      }
      if NoOthers(old(nodes), c) && Valid() {
        NothingWatched(os, nodes);
      }
    }

    /** Stopping channels one after the other, with an OS that refuses nothing: the users left keep what
        they registered, and when the last user is gone so is the last OS watch. */
    method StopAll(cs: seq<Chan>)
      requires Valid() && forall c :: c in cs ==> c.User?
      modifies this
      ensures Valid() && AllWithout(old(nodes), nodes, cs)
      ensures forall w :: Deep(w, old(nodes)) ==> Deep(w, nodes)
      ensures cs != [] && (forall q :: q in nodes ==> Users(nodes[q]) == {}) ==>
                os == map[] && forall q :: q in nodes ==> nodes[q] == map[]
    {
      for i := 0 to |cs|
        invariant Valid() && AllWithout(old(nodes), nodes, cs[..i])
        invariant forall w :: Deep(w, old(nodes)) ==> Deep(w, nodes)
        invariant 0 < i && (forall q :: q in nodes ==> Users(nodes[q]) == {}) ==>
                    os == map[] && forall q :: q in nodes ==> nodes[q] == map[]
      {
        assert cs[..i + 1] == cs[..i] + [cs[i]];
        ghost var mid := nodes;
        Stop(cs[i], _ => true);
        OneMoreStopped(old(nodes), mid, nodes, cs[..i], cs[i]);
      }
      assert cs[..|cs|] == cs;
    }

    // ---------------------------------------------------------------- dispatching

    method OfferAt(p: Path, e: Event) returns (sent: seq<(Path, Chan)>)
      requires p in nodes
      ensures forall x :: x in sent <==> x.0 == p && x.1 in Offered(nodes[p], e)
      ensures Once(sent)
    {
      var chans := DispatchEvent(nodes[p], e);
      sent := seq(|chans|, i requires 0 <= i < |chans| => (p, chans[i]));
      forall x ensures x in sent <==> x.0 == p && x.1 in chans {
        if x.0 == p && x.1 in chans {
          var i :| 0 <= i < |chans| && chans[i] == x.1;
          assert sent[i] == x;
        }
      }
    }

    /** node.WalkPath with the callback of dispatch: offers the event, as a recursive one, to the
        nodes strictly above the directory named dir; found tells whether the directory is there. */
    method DispatchAbove(dir: string, e: Event) returns (found: bool, p: Path, sent: seq<(Path, Chan)>)
      requires Valid() && (dir == "" || AbsoluteName(dir))
      ensures found <==> DirPath(dir) in nodes
      ensures found ==> p == DirPath(dir)
      ensures OfferedAbove(nodes, DirPath(dir), e, sent)
    {
      var i := IndexBase("", dir);
      assert dir != "" ==> dir[i..] == dir[1..];
      p := Root;
      sent := [];
      var j := IndexSep(dir[i..]);
      while j != -1
        invariant 0 <= i <= |dir| && -1 <= j < |dir| - i && p in nodes && (dir == "" ==> i == 0 && p == Root)
        invariant if j == -1 then '/' !in dir[i..] else dir[i..][j] == '/' && '/' !in dir[i..][..j]
        invariant dir != "" ==> Extend(p, Split(dir[i..], '/')) == DirPath(dir)
        invariant OfferedAbove(nodes, p, e, sent)
        decreases |dir| - i
      {
        var rest := dir[i..];
        SplitFirst(p, rest, j);
        var q := Kid(p, rest[..j]);
        sent := OfferStep(p, rest[..j], e, sent);
        if q !in nodes {
          ExtendIsBelow(q, Split(rest[j + 1..], '/'));
          MissingBelow(nodes, p, q, DirPath(dir), e, sent);
          return false, p, sent;
        }
        p := q;
        assert rest[j + 1..] == dir[i + j + 1..];
        i := i + j + 1;
        j := IndexSep(dir[i..]);
      }
      if dir != "" {
        SplitLast(p, dir[i..]);
      }
      assert Kid(p, dir[i..]) == DirPath(dir);
      sent := OfferStep(p, dir[i..], e, sent);
      p := Kid(p, dir[i..]);
      found := p in nodes;
    }

    /** The callback at one node on the way down. */
    method OfferStep(p: Path, base: string, e: Event, sent: seq<(Path, Chan)>) returns (sent': seq<(Path, Chan)>)
      requires p in nodes && OfferedAbove(nodes, p, e, sent)
      ensures OfferedAbove(nodes, Kid(p, base), e, sent')
    {
      var more := OfferAt(p, e + RECURSIVE);
      OnceSum(sent, more);
      sent' := sent + more;
      NotAboveItself(p, base);
    }

    /** dispatch of one event e on base in directory dir: who is offered it, each once. */
    method Dispatch(dir: string, base: string, e: Event) returns (sent: seq<(Path, Chan)>)
      requires Valid() && (dir == "" || AbsoluteName(dir)) && e !! OMIT
      ensures Once(sent)
      ensures forall x :: x in sent <==> Receives(nodes, DirPath(dir), base, e, x.0, x.1)
    {
      var found, p, above := DispatchAbove(dir, e);
      sent := above;
      if found {
        var here := OfferAt(p, e);
        OnceSum(sent, here);
        sent := sent + here;
        var leaf := Kid(p, base);
        if leaf in nodes {
          var there := OfferAt(leaf, e);
          NotAboveItself(p, base);
          OnceSum(sent, there);
          sent := sent + there;
        }
      }
      NodesInStep(os, nodes);
      ReceiversExact(nodes, DirPath(dir), base, e);
    }

    // ---------------------------------------------------------------- the entry point

    /** Watch: name is the cleaned path, isrec whether it ended in "...". Without events it does
        nothing. A plain watch keeps the masks in step, whatever the OS says; a recursive one does unless
        the OS refuses, or its root is ignored and did not have all the events in its total. */
    method Watch(name: string, isrec: bool, c: Chan, events: seq<Event>, w: World, ghost dirs: set<Path>)
      returns (outcome: Outcome)
      requires Valid() && AbsoluteName(name) && c.User? && forall e :: e in events ==> e !! INTERNAL
      requires isrec ==> name != "/" && Directories(w.listing, dirs) && DirPath(name) in dirs
      modifies this
      ensures Valid() <==>
                events == [] || !isrec || (outcome != Refused && (w.doNotWatch(name) ==>
                  (Joined(events) + CREATE) - INTERNAL <= Total(Before(old(nodes), DirPath(name)))))
      ensures events == [] ==> outcome == Done && nodes == old(nodes) && os == old(os)
      ensures events != [] && isrec ==>
                (outcome == Done <==> PassesAll(w, old(nodes), DirPath(name), RecursiveSet(Joined(events))))
      ensures events != [] && isrec && outcome == Done ==>
                forall q :: Visits(w, old(nodes), DirPath(name), RecursiveSet(Joined(events)), q) ==>
                  (Joined(events) + CREATE) - INTERNAL <= MaskOf(os, NameOf(q))
      ensures events != [] && !isrec ==>
                (outcome == Done <==> !Refuses(w, old(nodes), DirPath(name), Joined(events)))
      ensures events != [] && !isrec && outcome != Done ==>
                os == old(os) &&
                TakenBack(Before(old(nodes), DirPath(name)), Before(nodes, DirPath(name)), c, Joined(events))
      ensures events != [] && !isrec && outcome == Done ==>
                Before(nodes, DirPath(name)) == AddTo(Before(old(nodes), DirPath(name)), c, Joined(events))
      ensures !isrec ==> forall q :: q in nodes && q != DirPath(name) ==> nodes[q] == Before(old(nodes), q)
      ensures events != [] && outcome == Done ==>
                Joined(events) + (if isrec then RECURSIVE else {}) <= Get(Before(nodes, DirPath(name)), c)
      ensures events != [] && outcome == Done && isrec ==>
                (Joined(events) + CREATE) - INTERNAL <= Asked(nodes, DirPath(name))
      ensures TakesNothing(old(nodes), nodes)
      ensures isrec && Asked(old(nodes), DirPath(name)) != {} ==> outcome != Unreadable && nodes.Keys == old(nodes).Keys
      ensures events != [] && isrec ==>
                && UsersGain(old(nodes), nodes, DirPath(name), c,
                             if outcome == Done then Joined(events) + RECURSIVE else {})
                && TreeGains(w, old(nodes), nodes, DirPath(name), RecursiveSet(Joined(events)), outcome)
      ensures Deep(w, old(nodes)) &&
              (isrec ==> outcome == Done && !w.doNotWatch(name) && RealDirectories(w.listing, old(nodes).Keys)) ==>
                Deep(w, nodes)
      ensures RealDirectories(w.listing, old(nodes).Keys) && RealName(w.listing, DirPath(name)) ==>
                RealDirectories(w.listing, nodes.Keys)
    {
      if |events| == 0 {
        return Done;
      }
      var eset := JoinEvents(events);
      var p := Add(name);
      NameOfDirPath(name);
      ghost var grown := nodes.Keys;
      if isrec {
        outcome := WatchTree(p, c, eset, w, old(nodes), dirs);
      } else {
        outcome := WatchPlain(p, c, eset, w, old(nodes));
      }
      StillReal(w.listing, old(nodes).Keys, grown, nodes.Keys, p, dirs);
    }

    /** The recursive half of Watch. */
    method WatchTree(p: Path, c: Chan, eset: Event, w: World, ghost was: map<Path, Watchpoint>, ghost dirs: set<Path>)
      returns (outcome: Outcome)
      requires Valid() && Grown(was, nodes) && (p in was ==> was == nodes) && eset !! INTERNAL && c.User?
      requires p in nodes && p.Kid? && p in dirs && Directories(w.listing, dirs)
      modifies this
      ensures Valid() <==> (outcome != Refused &&
                            (w.doNotWatch(NameOf(p)) ==> (eset + CREATE) - INTERNAL <= Total(Before(was, p))))
      ensures outcome == Done <==> PassesAll(w, was, p, RecursiveSet(eset))
      ensures outcome == Done ==> forall q :: Visits(w, was, p, RecursiveSet(eset), q) ==>
                                    (eset + CREATE) - INTERNAL <= MaskOf(os, NameOf(q))
      ensures outcome == Done ==> p in nodes && eset + RECURSIVE <= Get(nodes[p], c)
      ensures outcome == Done ==> (eset + CREATE) - INTERNAL <= Asked(nodes, p)
      ensures TakesNothing(was, nodes)
      ensures UsersGain(was, nodes, p, c, if outcome == Done then eset + RECURSIVE else {})
      ensures Asked(was, p) != {} ==> outcome != Unreadable && nodes.Keys == was.Keys
      ensures TreeGains(w, was, nodes, p, RecursiveSet(eset), outcome)
      ensures Deep(w, was) && RealDirectories(w.listing, was.Keys) && outcome == Done && !w.doNotWatch(NameOf(p)) ==>
                Deep(w, nodes)
      ensures Discovered(w.listing, dirs, old(nodes).Keys, nodes.Keys)
    {
      ghost var grown, touched, walked := nodes, {}, nodes;
      outcome, touched, walked := WatchRec(p, c, eset + RECURSIVE, w, dirs);
      GrownVisits(w, was, grown, p, RecursiveSet(eset));
      RecursiveTakesNothing(was, grown, walked, nodes, p, c, eset + RECURSIVE, touched);
      RecursiveGains(w, was, grown, walked, nodes, p, c, eset + RECURSIVE, touched, outcome);
      if Deep(w, was) && RealDirectories(w.listing, was.Keys) && outcome == Done && !w.doNotWatch(NameOf(p)) {
        RecursiveKeepsDeep(w, was, grown, walked, nodes, p, c, eset + RECURSIVE, touched);
      }
    }

    /** The plain half of Watch. */
    method WatchPlain(p: Path, c: Chan, eset: Event, w: World, ghost was: map<Path, Watchpoint>)
      returns (outcome: Outcome)
      requires Valid() && Grown(was, nodes) && p in nodes && eset !! INTERNAL && c.User?
      modifies this
      ensures Valid() && nodes.Keys == old(nodes).Keys
      ensures forall q :: q in nodes && q != p ==> nodes[q] == Before(was, q)
      ensures outcome == Done <==> !Refuses(w, was, p, eset)
      ensures outcome != Done ==> os == old(os) && TakenBack(Before(was, p), nodes[p], c, eset)
      ensures outcome == Done ==> nodes[p] == AddTo(Before(was, p), c, eset) && eset <= Get(nodes[p], c)
      ensures TakesNothing(was, nodes)
      ensures Deep(w, was) ==> Deep(w, nodes)
    {
      ghost var grown := nodes;
      var failed := WatchNode(p, c, eset, w.accepts(NameOf(p)));
      outcome := if failed then Refused else Done;
      PlainTakesNothing(was, nodes, p, c, eset);
      if Deep(w, was) {
        PlainKeepsDeep(w, was, grown, nodes, p, c);
      }
    }
  }
}
