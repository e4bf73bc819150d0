/** What Stop does to the watchpoints of the tree. */
module Stopping {
  import opened Watchpoints
  import opened TriePaths
  import opened Traversal
  import opened Walking

  /** Channel c is gone from a node, the other users' event sets are as before. */
  ghost predicate StoppedNode(was: Watchpoint, now: Watchpoint, c: Chan) {
    Users(now) == Users(was) - {c} && forall k :: k in Users(now) ==> now[k] == was[k]
  }

  /** All channels of cs are gone from a node. */
  ghost predicate Without(was: Watchpoint, now: Watchpoint, cs: seq<Chan>) {
    && (forall k :: k in Users(now) <==> k in Users(was) && k !in cs)
    && forall k :: k in Users(now) ==> now[k] == was[k]
  }

  ghost predicate AllWithout(was: map<Path, Watchpoint>, now: map<Path, Watchpoint>, cs: seq<Chan>) {
    was.Keys == now.Keys && forall q :: q in now ==> Without(was[q], now[q], cs)
  }

  lemma OneMoreStopped(was: map<Path, Watchpoint>, mid: map<Path, Watchpoint>, now: map<Path, Watchpoint>,
                       cs: seq<Chan>, c: Chan)
    requires AllWithout(was, mid, cs) && mid.Keys == now.Keys
    requires forall q :: q in now ==> StoppedNode(mid[q], now[q], c)
    ensures AllWithout(was, now, cs + [c])
    ensures (forall q :: q in now ==> Users(now[q]) == {}) ==> NoOthers(mid, c)
  {
  }

  /** The tree's own channel keeps what the parent demands, if it was registered, and whatever another
      user asked for through it, and nothing else is kept. */
  ghost predicate Heeds(was: Watchpoint, now: Watchpoint, min: Event, c: Chan) {
    && Needed(was, now, min)
    && (if Rec in was then min <= Get(now, Rec) else Rec !in now)
    && forall k: Chan, e: Event :: k.User? && k != c && e <= Get(was, k) && e - INTERNAL <= Get(was, Rec) ==>
         e - INTERNAL <= Get(now, Rec)
  }

  lemma NothingToStop(wp: Watchpoint, min: Event, c: Chan)
    requires |wp| == 0
    ensures StoppedNode(wp, wp, c) && Heeds(wp, wp, min, c) && wp == map[]
  {
    assert wp == map[];
  }

  /** No user but c is left. */
  ghost predicate NoOthers(nodes: map<Path, Watchpoint>, c: Chan) {
    forall q :: q in nodes ==> Users(nodes[q]) <= {c}
  }

  /** Channel c is gone from the nodes in done, the others are untouched; if it was the only user
      the nodes in done are empty. */
  ghost predicate Stopped(was: map<Path, Watchpoint>, now: map<Path, Watchpoint>, done: set<Path>, c: Chan) {
    && was.Keys == now.Keys
    && (forall q :: q in now && q in done ==> StoppedNode(was[q], now[q], c))
    && (forall q :: q in now && q !in done ==> now[q] == was[q])
    && (NoOthers(was, c) ==> forall q :: q in now && q in done ==> now[q] == map[])
  }

  lemma StoppedNext(was: map<Path, Watchpoint>, mid: map<Path, Watchpoint>, now: map<Path, Watchpoint>, done: set<Path>,
                    p: Path, min: Event, c: Chan)
    requires Stopped(was, mid, done, c) && p in mid && p !in done && mid.Keys == now.Keys
    requires (forall q :: q in now && q != p ==> now[q] == mid[q]) && StoppedNode(mid[p], now[p], c)
    requires min == {} && Users(mid[p]) <= {c} ==> now[p] == map[]
    requires NoOthers(was, c) ==> min == {}
    ensures Stopped(was, now, done + {p}, c)
  {
  }

  /** With every node on the stack goes what its parent demands of it. */
  ghost predicate Inherited(nodes: map<Path, Watchpoint>, stack: seq<Path>, mins: seq<Event>) {
    && |mins| == |stack|
    && forall k :: 0 <= k < |stack| ==> mins[k] == DadAsks(nodes, stack[k])
  }

  /** Every visited node heeded what its parent now asks for. */
  ghost predicate Heeded(was: map<Path, Watchpoint>, now: map<Path, Watchpoint>, done: set<Path>, c: Chan) {
    && was.Keys == now.Keys
    && forall q {:trigger HeedsDad(was, now, q, c)} :: q in done && q in now ==> HeedsDad(was, now, q, c)
  }

  ghost predicate HeedsDad(was: map<Path, Watchpoint>, now: map<Path, Watchpoint>, q: Path, c: Chan) {
    q in was && q in now && Heeds(was[q], now[q], DadAsks(now, q), c)
  }

  /** What the parent of a node demands of it. */
  ghost function DadAsks(nodes: map<Path, Watchpoint>, q: Path): Event {
    if q.Root? then {} else Get(Before(nodes, q.dad), Rec)
  }

  lemma HeededNext(was: map<Path, Watchpoint>, mid: map<Path, Watchpoint>, now: map<Path, Watchpoint>, done: set<Path>,
                   p: Path, c: Chan)
    requires Heeded(was, mid, done, c) && p in mid && p !in done && mid.Keys == now.Keys
    requires forall q :: q in now && q != p ==> now[q] == mid[q]
    requires forall q :: q in done && q.Kid? ==> q.dad != p
    requires Heeds(was[p], now[p], DadAsks(mid, p), c)
    ensures Heeded(was, now, done + {p}, c)
  {
    forall q | q in done + {p} && q in now ensures HeedsDad(was, now, q, c) {
      assert DadAsks(now, q) == DadAsks(mid, q);
      if q != p {
        assert HeedsDad(was, mid, q, c);
      }
    }
  }

  ghost function NoneIgnored(): Path -> bool {
    q => false
  }

  /** What holds of the node on top of the stack of Stop and of the demand on it. */
  lemma TopOfStack(was: map<Path, Watchpoint>, nodes: map<Path, Watchpoint>, done: set<Path>, stack: seq<Path>,
                   mins: seq<Event>, c: Chan)
    requires Frontier(TreeKids(nodes.Keys), NoneIgnored(), Root, nodes.Keys, done, stack) && stack != []
    requires Inherited(nodes, stack, mins) && Stopped(was, nodes, done, c)
    requires forall p :: p in nodes ==> NodeInv(nodes[p])
    ensures var n := |stack| - 1;
            && stack[n] in nodes && stack[n] !in done && Demand(mins[n]) && (NoOthers(was, c) ==> mins[n] == {})
            && mins[n] == DadAsks(nodes, stack[n]) && (forall q :: q in done && q.Kid? ==> q.dad != stack[n])
  {
    var p := stack[|stack| - 1];
    assert p in stack;
    assert Met(TreeKids(nodes.Keys), NoneIgnored(), Root, done, p);
    forall q | q in done && q.Kid? ensures q.dad != p {
      assert Met(TreeKids(nodes.Keys), NoneIgnored(), Root, done, q);
    }
  }

  lemma StackNext(was: map<Path, Watchpoint>, now: map<Path, Watchpoint>, all: set<Path>, done: set<Path>,
                  stack: seq<Path>, mins: seq<Event>, more: seq<Path>, more': seq<Event>)
    requires Frontier(TreeKids(all), NoneIgnored(), Root, all, done, stack)
    requires Inherited(was, stack, mins) && stack != []
    requires was.Keys == now.Keys == all && stack[|stack| - 1] in now
    requires forall q :: q in now && q != stack[|stack| - 1] ==> now[q] == was[q]
    requires NoRepeats(more) && forall x :: x in more <==> x in ChildrenIn(all, stack[|stack| - 1])
    requires |more'| == |more| && forall k :: 0 <= k < |more'| ==> more'[k] == Get(now[stack[|stack| - 1]], Rec)
    ensures Frontier(TreeKids(all), NoneIgnored(), Root, all, done + {stack[|stack| - 1]}, stack[..|stack| - 1] + more)
    ensures Inherited(now, stack[..|stack| - 1] + more, mins[..|stack| - 1] + more')
  {
    TreeFamily(all);
    assert TreeKids(all)(stack[|stack| - 1]) == ChildrenIn(all, stack[|stack| - 1]);
    FrontierNext(TreeKids(all), NoneIgnored(), Root, all, done, stack, more);
    InheritedNext(was, now, TreeKids(all), NoneIgnored(), all, done, stack, mins, more, more');
  }

  lemma InheritedNext(was: map<Path, Watchpoint>, now: map<Path, Watchpoint>, kids: Path -> set<Path>,
                      ignored: Path -> bool,
                      all: set<Path>, done: set<Path>, stack: seq<Path>, mins: seq<Event>,
                      more: seq<Path>, more': seq<Event>)
    requires Frontier(kids, ignored, Root, all, done, stack) && Inherited(was, stack, mins) && stack != []
    requires was.Keys == now.Keys && stack[|stack| - 1] in now
    requires forall q :: q in now && q != stack[|stack| - 1] ==> now[q] == was[q]
    requires forall x :: x in more ==> x.Kid? && x.dad == stack[|stack| - 1]
    requires |more'| == |more| && forall k :: 0 <= k < |more'| ==> more'[k] == Get(now[stack[|stack| - 1]], Rec)
    ensures Inherited(now, stack[..|stack| - 1] + more, mins[..|stack| - 1] + more')
  {
    var n := |stack| - 1;
    var stack', mins' := stack[..n] + more, mins[..n] + more';
    forall k | 0 <= k < |stack'|
      ensures mins'[k] == DadAsks(now, stack'[k])
    {
      if k < n {
        assert stack[k] in stack && stack[n] in stack;
        assert Met(kids, ignored, Root, done, stack[k]);
      } else {
        assert stack'[k] in more;
      }
    }
  }

  /** Invariant of the walk of Stop: the nodes in done are stopped and heeded what their parents ask
      for now, and with every node on the stack goes the demand on it. */
  ghost predicate StopProgress(was: map<Path, Watchpoint>, now: map<Path, Watchpoint>, done: set<Path>,
                               stack: seq<Path>, mins: seq<Event>, c: Chan) {
    && was.Keys == now.Keys
    && Frontier(TreeKids(now.Keys), NoneIgnored(), Root, now.Keys, done, stack)
    && Inherited(now, stack, mins) && Stopped(was, now, done, c) && Heeded(was, now, done, c)
  }

  lemma StopProgressStart(nodes: map<Path, Watchpoint>, c: Chan)
    requires Root in nodes
    ensures StopProgress(nodes, nodes, {}, [Root], [{}], c)
  {
    FrontierStart(TreeKids(nodes.Keys), NoneIgnored(), Root, nodes.Keys);
  }

  /** One turn: the node on top of the stack is stopped, and its children pushed. */
  lemma StopProgressNext(was: map<Path, Watchpoint>, mid: map<Path, Watchpoint>, now: map<Path, Watchpoint>,
                         done: set<Path>, stack: seq<Path>, mins: seq<Event>, c: Chan,
                         more: seq<Path>, more': seq<Event>)
    requires StopProgress(was, mid, done, stack, mins, c) && stack != [] && mid.Keys == now.Keys
    requires forall q :: q in mid ==> NodeInv(mid[q])
    requires var p := stack[|stack| - 1];
             && p in mid && (forall q :: q in now && q != p ==> now[q] == mid[q])
             && StoppedNode(mid[p], now[p], c) && Heeds(mid[p], now[p], mins[|stack| - 1], c)
             && (mins[|stack| - 1] == {} && Users(mid[p]) <= {c} ==> now[p] == map[])
             && NoRepeats(more) && (forall x :: x in more <==> x in ChildrenIn(mid.Keys, p))
             && |more'| == |more| && forall k :: 0 <= k < |more'| ==> more'[k] == Get(now[p], Rec)
    ensures StopProgress(was, now, done + {stack[|stack| - 1]}, stack[..|stack| - 1] + more,
                         mins[..|stack| - 1] + more', c)
  {
    var n := |stack| - 1;
    TopOfStack(was, mid, done, stack, mins, c);
    StoppedNext(was, mid, now, done, stack[n], mins[n], c);
    HeededNext(was, mid, now, done, stack[n], c);
    StackNext(mid, now, mid.Keys, done, stack, mins, more, more');
  }

  /** At the end every node has been stopped. */
  lemma StopProgressDone(was: map<Path, Watchpoint>, now: map<Path, Watchpoint>, done: set<Path>, c: Chan)
    requires StopProgress(was, now, done, [], [], c) && Trie(now.Keys)
    ensures now.Keys <= done && Stopped(was, now, now.Keys, c) && Heeded(was, now, now.Keys, c)
  {
    FrontierDone(TreeKids(now.Keys), NoneIgnored(), Root, now.Keys, done);
    AllReached(now, TreeKids(now.Keys), NoneIgnored());
  }

  // ---------------------------------------------------------------- what the OS was told

  /** The watchpoints as far as the OS heard of them: where it refused, those from before. */
  function Heard(was: map<Path, Watchpoint>, now: map<Path, Watchpoint>, accepts: string -> bool): map<Path, Watchpoint>
    requires now.Keys <= was.Keys
  {
    map q | q in now :: if accepts(NameOf(q)) then now[q] else was[q]
  }

  ghost predicate OsHeard(os: Masks, was: map<Path, Watchpoint>, now: map<Path, Watchpoint>, accepts: string -> bool) {
    && was.Keys == now.Keys && OsMatches(os, Heard(was, now, accepts))
    && forall q :: q in now ==> NodeInv(now[q])
  }

  lemma OsHeardStart(os: Masks, nodes: map<Path, Watchpoint>, accepts: string -> bool)
    requires OsMatches(os, nodes)
    ensures OsHeard(os, nodes, nodes, accepts)
  {
    NodesInStep(os, nodes);
    assert Heard(nodes, nodes, accepts) == nodes;
  }

  /** The OS may be told the new total of a node that was as before. */
  lemma OsHeardNext(os: Masks, was: map<Path, Watchpoint>, now: map<Path, Watchpoint>, accepts: string -> bool,
                    p: Path, wp: Watchpoint)
    requires OsHeard(os, was, now, accepts) && p in now && now[p] == was[p] && NodeInv(wp)
    ensures MaskOf(os, NameOf(p)) == Total(now[p]) && (NameOf(p) in os ==> os[NameOf(p)] != {})
    ensures OsHeard(if accepts(NameOf(p)) then SetMask(os, NameOf(p), Total(wp)) else os, was, now[p := wp], accepts)
  {
    var heard := Heard(was, now, accepts);
    NodeInStep(os, heard, p);
    assert now[p := wp].Keys == now.Keys;
    if accepts(NameOf(p)) {
      NodeChanges(os, heard, p, wp);
      assert Heard(was, now[p := wp], accepts) == heard[p := wp];
    } else {
      assert Heard(was, now[p := wp], accepts) == heard;
    }
  }

  /** So it is in step if and only if it refused no change of a total. */
  lemma InStepIff(os: Masks, was: map<Path, Watchpoint>, now: map<Path, Watchpoint>, accepts: string -> bool)
    requires OsHeard(os, was, now, accepts)
    ensures OsMatches(os, now) <==> forall q :: q in now ==> accepts(NameOf(q)) || Total(was[q]) == Total(now[q])
  {
    var heard := Heard(was, now, accepts);
    NodesInStep(os, heard);
    if OsMatches(os, now) {
      NodesInStep(os, now);
      forall q | q in now ensures accepts(NameOf(q)) || Total(was[q]) == Total(now[q]) {
        assert Total(heard[q]) == Total(now[q]);
      }
    }
    if forall q :: q in now ==> accepts(NameOf(q)) || Total(was[q]) == Total(now[q]) {
      forall q | q in now ensures InStep(os, now, q) {
        assert Total(heard[q]) == Total(now[q]);
      }
      forall name | name in os ensures OwnsName(os, now, name) {
        assert OwnsName(os, heard, name);
        var q :| q in heard && NameOf(q) == name;
        assert q in now;
      }
    }
  }

  /** Every node of a trie is reached from its root. */
  lemma AllReached(nodes: map<Path, Watchpoint>, kids: Path -> set<Path>, ignored: Path -> bool)
    requires Trie(nodes.Keys) && kids == TreeKids(nodes.Keys) && forall q :: !ignored(q)
    ensures forall q :: q in nodes ==> Reaches(kids, ignored, Root, q)
  {
    forall q | q in nodes ensures Reaches(kids, ignored, Root, q) {
      NodeReached(nodes, kids, ignored, q);
    }
  }

  lemma {:induction false} NodeReached(nodes: map<Path, Watchpoint>, kids: Path -> set<Path>,
                                       ignored: Path -> bool, q: Path)
    requires Trie(nodes.Keys) && kids == TreeKids(nodes.Keys) && (forall q :: !ignored(q)) && q in nodes
    ensures Reaches(kids, ignored, Root, q)
  {
    if q.Kid? {
      assert HasDad(nodes.Keys, q);
      NodeReached(nodes, kids, ignored, q.dad);
    }
  }

  lemma NothingWatched(os: Masks, nodes: map<Path, Watchpoint>)
    requires OsMatches(os, nodes) && forall q :: q in nodes ==> nodes[q] == map[]
    ensures os == map[]
  {
    NodesInStep(os, nodes);
    assert forall p :: p in nodes ==> MaskOf(os, NameOf(p)) == {};
    forall name ensures name !in os {
      assert OwnsName(os, nodes, name);
    }
  }
}
