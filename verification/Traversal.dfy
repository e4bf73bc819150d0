/** The explicit-stack walks over the trie: what has been visited, what is on the stack, and what
    is left out because a node is ignored. */
module Traversal {
  import opened TriePaths

  ghost predicate Below(r: Path, q: Path) {
    q == r || (q.Kid? && Below(r, q.dad))
  }

  function Depth(p: Path): nat {
    if p.Root? then 0 else 1 + Depth(p.dad)
  }

  lemma {:induction false} BelowIsDeeper(r: Path, q: Path)
    requires Below(r, q)
    ensures Depth(q) >= Depth(r)
  {
    if q != r {
      BelowIsDeeper(r, q.dad);
    }
  }

  /** A node reached from r through nodes that are not ignored. */
  ghost predicate Reaches(kids: Path -> set<Path>, ignored: Path -> bool, r: Path, q: Path) {
    !ignored(q) && (q == r || (q.Kid? && q in kids(q.dad) && Reaches(kids, ignored, r, q.dad)))
  }

  ghost predicate NoRepeats(stack: seq<Path>) {
    forall i, j :: 0 <= i < j < |stack| ==> stack[i] != stack[j]
  }

  /** kids(p) are children of p, all of them among the nodes that exist. */
  ghost predicate Family(kids: Path -> set<Path>, universe: set<Path>) {
    forall p, x :: p in universe && x in kids(p) ==> x.Kid? && x.dad == p && x in universe
  }

  /** A node met on the way: r itself or the child of a visited node that is not ignored. */
  ghost predicate Met(kids: Path -> set<Path>, ignored: Path -> bool, r: Path, done: set<Path>, q: Path) {
    Below(r, q) && (q == r || (q.Kid? && q.dad in done && !ignored(q.dad) && q in kids(q.dad)))
  }

  /** Invariant of the walks from r: everything met so far hangs below a visited node that is not
      ignored, and all children of such a node have been met. */
  ghost predicate Frontier(kids: Path -> set<Path>, ignored: Path -> bool, r: Path, universe: set<Path>,
                           done: set<Path>, stack: seq<Path>) {
    && done <= universe && NoRepeats(stack)
    && (forall q :: q in stack ==> q in universe && q !in done)
    && (r in done || r in stack)
    && (forall q {:trigger Met(kids, ignored, r, done, q)} :: q in done || q in stack ==>
         Met(kids, ignored, r, done, q))
    && (forall q, x {:trigger x in kids(q)} :: q in done && !ignored(q) && x in kids(q) ==> x in done || x in stack)
  }

  lemma FrontierStart(kids: Path -> set<Path>, ignored: Path -> bool, r: Path, universe: set<Path>)
    requires r in universe
    ensures Frontier(kids, ignored, r, universe, {}, [r])
  {
  }

  lemma MetMore(kids: Path -> set<Path>, ignored: Path -> bool, r: Path, universe: set<Path>, done: set<Path>,
                stack: seq<Path>, p: Path, q: Path)
    requires Frontier(kids, ignored, r, universe, done, stack) && p in stack && (q in done || q in stack)
    ensures Met(kids, ignored, r, done + {p}, q)
  {
    assert Met(kids, ignored, r, done, q);
  }

  /** Popping an ignored node: its children stay out. */
  lemma FrontierSkip(kids: Path -> set<Path>, ignored: Path -> bool, r: Path, universe: set<Path>,
                     done: set<Path>, stack: seq<Path>)
    requires Frontier(kids, ignored, r, universe, done, stack) && stack != [] && ignored(stack[|stack| - 1])
    ensures Frontier(kids, ignored, r, universe, done + {stack[|stack| - 1]}, stack[..|stack| - 1])
  {
    var p, rest := stack[|stack| - 1], stack[..|stack| - 1];
    assert forall q :: q in stack <==> q == p || q in rest;
    forall q | q in done + {p} || q in rest ensures Met(kids, ignored, r, done + {p}, q) {
      MetMore(kids, ignored, r, universe, done, stack, p, q);
    }
  }

  lemma KidsAreNew(kids: Path -> set<Path>, ignored: Path -> bool, r: Path, universe: set<Path>,
                   done: set<Path>, stack: seq<Path>, p: Path, x: Path)
    requires Frontier(kids, ignored, r, universe, done, stack) && Family(kids, universe)
    requires p in stack && !ignored(p) && x in kids(p)
    ensures x !in done && x !in stack && x != p && x in universe && Met(kids, ignored, r, done + {p}, x)
  {
    assert x.Kid? && x.dad == p && x in universe;
    assert Met(kids, ignored, r, done, p);
    BelowIsDeeper(r, p);
    ChildIsDeeper(p, x);
    assert !Met(kids, ignored, r, done, x);
  }

  lemma ChildIsDeeper(p: Path, x: Path)
    requires x.Kid? && x.dad == p
    ensures Depth(x) > Depth(p)
  {
  }

  lemma NoRepeatsSum(a: seq<Path>, b: seq<Path>)
    requires NoRepeats(a) && NoRepeats(b) && forall x :: x in b ==> x !in a
    ensures NoRepeats(a + b)
  {
    forall i, j | 0 <= i < j < |a + b| ensures (a + b)[i] != (a + b)[j] {
      if i < |a| <= j {
        assert (a + b)[i] in a && (a + b)[j] in b;
      }
    }
  }

  /** Popping a node that is not ignored and pushing its children in any order. */
  lemma FrontierPush(kids: Path -> set<Path>, ignored: Path -> bool, r: Path, universe: set<Path>,
                     done: set<Path>, stack: seq<Path>, more: seq<Path>)
    requires Frontier(kids, ignored, r, universe, done, stack) && Family(kids, universe)
    requires stack != [] && !ignored(stack[|stack| - 1])
    requires NoRepeats(more) && forall x :: x in more <==> x in kids(stack[|stack| - 1])
    ensures Frontier(kids, ignored, r, universe, done + {stack[|stack| - 1]}, stack[..|stack| - 1] + more)
  {
    var p, rest := stack[|stack| - 1], stack[..|stack| - 1];
    var done', stack' := done + {p}, rest + more;
    assert forall q :: q in stack <==> q == p || q in rest;
    assert forall q :: q in stack' <==> q in rest || q in more;
    forall x | x in more
      ensures x !in done && x !in stack && x != p && x in universe && Met(kids, ignored, r, done', x)
    {
      KidsAreNew(kids, ignored, r, universe, done, stack, p, x);
    }
    NoRepeatsSum(rest, more);
    forall q | q in done' || q in stack' ensures Met(kids, ignored, r, done', q) {
      if q !in more {
        MetMore(kids, ignored, r, universe, done, stack, p, q);
      }
    }
    forall q, x | q in done' && !ignored(q) && x in kids(q) ensures x in done' || x in stack' {
      if q in done {
        assert x in done || x in stack;
      }
    }
  }

  /** One turn of a walk: the top of the stack is popped and, unless ignored, its children pushed. */
  lemma FrontierNext(kids: Path -> set<Path>, ignored: Path -> bool, r: Path, universe: set<Path>,
                     done: set<Path>, stack: seq<Path>, more: seq<Path>)
    requires Frontier(kids, ignored, r, universe, done, stack) && Family(kids, universe) && stack != []
    requires ignored(stack[|stack| - 1]) ==> more == []
    requires !ignored(stack[|stack| - 1]) ==>
               NoRepeats(more) && forall x :: x in more <==> x in kids(stack[|stack| - 1])
    ensures Frontier(kids, ignored, r, universe, done + {stack[|stack| - 1]}, stack[..|stack| - 1] + more)
  {
    if ignored(stack[|stack| - 1]) {
      FrontierSkip(kids, ignored, r, universe, done, stack);
      assert stack[..|stack| - 1] + more == stack[..|stack| - 1];
    } else {
      FrontierPush(kids, ignored, r, universe, done, stack, more);
    }
  }

  /** Until then whatever was met and not skipped is reachable. */
  lemma {:induction false} MetIsReached(kids: Path -> set<Path>, ignored: Path -> bool, r: Path, universe: set<Path>,
                                        done: set<Path>, stack: seq<Path>, q: Path)
    requires Frontier(kids, ignored, r, universe, done, stack) && (q in done || q in stack) && !ignored(q)
    ensures Reaches(kids, ignored, r, q)
  {
    assert Met(kids, ignored, r, done, q);
    if q != r {
      MetIsReached(kids, ignored, r, universe, done, stack, q.dad);
    }
  }

  lemma MetAreReached(kids: Path -> set<Path>, ignored: Path -> bool, r: Path, universe: set<Path>,
                      done: set<Path>, stack: seq<Path>)
    requires Frontier(kids, ignored, r, universe, done, stack)
    ensures forall q :: (q in done || q in stack) && !ignored(q) ==> Reaches(kids, ignored, r, q)
  {
    forall q | (q in done || q in stack) && !ignored(q) ensures Reaches(kids, ignored, r, q) {
      MetIsReached(kids, ignored, r, universe, done, stack, q);
    }
  }

  /** When the stack is empty exactly the reachable nodes have been visited and not skipped. */
  lemma FrontierDone(kids: Path -> set<Path>, ignored: Path -> bool, r: Path, universe: set<Path>, done: set<Path>)
    requires Frontier(kids, ignored, r, universe, done, [])
    ensures forall q :: q in done && !ignored(q) <==> Reaches(kids, ignored, r, q)
  {
    forall q ensures q in done && !ignored(q) <==> Reaches(kids, ignored, r, q) {
      VisitedIffReached(kids, ignored, r, universe, done, q);
    }
  }

  lemma {:induction false} VisitedIffReached(kids: Path -> set<Path>, ignored: Path -> bool, r: Path,
          universe: set<Path>, done: set<Path>, q: Path)
    requires Frontier(kids, ignored, r, universe, done, [])
    ensures q in done && !ignored(q) <==> Reaches(kids, ignored, r, q)
  {
    if q.Kid? {
      VisitedIffReached(kids, ignored, r, universe, done, q.dad);
    }
    assert q in done ==> Met(kids, ignored, r, done, q);
  }
}
