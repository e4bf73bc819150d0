/** Who receives an event. */
module Dispatching {
  import opened Watchpoints
  import opened TriePaths
  import opened Traversal
  import opened TreeNames
  import opened Walking

  ghost predicate Once<T>(s: seq<T>) {
    forall i, j :: 0 <= i < j < |s| ==> s[i] != s[j]
  }

  lemma OnceSum<T>(s: seq<T>, t: seq<T>)
    requires Once(s) && Once(t) && forall x :: x in s ==> x !in t
    ensures Once(s + t)
  {
    forall i, j | 0 <= i < j < |s + t| ensures (s + t)[i] != (s + t)[j] {
      if i < |s| <= j {
        assert s[i] in s && t[j - |s|] in t;
      }
    }
  }

  ghost predicate Above(q: Path, p: Path) {
    q != p && Below(q, p)
  }

  /** A user channel u of node q receives event e on base in directory p: on a directory strictly
      above p it must have asked for e recursively, on p itself or on the leaf plainly, and on
      those two only if the tree knows the directory. */
  ghost predicate Receives(nodes: map<Path, Watchpoint>, p: Path, base: string, e: Event, q: Path, u: Chan) {
    && q in nodes && u in Users(nodes[q])
    && ((Above(q, p) && e + RECURSIVE <= nodes[q][u])
        || (p in nodes && (q == p || q == Kid(p, base)) && e <= nodes[q][u]))
  }

  ghost predicate IsOffered(nodes: map<Path, Watchpoint>, p: Path, base: string, e: Event, q: Path, c: Chan) {
    && q in nodes
    && ((Above(q, p) && c in Offered(nodes[q], e + RECURSIVE))
        || (p in nodes && (q == p || q == Kid(p, base)) && c in Offered(nodes[q], e)))
  }

  lemma ReceiversExact(nodes: map<Path, Watchpoint>, p: Path, base: string, e: Event)
    requires (forall q :: q in nodes ==> NodeInv(nodes[q])) && e !! OMIT
    ensures forall q, c :: IsOffered(nodes, p, base, e, q, c) <==> Receives(nodes, p, base, e, q, c)
  {
    forall q, c ensures IsOffered(nodes, p, base, e, q, c) <==> Receives(nodes, p, base, e, q, c) {
      if q in nodes {
        OfferIsExact(nodes[q], e);
        OfferIsExact(nodes[q], e + RECURSIVE);
      }
    }
  }

  lemma {:induction false} ExtendIsBelow(p: Path, bases: seq<string>)
    ensures Below(p, Extend(p, bases))
    decreases bases
  {
    if bases != [] {
      ExtendIsBelow(Kid(p, bases[0]), bases[1..]);
      BelowTransitive(p, Kid(p, bases[0]), Extend(p, bases));
    }
  }

  lemma {:induction false} BelowTransitive(a: Path, b: Path, c: Path)
    requires Below(a, b) && Below(b, c)
    ensures Below(a, c)
  {
    if b != c {
      BelowTransitive(a, b, c.dad);
    }
  }

  lemma {:induction false} LineOfAncestors(a: Path, b: Path, c: Path)
    requires Below(a, c) && Below(b, c)
    ensures Below(a, b) || Below(b, a)
  {
    if a != c && b != c {
      LineOfAncestors(a, b, c.dad);
    }
  }

  lemma {:induction false} TrieIsClosed(nodes: map<Path, Watchpoint>, a: Path, c: Path)
    requires Trie(nodes.Keys) && c in nodes && Below(a, c)
    ensures a in nodes
  {
    if a != c {
      assert HasDad(nodes.Keys, c);
      TrieIsClosed(nodes, a, c.dad);
    }
  }

  lemma MissingAncestor(nodes: map<Path, Watchpoint>, a: Path, c: Path)
    requires Trie(nodes.Keys) && a !in nodes && Below(a, c)
    ensures c !in nodes
  {
    if c in nodes {
      TrieIsClosed(nodes, a, c);
    }
  }

  /** The way down to target was made, without watchpoints: nothing if it was there. */
  ghost predicate GrownTo(was: map<Path, Watchpoint>, now: map<Path, Watchpoint>, target: Path) {
    && Grown(was, now) && (target in was ==> was == now)
    && forall q :: q in now ==> q in was || Below(q, target)
  }

  lemma GrownToNext(was: map<Path, Watchpoint>, mid: map<Path, Watchpoint>, now: map<Path, Watchpoint>, p: Path,
                    target: Path)
    requires Trie(mid.Keys) && GrownTo(was, mid, target) && Below(p, target)
    requires Grown(mid, now) && now.Keys == mid.Keys + {p} && (p in mid ==> now == mid)
    ensures GrownTo(was, now, target)
  {
    GrownTwice(was, mid, now);
    if target in was {
      TrieIsClosed(mid, p, target);
    }
  }

  lemma NotAboveItself(p: Path, base: string)
    ensures !Below(Kid(p, base), p) && Kid(p, base) != p
    ensures forall x :: Above(x, Kid(p, base)) <==> x == p || Above(x, p)
  {
    if Below(Kid(p, base), p) {
      BelowIsDeeper(Kid(p, base), p);
    }
    var kid := Kid(p, base);
    assert Depth(kid) > Depth(p);
    forall x ensures Above(x, kid) <==> x == p || Above(x, p) {
      assert Below(x, kid) <==> x == kid || Below(x, kid.dad);
    }
  }

  /** The event went, as a recursive one, to the nodes above p. */
  ghost predicate OfferedAbove(nodes: map<Path, Watchpoint>, p: Path, e: Event, sent: seq<(Path, Chan)>) {
    && Once(sent)
    && forall x :: x in sent <==> x.0 in nodes && Above(x.0, p) && x.1 in Offered(nodes[x.0], e + RECURSIVE)
  }

  /** If the next node on the way to target is missing, so is target, and nothing is left to be
      offered the event on the way. */
  lemma MissingBelow(nodes: map<Path, Watchpoint>, p: Path, q: Path, target: Path, e: Event, sent: seq<(Path, Chan)>)
    requires Trie(nodes.Keys) && p in nodes && q !in nodes && q.Kid? && q.dad == p && Below(q, target)
    requires OfferedAbove(nodes, q, e, sent)
    ensures target !in nodes && OfferedAbove(nodes, target, e, sent)
  {
    MissingAncestor(nodes, q, target);
    forall x | x in nodes ensures Above(x, target) <==> Above(x, q) {
      if Below(x, target) {
        LineOfAncestors(x, q, target);
        if Below(q, x) {
          TrieIsClosed(nodes, q, x);
        }
      }
      if Below(x, q) {
        BelowTransitive(x, q, target);
        if x == target {
          BelowIsDeeper(x, q);
          BelowIsDeeper(q, target);
        }
      }
    }
  }
}
