/** Node names of the path trie and the masks held by the OS layer. */
module TriePaths {
  import opened Watchpoints

  /** A node of the trie by the base names on the way to it. */
  datatype Path = Root | Kid(dad: Path, tip: string)

  predicate Base(b: string) {
    b != "" && '/' !in b
  }

  /** Only the node of "/", a child of the root, has an empty base name. */
  predicate Proper(p: Path) {
    p.Kid? ==> Tip(p.dad, p.tip) && Proper(p.dad)
  }

  predicate Tip(dad: Path, tip: string) {
    '/' !in tip && (tip == "" ==> dad == Root)
  }

  function NameOf(p: Path): string {
    match p
    case Root => ""
    case Kid(dad, tip) => NameOf(dad) + "/" + tip
  }

  lemma {:induction false} NameInjective(p: Path, q: Path)
    requires Proper(p) && Proper(q) && NameOf(p) == NameOf(q)
    ensures p == q
  {
    if p.Kid? && q.Kid? {
      LastCut(NameOf(p.dad), p.tip, NameOf(q.dad), q.tip);
      NameInjective(p.dad, q.dad);
    }
  }

  lemma LastCut(a: string, x: string, b: string, y: string)
    requires a + "/" + x == b + "/" + y && '/' !in x && '/' !in y
    ensures a == b && x == y
  {
    var s, t := a + "/" + x, b + "/" + y;
    assert s[|a|] == '/' && t[|b|] == '/';
    assert forall k :: |a| < k < |s| ==> s[k] in x;
    assert forall k :: |b| < k < |t| ==> t[k] in y;
    assert a == s[..|a|] && b == t[..|b|] && x == s[|a| + 1..] && y == t[|b| + 1..];
  }

  /** The event mask last handed to the OS for each watched path. */
  type Masks = map<string, Event>

  function MaskOf(os: Masks, name: string): Event {
    if name in os then os[name] else {}
  }

  function SetMask(os: Masks, name: string, mask: Event): Masks {
    if mask == {} then os - {name} else os[name := mask]
  }

  /** The OS watches exactly what the watchpoints add up to. */
  ghost predicate OsMatches(os: Masks, ws: map<Path, Watchpoint>) {
    (forall p {:trigger InStep(os, ws, p)} :: p in ws ==> InStep(os, ws, p)) && Owned(os, ws)
  }

  ghost predicate InStep(os: Masks, ws: map<Path, Watchpoint>, p: Path) {
    p in ws ==> Proper(p) && NodeInv(ws[p]) && MaskOf(os, NameOf(p)) == Total(ws[p])
  }

  lemma NodesInStep(os: Masks, ws: map<Path, Watchpoint>)
    requires OsMatches(os, ws)
    ensures forall p :: p in ws ==> Proper(p) && NodeInv(ws[p]) && MaskOf(os, NameOf(p)) == Total(ws[p])
  {
    forall p | p in ws ensures Proper(p) && NodeInv(ws[p]) && MaskOf(os, NameOf(p)) == Total(ws[p]) {
      assert InStep(os, ws, p);
    }
  }

  lemma NodeInStep(os: Masks, ws: map<Path, Watchpoint>, p: Path)
    requires OsMatches(os, ws) && p in ws
    ensures Proper(p) && NodeInv(ws[p]) && MaskOf(os, NameOf(p)) == Total(ws[p])
    ensures NameOf(p) in os ==> os[NameOf(p)] != {}
  {
    assert InStep(os, ws, p);
    assert OwnsName(os, ws, NameOf(p));
  }

  /** Every watched path is a node's. */
  ghost predicate Owned(os: Masks, ws: map<Path, Watchpoint>) {
    forall name {:trigger OwnsName(os, ws, name)} :: name in os ==> OwnsName(os, ws, name)
  }

  ghost predicate OwnsName(os: Masks, ws: map<Path, Watchpoint>, name: string) {
    name in os ==> os[name] != {} && exists p :: p in ws && NameOf(p) == name
  }

  lemma NothingMatchesNothing()
    ensures OsMatches(map[], map[Root := map[]])
  {
    assert Union(map[]) == {};
  }

  /** Changing one node and telling the OS its new total. */
  lemma NodeChanges(os: Masks, ws: map<Path, Watchpoint>, p: Path, wp: Watchpoint)
    requires OsMatches(os, ws) && p in ws && NodeInv(wp)
    ensures OsMatches(SetMask(os, NameOf(p), Total(wp)), ws[p := wp]) && ws[p := wp].Keys == ws.Keys
  {
    assert ws[p := wp].Keys == ws.Keys;
    NodesInStep(os, ws);
    OtherNames(ws, p);
    ChangedMasks(os, ws, p, wp);
    ChangedNames(os, ws, p, wp);
  }

  lemma OtherNames(ws: map<Path, Watchpoint>, p: Path)
    requires p in ws && forall q :: q in ws ==> Proper(q)
    ensures forall q :: q in ws && q != p ==> NameOf(q) != NameOf(p)
  {
    forall q | q in ws && q != p ensures NameOf(q) != NameOf(p) {
      if NameOf(q) == NameOf(p) {
        NameInjective(p, q);
      }
    }
  }

  lemma ChangedMasks(os: Masks, ws: map<Path, Watchpoint>, p: Path, wp: Watchpoint)
    requires p in ws && forall q :: q in ws ==> MaskOf(os, NameOf(q)) == Total(ws[q])
    requires forall q :: q in ws && q != p ==> NameOf(q) != NameOf(p)
    ensures forall q :: q in ws[p := wp] ==>
              MaskOf(SetMask(os, NameOf(p), Total(wp)), NameOf(q)) == Total(ws[p := wp][q])
  {
  }

  lemma ChangedNames(os: Masks, ws: map<Path, Watchpoint>, p: Path, wp: Watchpoint)
    requires p in ws && Owned(os, ws)
    ensures Owned(SetMask(os, NameOf(p), Total(wp)), ws[p := wp])
  {
    var os' := SetMask(os, NameOf(p), Total(wp));
    forall name | name in os' ensures OwnsName(os', ws[p := wp], name) {
      if name == NameOf(p) {
        assert p in ws[p := wp];
      } else {
        assert OwnsName(os, ws, name);
        var q :| q in ws && NameOf(q) == name;
        assert q in ws[p := wp];
      }
    }
  }

  /** Changing a node without changing its total does not concern the OS. */
  lemma QuietChange(os: Masks, ws: map<Path, Watchpoint>, p: Path, wp: Watchpoint)
    requires OsMatches(os, ws) && p in ws && NodeInv(wp) && Total(wp) == Total(ws[p])
    ensures OsMatches(os, ws[p := wp]) && ws[p := wp].Keys == ws.Keys
  {
    NodeChanges(os, ws, p, wp);
    NodeInStep(os, ws, p);
    assert SetMask(os, NameOf(p), Total(wp)) == os;
  }

  /** Changing a total without telling the OS puts the masks out of step. */
  lemma OutOfStep(os: Masks, ws: map<Path, Watchpoint>, p: Path, wp: Watchpoint)
    requires OsMatches(os, ws) && p in ws && Total(wp) != Total(ws[p])
    ensures !OsMatches(os, ws[p := wp])
  {
    NodeInStep(os, ws, p);
    assert !InStep(os, ws[p := wp], p);
  }

  /** A node that was not there has no watch in the OS. */
  lemma NodeAppears(os: Masks, ws: map<Path, Watchpoint>, p: Path)
    requires OsMatches(os, ws) && p !in ws && Proper(p)
    ensures OsMatches(os, ws[p := map[]])
  {
    NodesInStep(os, ws);
    assert NameOf(p) !in os by {
      if NameOf(p) in os {
        assert OwnsName(os, ws, NameOf(p));
        var q :| q in ws && NameOf(q) == NameOf(p);
        NameInjective(p, q);
      }
    }
    OwnedByMore(os, ws, p);
  }

  lemma OwnedByMore(os: Masks, ws: map<Path, Watchpoint>, p: Path)
    requires Owned(os, ws)
    ensures Owned(os, ws[p := map[]])
  {
    forall name | name in os ensures OwnsName(os, ws[p := map[]], name) {
      assert OwnsName(os, ws, name);
      var q :| q in ws && NameOf(q) == name;
      assert q in ws[p := map[]];
    }
  }

  /** Adding events keeps a node right: internal events only for the tree's own channel. */
  lemma AddKeepsNode(wp: Watchpoint, c: Chan, e: Event)
    requires NodeInv(wp) && c != Nil
    requires if c == Rec then CREATE + OMIT <= e else e !! OMIT
    ensures NodeInv(AddTo(wp, c, e))
  {
    AddKeepsCache(wp, c, e);
  }

  /** If the OS refuses the new mask, taking the new events back restores the total. */
  lemma UndoRestoresTotal(wp: Watchpoint, c: Chan, e: Event)
    requires NodeInv(wp) && c.User? && e !! OMIT
    ensures var diff := AddDiff(wp, e);
            var undone := DelFrom(AddTo(wp, c, e), c, diff.after - diff.before);
            diff != NONE ==> NodeInv(undone) && Total(undone) == Total(wp)
  {
    var diff := AddDiff(wp, e);
    var added := AddTo(wp, c, e);
    var back := diff.after - diff.before;
    if diff != NONE {
      AddKeepsNode(wp, c, e);
      DelKeepsCache(added, c, back);
      var rest := Remaining(added, c, back);
      assert diff.before == Total(wp) && diff.after == Total(wp) + (e - INTERNAL);
      forall b | b !in INTERNAL ensures b in Union(rest) <==> b in Union(wp) {
        if b in Union(wp) {
          var d :| d in wp && d != Nil && b in wp[d];
          assert b !in back;
          assert d in rest && b in rest[d];
        }
        if b in Union(rest) {
          var d :| d in rest && d != Nil && b in rest[d];
          if d == c && !(c in wp && b in wp[c]) {
            assert b in e && b !in back;
            assert b in Total(wp);
          } else {
            assert d in wp && b in wp[d];
          }
        }
      }
      assert Union(rest) - INTERNAL == Union(wp) - INTERNAL;
    }
  }

  /** Some of the events e are back off channel c: it keeps, besides its old set, those that were in
      the total. */
  ghost predicate TakenBack(was: Watchpoint, now: Watchpoint, c: Chan, e: Event) {
    && Total(now) == Total(was) && Get(now, c) == Get(was, c) + e * Total(was)
    && forall k :: k != Nil && k != c ==> (k in now <==> k in was) && Get(now, k) == Get(was, k)
  }

  /** And the channel keeps, besides its old set, those of the new events that were in the total. */
  lemma UndoKeeps(wp: Watchpoint, c: Chan, e: Event)
    requires NodeInv(wp) && c.User? && e !! INTERNAL && AddDiff(wp, e) != NONE
    ensures var diff := AddDiff(wp, e);
            TakenBack(wp, DelFrom(AddTo(wp, c, e), c, diff.after - diff.before), c, e)
  {
    var diff := AddDiff(wp, e);
    var back := diff.after - diff.before;
    UndoRestoresTotal(wp, c, e);
    AddKeepsCache(wp, c, e);
    assert back == e - Total(wp);
    assert Get(wp, c) - INTERNAL <= Total(wp) by {
      assert Get(wp, c) <= Union(wp);
    }
    assert (Get(wp, c) + e) - back == Get(wp, c) + e * Total(wp);
    AddDelChannels(wp, c, e, back);
  }

  lemma AddDelChannels(wp: Watchpoint, c: Chan, e: Event, back: Event)
    requires c != Nil
    ensures var undone := DelFrom(AddTo(wp, c, e), c, back);
            && Get(undone, c) == (Get(wp, c) + e) - back
            && forall k :: k != Nil && k != c ==> (k in undone <==> k in wp) && Get(undone, k) == Get(wp, k)
  {
    var rest := Remaining(AddTo(wp, c, e), c, back);
    var undone := DelFrom(AddTo(wp, c, e), c, back);
    assert forall k :: k != Nil ==> (k in undone <==> k in rest) && Get(undone, k) == Get(rest, k);
  }
}
