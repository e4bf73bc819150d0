/** The watchpoint of a node: the event set of each channel, and their union cached under Nil. An
    event set, a 32-bit mask in the program, is the set of its bit numbers, so that the mask
    operations | and &^ are union and difference and a mask test is inclusion. */
module Watchpoints {

  newtype Bit = n: int | 0 <= n < 32

  type Event = set<Bit>

  // Bits of the Linux build.
  const CREATE: Event := {20}
  const RECURSIVE: Event := {24}
  const OMIT: Event := {25}
  const INTERNAL: Event := {24, 25}
  const ALL: Event := set b: Bit | 0 <= b <= 31

  /** Nil keys the cached union, Rec is the tree's own channel, the rest belong to users. */
  datatype Chan = Nil | Rec | User(id: nat)

  type Watchpoint = map<Chan, Event>

  /** A missing key reads as the empty event set. */
  function Get(wp: Watchpoint, c: Chan): Event {
    if c in wp then wp[c] else {}
  }

  /** Old and new event set as the OS layer sees them; NONE if nothing changed. */
  datatype Diff = Diff(before: Event, after: Event)

  const NONE := Diff({}, {})

  function MakeDiff(before: Event, after: Event): Diff {
    if before - INTERNAL == after - INTERNAL then NONE else Diff(before - INTERNAL, after - INTERNAL)
  }

  /** A diff tells the change from one total to another. */
  predicate Tells(d: Diff, before: Event, after: Event) {
    if d == NONE then before == after else d == Diff(before, after) && before != after
  }

  function Total(wp: Watchpoint): Event {
    Get(wp, Nil) - INTERNAL
  }

  /** The logical sum of all registered event sets, the cache left out. */
  function Union(wp: Watchpoint): Event {
    set c, b | c in wp && c != Nil && b in wp[c] :: b
  }

  // ---------------------------------------------------------------- Add, Del, dryAdd

  function AddTo(wp: Watchpoint, c: Chan, e: Event): Watchpoint {
    wp[c := Get(wp, c) + e][Nil := Get(wp, Nil) + e - OMIT]
  }

  function AddDiff(wp: Watchpoint, e: Event): Diff {
    MakeDiff(Get(wp, Nil), Get(wp, Nil) + e)
  }

  function DryAdd(wp: Watchpoint, c: Chan, e: Event): Diff {
    var total := Get(wp, c) - INTERNAL;
    if e - INTERNAL <= Get(wp, c) then NONE else Diff(total, total + (e - INTERNAL))
  }

  /** The entries left after taking e from c, without the cache. */
  function Remaining(wp: Watchpoint, c: Chan, e: Event): Watchpoint {
    var left := Get(wp, c) - e;
    (if left == {} then wp - {c} else wp[c := left]) - {Nil}
  }

  function DelFrom(wp: Watchpoint, c: Chan, e: Event): Watchpoint {
    var rest := Remaining(wp, c, e);
    if rest == map[] then rest else rest[Nil := Union(rest) - OMIT]
  }

  function DelDiff(wp: Watchpoint, c: Chan, e: Event): Diff {
    MakeDiff(Get(wp, Nil), Union(Remaining(wp, c, e)))
  }

  /** The cache is the union of the event sets without the omit bit, and is there exactly when
      something is registered. */
  ghost predicate Cached(wp: Watchpoint) {
    if Nil in wp then wp.Keys != {Nil} && wp[Nil] == Union(wp) - OMIT else wp == map[]
  }

  lemma AddKeepsCache(wp: Watchpoint, c: Chan, e: Event)
    requires Cached(wp) && c != Nil
    ensures Cached(AddTo(wp, c, e))
    ensures Total(AddTo(wp, c, e)) == Total(wp) + (e - INTERNAL)
    ensures Tells(AddDiff(wp, e), Total(wp), Total(AddTo(wp, c, e)))
  {
    var more := AddTo(wp, c, e);
    assert c in more.Keys;
    forall b ensures b in Union(more) <==> b in Union(wp) + e {
      if b in e { assert b in more[c]; }
      if d :| d in wp && d != Nil && b in wp[d] { assert b in more[d]; }
    }
  }

  lemma DelKeepsCache(wp: Watchpoint, c: Chan, e: Event)
    requires c != Nil
    ensures Cached(DelFrom(wp, c, e)) && Union(DelFrom(wp, c, e)) == Union(Remaining(wp, c, e))
    ensures Total(DelFrom(wp, c, e)) == Union(Remaining(wp, c, e)) - INTERNAL
    ensures Tells(DelDiff(wp, c, e), Total(wp), Total(DelFrom(wp, c, e)))
  {
    var rest := Remaining(wp, c, e);
    var less := DelFrom(wp, c, e);
    if rest != map[] {
      assert rest.Keys != {};
      var d :| d in rest.Keys;
      assert d in less.Keys && d != Nil;
      assert forall k :: k in rest <==> k in less && k != Nil;
    }
  }

  // ---------------------------------------------------------------- removing a channel

  /** What the tree's own channel keeps of its events when the total shrinks by diff. */
  function Surviving(had: Event, diff: Diff): Event {
    had - (diff.before - diff.after)
  }

  /** Taking the tree's own channel off a node where it asks for nothing. */
  function WithoutRec(wp: Watchpoint): Watchpoint {
    var bare := wp - {Rec};
    if bare.Keys == {Nil} && bare[Nil] == {} then map[] else bare
  }

  datatype Deletion = Deletion(wp: Watchpoint, diff: Diff)

  /** watchDelMin: takes e from channel c. If the tree's own channel is registered it falls back to
      min, what the parent directory demands, plus whatever is still in use. */
  function DelMin(min: Event, wp: Watchpoint, c: Chan, e: Event): Deletion {
    if Rec !in wp then Deletion(DelFrom(wp, c, e), DelDiff(wp, c, e))
    else
      var lowered := wp[Rec := min];
      var deleted := DelFrom(lowered, c, e);
      var diff := DelDiff(lowered, c, e);
      var kept := Surviving(wp[Rec], diff);
      if kept <= INTERNAL then Deletion(WithoutRec(deleted), diff)
      else
        var raised := AddTo(deleted, Rec, kept + CREATE);
        Deletion(raised,
          if diff == NONE then NONE
          else if diff.after + CREATE == diff.before then NONE
          else Diff(diff.before, diff.after + CREATE))
  }

  /** Every node of a tree: the cache is right, and the tree's own channel, where registered, always
      asks for creations and is marked internal, while users' channels are not. */
  ghost predicate NodeInv(wp: Watchpoint) {
    && Cached(wp)
    && (Rec in wp ==> CREATE + OMIT <= wp[Rec])
    && (forall u: nat :: User(u) in wp ==> wp[User(u)] !! OMIT)
  }

  /** What a parent may demand of a child: nothing, or what its own internal channel asks for. */
  ghost predicate Demand(min: Event) {
    min == {} || CREATE + OMIT <= min
  }

  /** The channels other than the cache and the tree's own. */
  function Users(wp: Watchpoint): set<Chan> {
    set c | c in wp && c.User?
  }

  /** Taking everything from a user's channel, before the tree's own channel is put right. */
  lemma LoweredFacts(min: Event, wp: Watchpoint, c: Chan)
    requires NodeInv(wp) && Rec in wp && c.User?
    ensures var deleted := DelFrom(wp[Rec := min], c, ALL);
            && deleted.Keys == (wp.Keys - {c}) + {Nil} && deleted[Rec] == min
            && (forall k :: k in wp && k != c && k != Nil && k != Rec ==> deleted[k] == wp[k])
            && min <= Union(deleted)
            && Cached(deleted)
  {
    var lowered := wp[Rec := min];
    var deleted := DelFrom(lowered, c, ALL);
    DelKeepsCache(lowered, c, ALL);
    assert Get(lowered, c) - ALL == {};
    assert Rec in Remaining(lowered, c, ALL).Keys;
    assert Rec in deleted && deleted[Rec] == min;
  }

  lemma RecWithinTotal(wp: Watchpoint)
    requires NodeInv(wp) && Rec in wp
    ensures wp[Rec] - INTERNAL <= Total(wp) && Nil in wp
  {
    assert wp[Rec] <= Union(wp);
  }

  lemma RecMeansTotal(wp: Watchpoint)
    requires NodeInv(wp) && Rec in wp
    ensures Total(wp) != {}
  {
    var bit: Bit := 20;
    RecWithinTotal(wp);
    assert bit in CREATE && bit in wp[Rec] - INTERNAL;
  }

  lemma EmptySetsDoNotCount(wp: Watchpoint, c: Chan)
    requires c in wp && wp[c] == {}
    ensures Union(wp - {c}) == Union(wp)
  {
    assert forall k :: k in wp - {c} ==> k in wp && (wp - {c})[k] == wp[k];
    assert forall k :: k in wp && k != c ==> k in wp - {c};
  }

  lemma WithoutRecNode(wp: Watchpoint)
    requires Cached(wp) && Rec in wp && wp[Rec] == {}
    requires forall u: nat :: User(u) in wp ==> wp[User(u)] !! OMIT
    ensures var w := WithoutRec(wp);
            && NodeInv(w) && Total(w) == Total(wp) && Rec !in w
            && Users(w) == Users(wp) && (forall k :: k in Users(w) ==> w[k] == wp[k])
  {
    var bare := wp - {Rec};
    EmptySetsDoNotCount(wp, Rec);
    if bare.Keys == {Nil} {
      assert Union(bare) == {};
      assert bare[Nil] == {};
      assert forall k :: k in wp ==> k in bare.Keys || k == Rec;
      assert Users(wp) == {};
    }
  }

  /** If the tree's own channel keeps nothing, its parent demands nothing. */
  lemma NothingDemanded(min: Event, wp: Watchpoint, c: Chan)
    requires NodeInv(wp) && Rec in wp && c.User? && Demand(min)
    requires Surviving(wp[Rec], DelDiff(wp[Rec := min], c, ALL)) <= INTERNAL
    ensures min == {}
  {
    var lowered := wp[Rec := min];
    var diff := DelDiff(lowered, c, ALL);
    LoweredFacts(min, wp, c);
    DelKeepsCache(lowered, c, ALL);
    var bit: Bit := 20;
    assert bit in wp[Rec] by { assert bit in CREATE; }
    assert bit !in Surviving(wp[Rec], diff);
    assert bit !in diff.after;
    assert bit !in min;
  }

  /** Case one of watchDelMin: nothing of the tree's own channel is in use any more. */
  lemma DropRec(min: Event, wp: Watchpoint, c: Chan)
    requires NodeInv(wp) && Rec in wp && c.User? && Demand(min)
    requires Surviving(wp[Rec], DelDiff(wp[Rec := min], c, ALL)) <= INTERNAL
    ensures min == {}
    ensures var d := DelMin(min, wp, c, ALL);
            && NodeInv(d.wp) && d.diff == DelDiff(wp[Rec := min], c, ALL)
            && Total(d.wp) == Total(DelFrom(wp[Rec := min], c, ALL)) && Rec !in d.wp
            && Users(d.wp) == Users(wp) - {c} && (forall k :: k in Users(d.wp) ==> d.wp[k] == wp[k])
  {
    NothingDemanded(min, wp, c);
    LoweredFacts(min, wp, c);
    WithoutRecNode(DelFrom(wp[Rec := min], c, ALL));
    DelMinDrops(min, wp, c);
  }

  lemma DelMinDrops(min: Event, wp: Watchpoint, c: Chan)
    requires Rec in wp && Surviving(wp[Rec], DelDiff(wp[Rec := min], c, ALL)) <= INTERNAL
    ensures DelMin(min, wp, c, ALL) ==
            Deletion(WithoutRec(DelFrom(wp[Rec := min], c, ALL)), DelDiff(wp[Rec := min], c, ALL))
  {
  }

  /** What survives was part of the new total already, but for the creations bit. */
  lemma KeptTotal(had: Event, before: Event, after: Event, diff: Diff)
    requires had - INTERNAL <= before && CREATE <= had && Tells(diff, before, after)
    requires before !! INTERNAL && after !! INTERNAL
    ensures Surviving(had, diff) - INTERNAL <= after
    ensures diff == NONE ==> after + ((Surviving(had, diff) + CREATE) - INTERNAL) == before
    ensures after + ((Surviving(had, diff) + CREATE) - INTERNAL) == after + CREATE
  {
  }

  lemma KeepRecNode(min: Event, wp: Watchpoint, c: Chan, deleted: Watchpoint, kept: Event)
    requires NodeInv(wp) && Rec in wp && c.User? && Demand(min) && deleted == DelFrom(wp[Rec := min], c, ALL)
    requires kept == Surviving(wp[Rec], DelDiff(wp[Rec := min], c, ALL))
    ensures var raised := AddTo(deleted, Rec, kept + CREATE);
            && NodeInv(raised) && Rec in raised
            && Users(raised) == Users(wp) - {c} && (forall k :: k in Users(raised) ==> raised[k] == wp[k])
  {
    LoweredFacts(min, wp, c);
    DelKeepsCache(wp[Rec := min], c, ALL);
    assert Get(wp[Rec := min], Nil) == Get(wp, Nil);
    KeptOmit(wp[Rec], DelDiff(wp[Rec := min], c, ALL), Total(wp));
    RaisedNode(deleted, kept + CREATE, min);
  }

  lemma KeepRecTotal(min: Event, wp: Watchpoint, c: Chan, deleted: Watchpoint, diff: Diff)
    requires NodeInv(wp) && Rec in wp && c.User? && Demand(min)
    requires deleted == DelFrom(wp[Rec := min], c, ALL) && diff == DelDiff(wp[Rec := min], c, ALL)
    ensures Tells(diff, Total(wp), Total(deleted))
    ensures Total(AddTo(deleted, Rec, Surviving(wp[Rec], diff) + CREATE)) == Total(deleted) + CREATE
    ensures diff == NONE ==> Total(deleted) + CREATE == Total(wp)
  {
    LoweredFacts(min, wp, c);
    DelKeepsCache(wp[Rec := min], c, ALL);
    RecWithinTotal(wp);
    assert Get(wp[Rec := min], Nil) == Get(wp, Nil);
    AddKeepsCache(deleted, Rec, Surviving(wp[Rec], diff) + CREATE);
    KeptTotal(wp[Rec], Total(wp), Total(deleted), diff);
  }

  /** Case two of watchDelMin: the tree's own channel stays. */
  lemma KeepRec(min: Event, wp: Watchpoint, c: Chan)
    requires NodeInv(wp) && Rec in wp && c.User? && Demand(min)
    requires !(Surviving(wp[Rec], DelDiff(wp[Rec := min], c, ALL)) <= INTERNAL)
    ensures var d := DelMin(min, wp, c, ALL);
            && NodeInv(d.wp) && Rec in d.wp
            && Tells(d.diff, Total(wp), Total(d.wp))
            && Users(d.wp) == Users(wp) - {c} && (forall k :: k in Users(d.wp) ==> d.wp[k] == wp[k])
  {
    var deleted := DelFrom(wp[Rec := min], c, ALL);
    var diff := DelDiff(wp[Rec := min], c, ALL);
    var kept := Surviving(wp[Rec], diff);
    KeepRecNode(min, wp, c, deleted, kept);
    KeepRecTotal(min, wp, c, deleted, diff);
    RaisedDiff(diff, Total(wp), Total(deleted));
  }

  lemma KeepRecDemand(min: Event, wp: Watchpoint, c: Chan)
    requires NodeInv(wp) && Rec in wp && c.User?
    requires !(Surviving(wp[Rec], DelDiff(wp[Rec := min], c, ALL)) <= INTERNAL)
    ensures min <= Get(DelMin(min, wp, c, ALL).wp, Rec)
  {
    LoweredFacts(min, wp, c);
  }

  lemma KeptOmit(had: Event, diff: Diff, before: Event)
    requires OMIT <= had && before !! INTERNAL && (diff == NONE || diff.before == before)
    ensures OMIT <= Surviving(had, diff)
  {
  }

  /** Adding the tree's own channel back. */
  lemma RaisedNode(wp: Watchpoint, e: Event, min: Event)
    requires Cached(wp) && Rec in wp && CREATE + OMIT <= e && Demand(min) && wp[Rec] == min
    requires forall u: nat :: User(u) in wp ==> wp[User(u)] !! OMIT
    ensures NodeInv(AddTo(wp, Rec, e)) && Users(AddTo(wp, Rec, e)) == Users(wp)
    ensures forall k :: k in Users(wp) ==> AddTo(wp, Rec, e)[k] == wp[k]
  {
    AddKeepsCache(wp, Rec, e);
  }

  lemma RaisedDiff(diff: Diff, before: Event, after: Event)
    requires Tells(diff, before, after) && (diff == NONE ==> after + CREATE == before)
    ensures Tells(if diff == NONE || diff.after + CREATE == diff.before then NONE
                  else Diff(diff.before, diff.after + CREATE),
                  before, after + CREATE)
  {
    if diff != NONE && after + CREATE != before {
      var bit: Bit := 20;
      assert bit in CREATE;
      assert Diff(before, after + CREATE).after != {};
    }
  }

  /** Removing a user's channel from a node keeps the node right, and the diff handed to the OS layer
      tells the true change of the total. */
  lemma DelMinSound(min: Event, wp: Watchpoint, c: Chan)
    requires NodeInv(wp) && Demand(min) && c.User?
    ensures var d := DelMin(min, wp, c, ALL);
            && NodeInv(d.wp) && Tells(d.diff, Total(wp), Total(d.wp))
            && Users(d.wp) == Users(wp) - {c} && (forall k :: k in Users(d.wp) ==> d.wp[k] == wp[k])
            && (min == {} && Users(wp) <= {c} ==> d.wp == map[])
            && (Total(wp) == {} ==> d.diff == NONE)
            && (if Rec in wp then min <= Get(d.wp, Rec) else Rec !in d.wp)
  {
    if Rec !in wp {
      DelKeepsCache(wp, c, ALL);
      DelPlain(wp, c);
    } else {
      RecMeansTotal(wp);
      DelKeepsCache(wp[Rec := min], c, ALL);
      if Surviving(wp[Rec], DelDiff(wp[Rec := min], c, ALL)) <= INTERNAL {
        DropRec(min, wp, c);
        OnlyUsersLeft(min, wp, c);
      } else {
        KeepRec(min, wp, c);
        KeepRecDemand(min, wp, c);
        if min == {} && Users(wp) <= {c} {
          NothingSurvives(min, wp, c);
        }
      }
    }
  }

  /** What another user k still asks for survives in the tree's own channel. */
  lemma DelMinKeepsCovered(min: Event, wp: Watchpoint, c: Chan, k: Chan, e: Event)
    requires NodeInv(wp) && Demand(min) && c.User? && k.User? && k != c
    requires e <= Get(wp, k) && e - INTERNAL <= Get(wp, Rec)
    ensures e - INTERNAL <= Get(DelMin(min, wp, c, ALL).wp, Rec)
  {
    if Rec in wp {
      var lowered := wp[Rec := min];
      var diff := DelDiff(lowered, c, ALL);
      LoweredFacts(min, wp, c);
      DelKeepsCache(lowered, c, ALL);
      if k in wp {
        assert DelFrom(lowered, c, ALL)[k] == wp[k];
        assert wp[k] <= Union(DelFrom(lowered, c, ALL));
      }
      StillNeeded(wp[Rec], e, diff, Union(Remaining(lowered, c, ALL)));
      DelMinKeeps(min, wp, c);
    }
  }

  lemma StillNeeded(had: Event, e: Event, diff: Diff, sum: Event)
    requires e - INTERNAL <= had && e <= sum
    requires diff == NONE || diff.after == sum - INTERNAL
    ensures e - INTERNAL <= Surviving(had, diff)
  {
  }

  lemma DelMinKeeps(min: Event, wp: Watchpoint, c: Chan)
    requires Rec in wp
    ensures var kept := Surviving(wp[Rec], DelDiff(wp[Rec := min], c, ALL));
            kept <= INTERNAL || kept <= Get(DelMin(min, wp, c, ALL).wp, Rec)
  {
  }

  // ---------------------------------------------------------------- what is still needed

  /** What the users of a node ask for. */
  function UserEvents(wp: Watchpoint): Event {
    set c, b | c in wp && c.User? && b in wp[c] :: b
  }

  /** What is left of a node when a user is gone and its parent demands min: the tree's own channel stays
      exactly if something of it is still in use, and the total is what the users ask for, what the parent
      demands, and creations if the tree's own channel stays. */
  ghost predicate Needed(was: Watchpoint, now: Watchpoint, min: Event) {
    && (Rec in now <==> Rec in was && (was[Rec] * (min + UserEvents(now))) - INTERNAL != {})
    && Total(now) == ((if Rec in now then min + CREATE else {}) + UserEvents(now)) - INTERNAL
    && (Rec in now ==> now[Rec] - INTERNAL <= min + CREATE + UserEvents(now))
  }

  lemma UnionParts(wp: Watchpoint)
    ensures Union(wp) == Get(wp, Rec) + UserEvents(wp)
  {
    forall b ensures b in Union(wp) <==> b in Get(wp, Rec) + UserEvents(wp) {
      if b in Union(wp) {
        var c :| c in wp && c != Nil && b in wp[c];
        assert c == Rec || c.User?;
      }
    }
  }

  lemma SameUserEvents(a: Watchpoint, b: Watchpoint)
    requires Users(a) == Users(b) && forall k :: k in Users(a) ==> a[k] == b[k]
    ensures UserEvents(a) == UserEvents(b)
  {
    assert forall k :: k in a && k.User? <==> k in Users(a);
    assert forall k :: k in b && k.User? <==> k in Users(b);
  }

  /** What survives is what is still in use. */
  lemma SurvivingIsUsed(had: Event, before: Event, after: Event, diff: Diff)
    requires had - INTERNAL <= before && Tells(diff, before, after) && before !! INTERNAL
    ensures Surviving(had, diff) - INTERNAL == (had * after) - INTERNAL
  {
  }

  lemma LoweredTotal(min: Event, wp: Watchpoint, c: Chan)
    requires NodeInv(wp) && Rec in wp && c.User? && Demand(min)
    ensures var deleted := DelFrom(wp[Rec := min], c, ALL);
            && Total(deleted) == (min + UserEvents(deleted)) - INTERNAL
            && Users(deleted) == Users(wp) - {c} && (forall k :: k in Users(deleted) ==> deleted[k] == wp[k])
            && Surviving(wp[Rec], DelDiff(wp[Rec := min], c, ALL)) - INTERNAL
               == (wp[Rec] * (min + UserEvents(deleted))) - INTERNAL
  {
    var lowered := wp[Rec := min];
    var deleted := DelFrom(lowered, c, ALL);
    LoweredFacts(min, wp, c);
    DelKeepsCache(lowered, c, ALL);
    UnionParts(deleted);
    RecWithinTotal(wp);
    assert Get(lowered, Nil) == Get(wp, Nil);
    SurvivingIsUsed(wp[Rec], Total(wp), Total(deleted), DelDiff(lowered, c, ALL));
  }

  lemma DelMinNeeds(min: Event, wp: Watchpoint, c: Chan)
    requires NodeInv(wp) && Demand(min) && c.User?
    ensures Needed(wp, DelMin(min, wp, c, ALL).wp, min)
  {
    var now := DelMin(min, wp, c, ALL).wp;
    if Rec !in wp {
      DelKeepsCache(wp, c, ALL);
      UnionParts(now);
    } else {
      var kept := Surviving(wp[Rec], DelDiff(wp[Rec := min], c, ALL));
      LoweredTotal(min, wp, c);
      if kept <= INTERNAL {
        DropNeeds(min, wp, c);
      } else {
        KeepNeeds(min, wp, c);
      }
    }
  }

  lemma DropNeeds(min: Event, wp: Watchpoint, c: Chan)
    requires NodeInv(wp) && Rec in wp && c.User? && Demand(min)
    requires Surviving(wp[Rec], DelDiff(wp[Rec := min], c, ALL)) <= INTERNAL
    ensures Needed(wp, DelMin(min, wp, c, ALL).wp, min)
  {
    var deleted, now := DelFrom(wp[Rec := min], c, ALL), DelMin(min, wp, c, ALL).wp;
    DropRec(min, wp, c);
    LoweredTotal(min, wp, c);
    SameUserEvents(now, deleted);
  }

  lemma KeepNeeds(min: Event, wp: Watchpoint, c: Chan)
    requires NodeInv(wp) && Rec in wp && c.User? && Demand(min)
    requires !(Surviving(wp[Rec], DelDiff(wp[Rec := min], c, ALL)) <= INTERNAL)
    ensures Needed(wp, DelMin(min, wp, c, ALL).wp, min)
  {
    var deleted, now := DelFrom(wp[Rec := min], c, ALL), DelMin(min, wp, c, ALL).wp;
    var kept := Surviving(wp[Rec], DelDiff(wp[Rec := min], c, ALL));
    LoweredFacts(min, wp, c);
    LoweredTotal(min, wp, c);
    KeepRec(min, wp, c);
    KeepRecTotal(min, wp, c, deleted, DelDiff(wp[Rec := min], c, ALL));
    SameUserEvents(now, deleted);
    assert now == AddTo(deleted, Rec, kept + CREATE) && now[Rec] == min + (kept + CREATE);
    KeptEvents(min, UserEvents(deleted), wp[Rec], kept);
  }

  lemma KeptEvents(min: Event, users: Event, had: Event, kept: Event)
    requires kept - INTERNAL == (had * (min + users)) - INTERNAL && !(kept <= INTERNAL)
    ensures (had * (min + users)) - INTERNAL != {}
    ensures (min + (kept + CREATE)) - INTERNAL <= min + CREATE + users
    ensures ((min + users) - INTERNAL) + CREATE == ((min + CREATE) + users) - INTERNAL
  {
    var b :| b in kept && b !in INTERNAL;
    assert b in kept - INTERNAL;
    assert CREATE !! INTERNAL;
    forall x | x in min + (kept + CREATE) && x !in INTERNAL ensures x in min + CREATE + users {
      assert x in kept ==> x in kept - INTERNAL;
    }
  }

  lemma DelPlain(wp: Watchpoint, c: Chan)
    requires NodeInv(wp) && Rec !in wp && c.User?
    ensures var d := DelFrom(wp, c, ALL);
            && NodeInv(d) && Users(d) == Users(wp) - {c} && (forall k :: k in Users(d) ==> d[k] == wp[k])
            && (Users(wp) <= {c} ==> d == map[])
            && Total(d) <= Total(wp)
  {
    var rest := Remaining(wp, c, ALL);
    DelKeepsCache(wp, c, ALL);
    assert Get(wp, c) - ALL == {};
    assert rest == wp - {c} - {Nil};
    if Users(wp) <= {c} {
      assert rest.Keys == {};
    }
  }

  /** A node without further users that nobody demands anything of is emptied. */
  lemma OnlyUsersLeft(min: Event, wp: Watchpoint, c: Chan)
    requires NodeInv(wp) && Rec in wp && c.User? && Demand(min)
    requires Surviving(wp[Rec], DelDiff(wp[Rec := min], c, ALL)) <= INTERNAL
    ensures Users(wp) <= {c} ==> DelMin(min, wp, c, ALL).wp == map[]
  {
    DropRec(min, wp, c);
    if Users(wp) <= {c} {
      NothingRegistered(DelMin(min, wp, c, ALL).wp);
    }
  }

  lemma NothingRegistered(wp: Watchpoint)
    requires Cached(wp) && Rec !in wp && Users(wp) == {}
    ensures wp == map[]
  {
    assert wp.Keys <= {Nil};
    assert wp.Keys == {} || wp.Keys == {Nil};
  }

  /** If no user is left and nothing is demanded, nothing survives. */
  lemma NothingSurvives(min: Event, wp: Watchpoint, c: Chan)
    requires NodeInv(wp) && Rec in wp && c.User? && min == {} && Users(wp) <= {c}
    ensures Surviving(wp[Rec], DelDiff(wp[Rec := min], c, ALL)) <= INTERNAL
  {
    var lowered := wp[Rec := min];
    var deleted := DelFrom(lowered, c, ALL);
    LoweredFacts(min, wp, c);
    DelKeepsCache(lowered, c, ALL);
    RecWithinTotal(wp);
    assert Get(lowered, Nil) == Get(wp, Nil);
    forall k | k in deleted && k != Nil ensures deleted[k] == {} {
      assert k == Rec;
    }
    assert Union(deleted) == {};
    NothingKept(wp[Rec], Total(wp), DelDiff(lowered, c, ALL));
  }

  lemma NothingKept(had: Event, before: Event, diff: Diff)
    requires had - INTERNAL <= before && Tells(diff, before, {})
    ensures Surviving(had, diff) <= INTERNAL
  {
    assert forall b :: b in had && b !in INTERNAL ==> b in before;
  }

  // ---------------------------------------------------------------- dispatch at one node

  /** A match needs the event to be in the set and both or neither to be marked internal. */
  predicate Matches(eset: Event, e: Event) {
    eset * OMIT == e * OMIT && e <= eset
  }

  /** Who is offered event e: nobody, if the cached union rules it out. */
  function Offered(wp: Watchpoint, e: Event): set<Chan> {
    if !Matches(Get(wp, Nil), e) then {} else set c | c in wp && c != Nil && Matches(wp[c], e)
  }

  /** The test of the cached union never suppresses a match: a user event goes to exactly the user
      channels whose set includes it, and never to the tree's own channel. */
  lemma OfferIsExact(wp: Watchpoint, e: Event)
    requires NodeInv(wp) && e !! OMIT
    ensures Offered(wp, e) == set c | c in Users(wp) && e <= wp[c]
  {
    forall c | c in Users(wp) && e <= wp[c] ensures c in Offered(wp, e) {
      assert wp[c] <= Union(wp);
      assert e <= Union(wp) - OMIT;
      assert Get(wp, Nil) * OMIT == {};
    }
    forall c | c in Offered(wp, e) ensures c in Users(wp) {
      var bit: Bit := 25;
      assert bit in OMIT;
      assert bit !in e * OMIT;
      assert bit !in wp[c] * OMIT;
    }
  }

  // ---------------------------------------------------------------- the code

  /** Strips the internal events off a diff. */
  method StripDiff(before: Event, after: Event) returns (diff: Diff)
    ensures diff == MakeDiff(before, after)
  {
    diff := Diff(before - INTERNAL, after - INTERNAL);
    if diff.before == diff.after {
      diff := NONE;
    }
  }

  /** The loop of watchpoint.Del over what is left, in whatever order the map is walked. */
  method Recalculate(wp: Watchpoint) returns (sum: Event)
    requires Nil !in wp
    ensures sum == Union(wp)
  {
    sum := {};
    var todo := wp.Keys;
    while todo != {}
      invariant todo <= wp.Keys
      invariant sum == set c, b | c in wp && c !in todo && b in wp[c] :: b
      decreases todo
    {
      var c :| c in todo;
      todo := todo - {c};
      sum := sum + wp[c];
    }
  }

  /** watchpoint.Dispatch: the channels the event is offered to, each once. */
  method DispatchEvent(wp: Watchpoint, e: Event) returns (sent: seq<Chan>)
    ensures forall c :: c in sent <==> c in Offered(wp, e)
    ensures forall i, j :: 0 <= i < j < |sent| ==> sent[i] != sent[j]
  {
    sent := [];
    if !Matches(Get(wp, Nil), e) {
      return;
    }
    var todo := wp.Keys;
    while todo != {}
      invariant todo <= wp.Keys
      invariant forall d :: d in sent <==> d in wp && d !in todo && d != Nil && Matches(wp[d], e)
      invariant forall i, j :: 0 <= i < j < |sent| ==> sent[i] != sent[j]
      decreases todo
    {
      var c :| c in todo;
      todo := todo - {c};
      if c != Nil && Matches(wp[c], e) {
        sent := sent + [c];
      }
    }
  }

  /** What watchpoint.Del computes from the entries left. */
  lemma DelParts(wp: Watchpoint, c: Chan, e: Event, rest: Watchpoint)
    requires rest == Remaining(wp, c, e)
    ensures DelDiff(wp, c, e) == MakeDiff(Get(wp, Nil), Union(rest))
    ensures if |rest| == 0 then DelFrom(wp, c, e) == rest && Union(rest) == {}
            else DelFrom(wp, c, e) == rest[Nil := Union(rest) - OMIT]
  {
    if |rest| == 0 {
      assert rest == map[];
    }
  }

  lemma SingleKey(wp: Watchpoint, c: Chan)
    requires |wp| == 1 && c in wp
    ensures wp.Keys == {c}
  {
    assert |wp.Keys - {c}| == 0;
  }
}
