/** Below the tracking limit every path is its own little automaton: paths do not interfere. */
module Independence {
  import opened Accumulation
  import opened Runs

  datatype Entry = Untracked | FromSyncthing(time: int) | FromFileSystem(time: int)

  /** What a path sees of the events: its own, and the flushes. Announcements that find no room are not
      seen at all, changes are seen with whether there is room, and a flush that finds too many paths
      scans everything instead of what is due. */
  datatype PathEvent = Started(now: int) | Finished | Changed(now: int, room: bool)
    | Flushed(now: int, look: int, ok: bool) | Overflowed(ok: bool) | Elsewhere

  function EntryOf(s: State, p: string): Entry {
    if p !in s.inProgress then Untracked
    else if s.inProgress[p].fsEvent then FromFileSystem(s.inProgress[p].time)
    else FromSyncthing(s.inProgress[p].time)
  }

  function View(cfg: Config, size: nat, e: Event, p: string): PathEvent {
    match e
    case StEvent(now, path, finished) =>
      if path != p then Elsewhere
      else if finished then Finished
      else if size > cfg.maxFiles then Elsewhere
      else Started(now)
    case FsEvent(now, path) => if path != p then Elsewhere else Changed(now, size <= cfg.maxFiles)
    case FlushEvent(now, _, look, _, ok) => if size < cfg.maxFiles then Flushed(now, look(p), ok) else Overflowed(ok)
  }

  /** The automaton of one path. A change announced by Syncthing cancels the next change seen on
      disk, room or not; a flush forgets expired announcements and reports changes older than the
      interval, and one that scans everything reports all changes and forgets no announcement. */
  function Advance(cfg: Config, entry: Entry, e: PathEvent): Entry {
    match e
    case Started(now) => FromSyncthing(now)
    case Finished => Untracked
    case Changed(now, room) =>
      if entry.FromSyncthing? then Untracked else if room then FromFileSystem(now) else entry
    case Flushed(now, look, ok) =>
      if entry.FromSyncthing? && entry.time < now - 10 * cfg.debounceTimeout then Untracked
      else if entry.FromFileSystem? && ok && look - entry.time > cfg.debounceTimeout then Untracked
      else entry
    case Overflowed(ok) => if entry.FromFileSystem? && ok then Untracked else entry
    case Elsewhere => entry
  }

  lemma StepIsAdvance(cfg: Config, s: State, e: Event, p: string)
    requires Sound(cfg) && Inv(cfg, s) && p != ""
    ensures EntryOf(Step(cfg, s, e), p) == Advance(cfg, EntryOf(s, p), View(cfg, |s.inProgress|, e, p))
  {
    match e {
      case StEvent(now, path, finished) => StIsAdvance(cfg, Rearm(s), now, path, finished, p);
      case FsEvent(now, path) => FsIsAdvance(cfg, Rearm(s), now, path, p);
      case FlushEvent(_, _, _, _, _) => FlushIsAdvance(cfg, Rearm(s), e, p);
    }
  }

  lemma StIsAdvance(cfg: Config, s: State, now: int, path: string, finished: bool, p: string)
    requires p != ""
    ensures EntryOf(OnSt(cfg, s, now, path, finished), p) ==
            Advance(cfg, EntryOf(s, p), View(cfg, |s.inProgress|, StEvent(now, path, finished), p))
  {
  }

  lemma FsIsAdvance(cfg: Config, s: State, now: int, path: string, p: string)
    requires p != ""
    ensures EntryOf(OnFs(cfg, s, now, path), p) ==
            Advance(cfg, EntryOf(s, p), View(cfg, |s.inProgress|, FsEvent(now, path), p))
  {
  }

  lemma FlushIsAdvance(cfg: Config, s: State, e: Event, p: string)
    requires Sound(cfg) && Inv(cfg, s) && p != "" && e.FlushEvent?
    ensures EntryOf(OnFlush(cfg, s, e), p) == Advance(cfg, EntryOf(s, p), View(cfg, |s.inProgress|, e, p))
  {
    var t := Remind(cfg, s.(needsReset := true, clock := e.now), e.now);
    if t.inProgress != map[] {
      if |t.inProgress| < cfg.maxFiles {
        PathsAdvance(cfg, t, e, p);
      } else {
        AllAdvance(cfg, t, e, p);
      }
    }
  }

  lemma PathsAdvance(cfg: Config, s: State, e: Event, p: string)
    requires Sound(cfg) && Inv(cfg, s) && p != "" && e.FlushEvent?
    ensures EntryOf(FlushPaths(cfg, s, e), p) == Advance(cfg, EntryOf(s, p), Flushed(e.now, e.look(p), e.ok))
  {
    FlushedMap(cfg, s, e);
    assert p in DueNow(s, e) <==> EntryOf(s, p).FromFileSystem? && e.look(p) - EntryOf(s, p).time > cfg.debounceTimeout;
  }

  lemma AllAdvance(cfg: Config, s: State, e: Event, p: string)
    requires e.FlushEvent?
    ensures EntryOf(FlushAll(cfg, s, e), p) == Advance(cfg, EntryOf(s, p), Overflowed(e.ok))
  {
  }

  lemma FlushedMap(cfg: Config, s: State, e: Event)
    requires Sound(cfg) && Inv(cfg, s) && e.FlushEvent?
    ensures var kept := Kept(cfg, s.inProgress, e.now);
            FlushPaths(cfg, s, e).inProgress == if e.ok then kept - DueNow(s, e) else kept
  {
    DueAggregate(cfg, s, e);
  }

  /** The program on proper events. */
  ghost predicate ProperRun(cfg: Config, start: int, es: seq<Event>, ss: seq<State>) {
    Sound(cfg) && IsRun(cfg, start, es, ss) && ProperEvents(es)
  }

  lemma RunAdvances(cfg: Config, start: int, es: seq<Event>, ss: seq<State>, p: string, n: nat)
    requires ProperRun(cfg, start, es, ss) && p != "" && n < |es|
    ensures EntryOf(ss[n + 1], p) == Advance(cfg, EntryOf(ss[n], p), View(cfg, |ss[n].inProgress|, es[n], p))
  {
    RunKeepsInv(cfg, start, es, ss, n);
    StepIsAdvance(cfg, ss[n], es[n], p);
  }

  /** The first n events a path takes part in, in order. */
  function Project(cfg: Config, es: seq<Event>, ss: seq<State>, p: string, n: nat): seq<PathEvent>
    requires n <= |es| <= |ss|
  {
    if n == 0 then []
    else
      var rest := Project(cfg, es, ss, p, n - 1);
      var last := View(cfg, |ss[n - 1].inProgress|, es[n - 1], p);
      if last == Elsewhere then rest else rest + [last]
  }

  function AdvanceAll(cfg: Config, entry: Entry, pes: seq<PathEvent>): Entry {
    if pes == [] then entry else Advance(cfg, AdvanceAll(cfg, entry, pes[..|pes| - 1]), pes[|pes| - 1])
  }

  lemma AdvanceOne(cfg: Config, es: seq<Event>, ss: seq<State>, p: string, n: nat)
    requires 0 < n <= |es| <= |ss|
    ensures AdvanceAll(cfg, Untracked, Project(cfg, es, ss, p, n))
         == Advance(cfg, AdvanceAll(cfg, Untracked, Project(cfg, es, ss, p, n - 1)),
                    View(cfg, |ss[n - 1].inProgress|, es[n - 1], p))
  {
    var rest := Project(cfg, es, ss, p, n - 1);
    assert (rest + [View(cfg, |ss[n - 1].inProgress|, es[n - 1], p)])[..|rest|] == rest;
  }

  ghost predicate AdvancesAt(cfg: Config, es: seq<Event>, ss: seq<State>, p: string, n: nat) {
    n < |es| < |ss| ==>
      EntryOf(ss[n + 1], p) == Advance(cfg, EntryOf(ss[n], p), View(cfg, |ss[n].inProgress|, es[n], p))
  }

  lemma {:induction false} StepsAreAutomaton(cfg: Config, es: seq<Event>, ss: seq<State>, p: string, n: nat)
    requires n <= |es| < |ss| && EntryOf(ss[0], p) == Untracked
    requires forall m: nat {:trigger AdvancesAt(cfg, es, ss, p, m)} :: AdvancesAt(cfg, es, ss, p, m)
    ensures EntryOf(ss[n], p) == AdvanceAll(cfg, Untracked, Project(cfg, es, ss, p, n))
  {
    if n > 0 {
      StepsAreAutomaton(cfg, es, ss, p, n - 1);
      assert AdvancesAt(cfg, es, ss, p, n - 1);
      AdvanceOne(cfg, es, ss, p, n);
    }
  }

  /** The entry of a path is what its automaton makes of its own events. */
  lemma RunIsAutomaton(cfg: Config, start: int, es: seq<Event>, ss: seq<State>, p: string, n: nat)
    requires ProperRun(cfg, start, es, ss) && p != "" && n <= |es|
    ensures EntryOf(ss[n], p) == AdvanceAll(cfg, Untracked, Project(cfg, es, ss, p, n))
  {
    forall m: nat ensures AdvancesAt(cfg, es, ss, p, m) {
      if m < |es| {
        RunAdvances(cfg, start, es, ss, p, m);
      }
    }
    StepsAreAutomaton(cfg, es, ss, p, n);
  }

  /** Non-interference: two runs that agree on what a path sees agree on its entry, however
      different everything else is. */
  lemma PathsDoNotInterfere(cfg: Config, start: int, es: seq<Event>, ss: seq<State>,
                            start': int, es': seq<Event>, ss': seq<State>, p: string)
    requires ProperRun(cfg, start, es, ss) && ProperRun(cfg, start', es', ss') && p != ""
    requires Project(cfg, es, ss, p, |es|) == Project(cfg, es', ss', p, |es'|)
    ensures EntryOf(ss[|es|], p) == EntryOf(ss'[|es'|], p)
  {
    RunIsAutomaton(cfg, start, es, ss, p, |es|);
    RunIsAutomaton(cfg, start', es', ss', p, |es'|);
  }

  // ---------------------------------------------------------------- what Syncthing announced

  lemma AnnouncementSees(cfg: Config, size: nat, e: Event, p: string, t: int)
    requires e.FlushEvent? || e.path != p
    ensures var expires := e.FlushEvent? && size < cfg.maxFiles && t < e.now - 10 * cfg.debounceTimeout;
            Advance(cfg, FromSyncthing(t), View(cfg, size, e, p)) == if expires then Untracked else FromSyncthing(t)
  {
  }

  /** Nothing makes the program forget an announcement but an event on the path, or a flush with room to
      track single paths, after the announcement expired. In particular a scan of everything does not. */
  lemma AnnouncementStaysIff(cfg: Config, s: State, e: Event, p: string, t: int)
    requires Sound(cfg) && Inv(cfg, s) && p != "" && EntryOf(s, p) == FromSyncthing(t)
    requires e.FlushEvent? || e.path != p
    ensures EntryOf(Step(cfg, s, e), p) == FromSyncthing(t) <==>
              !(e.FlushEvent? && |s.inProgress| < cfg.maxFiles && t < e.now - 10 * cfg.debounceTimeout)
  {
    StepIsAdvance(cfg, s, e, p);
    AnnouncementSees(cfg, |s.inProgress|, e, p, t);
  }

  /** Flushes that leave the announcement of time t alone. */
  ghost predicate EarlyFlushes(cfg: Config, t: int, pes: seq<PathEvent>) {
    forall i :: 0 <= i < |pes| ==>
      pes[i].Overflowed? || (pes[i].Flushed? && pes[i].now <= t + 10 * cfg.debounceTimeout)
  }

  lemma {:induction false} AnnouncementSurvives(cfg: Config, entry: Entry, before: seq<PathEvent>, t: int,
          flushes: seq<PathEvent>)
    requires EarlyFlushes(cfg, t, flushes)
    ensures AdvanceAll(cfg, entry, before + [Started(t)] + flushes) == FromSyncthing(t)
  {
    var pes := before + [Started(t)] + flushes;
    if flushes == [] {
      assert pes[..|pes| - 1] == before;
    } else {
      AnnouncementSurvives(cfg, entry, before, t, flushes[..|flushes| - 1]);
      assert pes[..|pes| - 1] == before + [Started(t)] + flushes[..|flushes| - 1];
    }
  }

  /** Echo suppression: when Syncthing announces a write and the write is seen on disk once before
      the announcement expires, the path is not tracked afterwards, whatever came before. */
  lemma EchoIsSuppressed(cfg: Config, start: int, es: seq<Event>, ss: seq<State>, p: string,
                         before: seq<PathEvent>, t: int, flushes: seq<PathEvent>, seen: PathEvent)
    requires ProperRun(cfg, start, es, ss) && p != "" && EarlyFlushes(cfg, t, flushes) && seen.Changed?
    requires Project(cfg, es, ss, p, |es|) == before + [Started(t)] + flushes + [seen]
    ensures EntryOf(ss[|es|], p) == Untracked
  {
    RunIsAutomaton(cfg, start, es, ss, p, |es|);
    AnnouncementSurvives(cfg, Untracked, before, t, flushes);
    var pes := Project(cfg, es, ss, p, |es|);
    assert pes[..|pes| - 1] == before + [Started(t)] + flushes;
  }

  /** After step m, for which there is room, the path is seen on disk at step j before an announcement
      of time t expires, and otherwise only flushed. It can only expire while there is room to track
      single paths. */
  ghost predicate SeenOnce(cfg: Config, es: seq<Event>, ss: seq<State>, m: nat, j: nat, t: int, seen: int, p: string) {
    && m < j < |es| < |ss| && es[j] == FsEvent(seen, p) && |ss[m].inProgress| <= cfg.maxFiles
    && (forall n :: m < n < |es| && n != j ==> es[n].FlushEvent? || es[n].path != p)
    && forall n :: m < n < j && es[n].FlushEvent? && |ss[n].inProgress| < cfg.maxFiles ==>
         es[n].now <= t + 10 * cfg.debounceTimeout
  }

  /** And at step m it is announced. */
  ghost predicate Echo(cfg: Config, es: seq<Event>, ss: seq<State>, m: nat, j: nat, t: int, seen: int, p: string) {
    SeenOnce(cfg, es, ss, m, j, t, seen, p) && es[m] == StEvent(t, p, false)
  }

  /** A change seen on disk, or nothing but a flush, an early one before the announcement expires. */
  predicate EchoSees(cfg: Config, v: PathEvent, t: int, early: bool, seen: bool) {
    if seen then v.Changed?
    else v == Elsewhere || v.Overflowed? || (v.Flushed? && (early ==> v.now <= t + 10 * cfg.debounceTimeout))
  }

  /** What the path sees at step n. */
  lemma EchoView(cfg: Config, es: seq<Event>, ss: seq<State>, m: nat, j: nat, t: int, seen: int, p: string, n: nat)
    requires Echo(cfg, es, ss, m, j, t, seen, p) && m < n < |es|
    ensures EchoSees(cfg, View(cfg, |ss[n].inProgress|, es[n], p), t, n < j, n == j)
  {
  }

  /** The entry before step n. */
  function EchoAt(t: int, n: int, j: int): Entry {
    if n <= j then FromSyncthing(t) else Untracked
  }

  lemma EchoAdvance(cfg: Config, v: PathEvent, t: int, n: int, j: int)
    requires EchoSees(cfg, v, t, n < j, n == j)
    ensures Advance(cfg, EchoAt(t, n, j), v) == EchoAt(t, n + 1, j)
  {
  }

  lemma EchoStarts(cfg: Config, start: int, es: seq<Event>, ss: seq<State>, m: nat, j: nat, t: int, p: string)
    requires ProperRun(cfg, start, es, ss) && p != "" && m < j < |es| && es[m] == StEvent(t, p, false)
    requires |ss[m].inProgress| <= cfg.maxFiles
    ensures EntryOf(ss[m + 1], p) == EchoAt(t, m + 1, j)
  {
    RunAdvances(cfg, start, es, ss, p, m);
    assert View(cfg, |ss[m].inProgress|, es[m], p) == Started(t);
  }

  lemma EchoGoesOn(cfg: Config, start: int, es: seq<Event>, ss: seq<State>, m: nat, j: nat, t: int, seen: int,
                   p: string, n: nat)
    requires ProperRun(cfg, start, es, ss) && p != "" && Echo(cfg, es, ss, m, j, t, seen, p) && m < n < |es|
    requires EntryOf(ss[n], p) == EchoAt(t, n, j)
    ensures EntryOf(ss[n + 1], p) == EchoAt(t, n + 1, j)
  {
    RunAdvances(cfg, start, es, ss, p, n);
    EchoView(cfg, es, ss, m, j, t, seen, p, n);
    EchoAdvance(cfg, View(cfg, |ss[n].inProgress|, es[n], p), t, n, j);
  }

  lemma {:induction false} EchoEntry(cfg: Config, start: int, es: seq<Event>, ss: seq<State>, m: nat, j: nat,
                                     t: int, seen: int, p: string, n: nat)
    requires ProperRun(cfg, start, es, ss) && p != "" && Echo(cfg, es, ss, m, j, t, seen, p) && m < n <= |es|
    ensures EntryOf(ss[n], p) == EchoAt(t, n, j)
  {
    if n - 1 == m {
      EchoStarts(cfg, start, es, ss, m, j, t, p);
    } else {
      EchoEntry(cfg, start, es, ss, m, j, t, seen, p, n - 1);
      EchoGoesOn(cfg, start, es, ss, m, j, t, seen, p, n - 1);
    }
  }

  /** So the write is never reported, however many paths are tracked: no flush from the announcement on
      finds the path due, and a scan of everything is not on its account. */
  lemma EchoIsNeverReported(cfg: Config, start: int, es: seq<Event>, ss: seq<State>, m: nat, j: nat,
                            t: int, seen: int, p: string)
    requires ProperRun(cfg, start, es, ss) && p != "" && Echo(cfg, es, ss, m, j, t, seen, p)
    ensures forall n :: m < n <= |es| ==> !Pending(ss[n], p)
    ensures p !in ss[|es|].inProgress
  {
    forall n | m < n <= |es| ensures !Pending(ss[n], p) {
      EchoEntry(cfg, start, es, ss, m, j, t, seen, p, n);
    }
    EchoEntry(cfg, start, es, ss, m, j, t, seen, p, |es|);
  }

  // ---------------------------------------------------------------- no change is reported twice

  /** A flush asks for a scan on account of p. */
  ghost predicate AsksFor(cfg: Config, s: State, e: Event, p: string) {
    && e.FlushEvent? && Pending(s, p)
    && (|s.inProgress| < cfg.maxFiles ==> p in DueNow(s, e))
  }

  /** Once a scan asked for on account of a change has succeeded, the change is not tracked any more. */
  lemma ReportedIsForgotten(cfg: Config, s: State, e: Event, p: string)
    requires Sound(cfg) && Inv(cfg, s) && p != "" && AsksFor(cfg, s, e, p) && e.ok
    ensures EntryOf(Step(cfg, s, e), p) == Untracked
  {
    StepIsAdvance(cfg, s, e, p);
  }

  ghost predicate PendsBy(es: seq<Event>, ss: seq<State>, p: string, n: nat) {
    n < |es| < |ss| && Pending(ss[n + 1], p) ==> Pending(ss[n], p) || (es[n].FsEvent? && es[n].path == p)
  }

  lemma OnlyChangesPend(cfg: Config, start: int, es: seq<Event>, ss: seq<State>, p: string, n: nat)
    requires ProperRun(cfg, start, es, ss) && p != "" && n < |es|
    ensures PendsBy(es, ss, p, n)
  {
    RunAdvances(cfg, start, es, ss, p, n);
  }

  lemma {:induction false} PendedBetween(es: seq<Event>, ss: seq<State>, p: string, i: nat, j: nat) returns (k: nat)
    requires i <= j <= |es| < |ss| && !Pending(ss[i], p) && Pending(ss[j], p)
    requires forall n: nat {:trigger PendsBy(es, ss, p, n)} :: PendsBy(es, ss, p, n)
    ensures i <= k < j && es[k].FsEvent? && es[k].path == p
  {
    assert PendsBy(es, ss, p, j - 1);
    if Pending(ss[j - 1], p) {
      k := PendedBetween(es, ss, p, i, j - 1);
    } else {
      k := j - 1;
    }
  }

  /** So if two scans are asked for on account of p, and the first succeeds, p changed in between. */
  lemma ReportedOnce(cfg: Config, start: int, es: seq<Event>, ss: seq<State>, i: nat, j: nat, p: string)
    returns (k: nat)
    requires ProperRun(cfg, start, es, ss) && i < j < |es| && p != ""
    requires AsksFor(cfg, ss[i], es[i], p) && es[i].ok && AsksFor(cfg, ss[j], es[j], p)
    ensures i < k < j && es[k].FsEvent? && es[k].path == p
  {
    RunKeepsInv(cfg, start, es, ss, i);
    ReportedIsForgotten(cfg, ss[i], es[i], p);
    forall n: nat ensures PendsBy(es, ss, p, n) {
      if n < |es| {
        OnlyChangesPend(cfg, start, es, ss, p, n);
      }
    }
    k := PendedBetween(es, ss, p, i + 1, j);
  }
}
