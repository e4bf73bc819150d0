/** Whole runs of accumulateChanges: no change is lost, reports are timely, paths do not
    interfere, overflow is safe. */
module Runs {
  import opened Strings
  import opened Paths
  import opened Aggregation
  import opened Scores
  import opened ScanList
  import opened Accumulation

  /** ss lists the states of a run of the program on the events es. */
  ghost predicate IsRun(cfg: Config, start: int, es: seq<Event>, ss: seq<State>) {
    && |ss| == |es| + 1
    && ss[0] == Init(cfg, start)
    && forall n :: 0 <= n < |es| ==> ss[n + 1] == Step(cfg, ss[n], es[n])
  }

  /** The watcher delivers clean paths below the folder, or "" for the folder itself. */
  ghost predicate ProperEvent(e: Event) {
    e.FsEvent? ==> e.path == "" || CleanRelative(e.path)
  }

  ghost predicate ProperEvents(es: seq<Event>) {
    forall i :: 0 <= i < |es| ==> ProperEvent(es[i])
  }

  /** What every state of a run satisfies. */
  ghost predicate Inv(cfg: Config, s: State) {
    && (forall k :: k in s.inProgress && s.inProgress[k].fsEvent ==> k == "" || CleanRelative(k))
    && ((exists k :: k in s.inProgress && s.inProgress[k].fsEvent) ==> s.currInterval == cfg.debounceTimeout)
    && |s.inProgress| <= cfg.maxFiles + 1
  }

  ghost predicate Sound(cfg: Config) {
    Rooted(cfg.folder) && cfg.maxFiles >= 0 && cfg.debounceTimeout >= 0
  }

  lemma SubmapSize(m: map<string, ProgressTime>, m': map<string, ProgressTime>)
    requires m'.Keys <= m.Keys
    ensures |m'| <= |m|
  {
    SubsetSize(m'.Keys, m.Keys);
  }

  lemma StepKeepsInv(cfg: Config, s: State, e: Event)
    requires Sound(cfg) && Inv(cfg, s) && ProperEvent(e)
    ensures Inv(cfg, Step(cfg, s, e))
  {
    match e {
      case StEvent(now, path, finished) => StKeepsInv(cfg, Rearm(s), now, path, finished);
      case FsEvent(now, path) => FsKeepsInv(cfg, Rearm(s), now, path);
      case FlushEvent(_, _, _, _, _) => FlushKeepsInv(cfg, Rearm(s), e);
    }
  }

  lemma StKeepsInv(cfg: Config, s: State, now: int, path: string, finished: bool)
    requires Inv(cfg, s)
    ensures Inv(cfg, OnSt(cfg, s, now, path, finished))
  {
    StAddsNoChange(cfg, s, now, path, finished);
    StKeepsSize(cfg, s, now, path, finished);
  }

  lemma StAddsNoChange(cfg: Config, s: State, now: int, path: string, finished: bool)
    ensures var t := OnSt(cfg, s, now, path, finished);
            && (forall k :: k in t.inProgress && t.inProgress[k].fsEvent ==>
                 k in s.inProgress && s.inProgress[k].fsEvent)
            && (t.currInterval == s.currInterval || t.currInterval == cfg.debounceTimeout)
  {
  }

  lemma StKeepsSize(cfg: Config, s: State, now: int, path: string, finished: bool)
    requires |s.inProgress| <= cfg.maxFiles + 1
    ensures |OnSt(cfg, s, now, path, finished).inProgress| <= cfg.maxFiles + 1
  {
    SubmapSize(s.inProgress, s.inProgress - {path});
  }

  lemma FsKeepsInv(cfg: Config, s: State, now: int, path: string)
    requires Inv(cfg, s) && (path == "" || CleanRelative(path))
    ensures Inv(cfg, OnFs(cfg, s, now, path))
  {
    FsKeepsSize(cfg, s, now, path);
  }

  lemma FsKeepsSize(cfg: Config, s: State, now: int, path: string)
    requires |s.inProgress| <= cfg.maxFiles + 1
    ensures |OnFs(cfg, s, now, path).inProgress| <= cfg.maxFiles + 1
  {
    SubmapSize(s.inProgress, s.inProgress - {path});
  }

  lemma FlushKeepsInv(cfg: Config, s: State, e: Event)
    requires Inv(cfg, s) && e.FlushEvent?
    ensures Inv(cfg, OnFlush(cfg, s, e))
  {
    FlushShrinks(cfg, s, e);
    SubmapSize(s.inProgress, OnFlush(cfg, s, e).inProgress);
  }

  /** A flush only removes entries, and slows down only when nothing is tracked. */
  lemma FlushShrinks(cfg: Config, s: State, e: Event)
    requires e.FlushEvent?
    ensures OnFlush(cfg, s, e).inProgress.Keys <= s.inProgress.Keys
    ensures forall k :: k in OnFlush(cfg, s, e).inProgress ==> OnFlush(cfg, s, e).inProgress[k] == s.inProgress[k]
    ensures s.inProgress != map[] ==> OnFlush(cfg, s, e).currInterval == s.currInterval
  {
  }

  lemma {:induction false} RunKeepsInv(cfg: Config, start: int, es: seq<Event>, ss: seq<State>, n: nat)
    requires Sound(cfg) && IsRun(cfg, start, es, ss) && ProperEvents(es) && n <= |es|
    ensures Inv(cfg, ss[n])
  {
    if n > 0 {
      RunKeepsInv(cfg, start, es, ss, n - 1);
      StepKeepsInv(cfg, ss[n - 1], es[n - 1]);
    }
  }

  // ---------------------------------------------------------------- no change is lost

  ghost predicate Pending(s: State, p: string) {
    p in s.inProgress && s.inProgress[p].fsEvent
  }

  /** Between two states a successful scan request was sent that covers p. */
  ghost predicate Reported(s: State, t: State, p: string) {
    exists i :: |s.log| <= i < |t.log| && t.log[i].Scan? && t.log[i].ok && Covered(t.log[i].subs, p)
  }

  ghost function DueNow(s: State, e: Event): set<string>
    requires e.FlushEvent?
  {
    set k | k in s.inProgress && k != "" && IsDue(s.inProgress[k], e.look(k), s.currInterval)
  }

  /** The legitimate ways for a change to stop being tracked. The last is a file system that shows
      a file inside a file. */
  ghost predicate Discharged(cfg: Config, s: State, e: Event, p: string) {
    || (e.StEvent? && e.path == p)
    || (e.FlushEvent? && p == "")
    || Reported(s, Step(cfg, s, e), p)
    || (e.FlushEvent? && Stranded(DueNow(s, e), e.stat, cfg.dirVsFiles, p))
  }

  /** In a file system at rest the parent of a file is not a file. */
  ghost predicate ConsistentStat(stat: Stat) {
    forall p :: stat(p).File? && Parent(p) != "" ==> !stat(Parent(p)).File?
  }

  lemma ConsistentNeverStrands(stat: Stat, inputs: set<string>, dirVsFiles: int, p: string)
    requires ConsistentStat(stat) && p != ""
    ensures !Stranded(inputs, stat, dirVsFiles, p)
  {
  }

  lemma CleanKeysStay(due: set<string>)
    requires forall k :: k in due ==> CleanRelative(k)
    ensures Cleaned(due) == due
  {
  }

  /** The due paths of a flush are proper inputs of aggregateChanges, and what it sends is their
      scan list. */
  lemma DueAggregate(cfg: Config, s: State, e: Event)
    requires Sound(cfg) && Inv(cfg, s) && e.FlushEvent?
    ensures ProperInputs(cfg.folder, DueNow(s, e)) && Cleaned(DueNow(s, e)) == DueNow(s, e)
    ensures Due(Kept(cfg, s.inProgress, e.now), e.look, s.currInterval) == DueNow(s, e)
    ensures Aggregate(cfg.folder, e.stat, cfg.dirVsFiles, SortedSet(DueNow(s, e)))
         == ScanListOf(cfg.folder, e.stat, cfg.dirVsFiles, DueNow(s, e))
  {
    var due := DueNow(s, e);
    assert forall k :: k in due ==> CleanRelative(k);
    AbsoluteFolderIsProper(cfg.folder, due);
    CleanKeysStay(due);
    AggregateOfCleanSet(cfg.folder, e.stat, cfg.dirVsFiles, due);
  }

  lemma DueIsReported(cfg: Config, s: State, e: Event, p: string)
    requires Sound(cfg) && Inv(cfg, s) && e.FlushEvent?
    requires Pending(s, p) && p != "" && !Pending(FlushPaths(cfg, s, e), p)
    ensures Reported(s, FlushPaths(cfg, s, e), p) || Stranded(DueNow(s, e), e.stat, cfg.dirVsFiles, p)
  {
    var due := DueNow(s, e);
    var t := FlushPaths(cfg, s, e);
    DueAggregate(cfg, s, e);
    assert p in due;
    InputCoveredIff(cfg.folder, e.stat, cfg.dirVsFiles, due, p);
    assert t.log[|s.log|] == Scan(ScanListOf(cfg.folder, e.stat, cfg.dirVsFiles, due), true, e.now);
  }

  lemma FolderIsReported(cfg: Config, s: State, e: Event, p: string)
    requires e.FlushEvent? && Pending(s, p) && !Pending(FlushAll(cfg, s, e), p)
    ensures Reported(s, FlushAll(cfg, s, e), p)
  {
    assert FlushAll(cfg, s, e).log[|s.log|] == Scan([""], true, e.now);
    assert "" in [""] && CoveredBy(p, "");
  }

  lemma ReportedSince(s: State, t: State, u: State, p: string)
    requires |s.log| <= |t.log| && Reported(t, u, p)
    ensures Reported(s, u, p)
  {
  }

  /** A change leaves the map in a flush only when the request that went out covers it. */
  lemma FlushedIsReported(cfg: Config, s: State, e: Event, p: string)
    requires Sound(cfg) && Inv(cfg, s) && e.FlushEvent? && !s.needsReset
    requires Pending(s, p) && p != "" && !Pending(OnFlush(cfg, s, e), p)
    ensures Reported(s, OnFlush(cfg, s, e), p) || Stranded(DueNow(s, e), e.stat, cfg.dirVsFiles, p)
  {
    var t := Remind(cfg, s.(needsReset := true, clock := e.now), e.now);
    var u := OnFlush(cfg, s, e);
    if |t.inProgress| < cfg.maxFiles {
      DueIsReported(cfg, t, e, p);
    } else {
      FolderIsReported(cfg, t, e, p);
    }
    if Reported(t, u, p) {
      ReportedSince(s, t, u, p);
    }
  }

  lemma StKeepsPending(cfg: Config, s: State, now: int, path: string, finished: bool, p: string)
    requires Pending(s, p) && path != p
    ensures Pending(OnSt(cfg, s, now, path, finished), p)
  {
  }

  lemma FsKeepsPending(cfg: Config, s: State, now: int, path: string, p: string)
    requires Pending(s, p)
    ensures Pending(OnFs(cfg, s, now, path), p)
  {
  }

  /** One turn of the loop: a change stops being tracked only by being discharged. */
  lemma StepDischarges(cfg: Config, s: State, e: Event, p: string)
    requires Sound(cfg) && Inv(cfg, s) && Pending(s, p) && !Pending(Step(cfg, s, e), p)
    ensures Discharged(cfg, s, e, p)
  {
    match e {
      case StEvent(now, path, finished) =>
        if path != p {
          StKeepsPending(cfg, Rearm(s), now, path, finished, p);
        }
      case FsEvent(now, path) => FsKeepsPending(cfg, Rearm(s), now, path, p);
      case FlushEvent(_, _, _, _, _) =>
        if p != "" {
          FlushedIsReported(cfg, Rearm(s), e, p);
          assert DueNow(Rearm(s), e) == DueNow(s, e);
        }
    }
  }

  /** No change is lost: over any stretch of any run, a tracked file system change that is no longer
      tracked at the end was discharged on the way. */
  lemma {:induction false} NothingLost(cfg: Config, start: int, es: seq<Event>, ss: seq<State>, i: nat, j: nat,
                                       p: string)
    returns (k: nat)
    requires Sound(cfg) && IsRun(cfg, start, es, ss) && ProperEvents(es) && i <= j <= |es|
    requires Pending(ss[i], p) && !Pending(ss[j], p)
    ensures i <= k < j && Discharged(cfg, ss[k], es[k], p)
  {
    if Pending(ss[j - 1], p) {
      k := j - 1;
      RunKeepsInv(cfg, start, es, ss, k);
      StepDischarges(cfg, ss[k], es[k], p);
    } else {
      k := NothingLost(cfg, start, es, ss, i, j - 1, p);
    }
  }

  /** So on a consistent file system a change other than of the folder itself ends up in a
      successful scan request, unless Syncthing itself names the path. */
  lemma ChangeIsReported(cfg: Config, start: int, es: seq<Event>, ss: seq<State>, i: nat, j: nat, p: string)
    returns (k: nat)
    requires Sound(cfg) && IsRun(cfg, start, es, ss) && ProperEvents(es) && i <= j <= |es| && p != ""
    requires forall n :: i <= n < j && es[n].FlushEvent? ==> ConsistentStat(es[n].stat)
    requires forall n :: i <= n < j && es[n].StEvent? ==> es[n].path != p
    requires Pending(ss[i], p) && !Pending(ss[j], p)
    ensures i <= k < j && Reported(ss[k], ss[k + 1], p)
  {
    k := NothingLost(cfg, start, es, ss, i, j, p);
    if es[k].FlushEvent? {
      ConsistentNeverStrands(es[k].stat, DueNow(ss[k], es[k]), cfg.dirVsFiles, p);
    }
  }
}
