/** accumulateChanges as the program runs it: one object whose fields are the loop's variables. */
module Watcher {
  import opened Strings
  import opened Paths
  import opened Aggregation
  import opened Accumulation
  import opened Runs

  class Accumulator {
    const cfg: Config
    var inProgress: map<string, ProgressTime>
    var currInterval: int
    var nextScanTime: int
    var flushTimerNeedsReset: bool
    var deadline: int
    var clock: int
    ghost var log: seq<Request>

    ghost function Abs(): State
      reads this
    {
      State(inProgress, currInterval, nextScanTime, flushTimerNeedsReset, deadline, clock, log)
    }

    constructor (cfg: Config, now: int)
      ensures this.cfg == cfg && Abs() == Init(cfg, now)
    {
      this.cfg := cfg;
      inProgress := map[];
      currInterval := DelayScanInterval(cfg);
      log := if cfg.delayScan > 0 then [Reminder(now)] else [];
      nextScanTime := now + DelayScanInterval(cfg);
      deadline := now;
      clock := now;
      flushTimerNeedsReset := true;
    }

    method RearmTimer()
      modifies this
      ensures Abs() == Rearm(old(Abs()))
    {
      if flushTimerNeedsReset {
        flushTimerNeedsReset := false;
        deadline := clock + currInterval;
      }
    }

    method SpeedUpTimer()
      modifies this
      ensures Abs() == SpeedUp(cfg, old(Abs()))
    {
      if currInterval != cfg.debounceTimeout {
        currInterval := cfg.debounceTimeout;
        flushTimerNeedsReset := true;
      }
    }

    method ReceiveSt(now: int, path: string, finished: bool)
      modifies this
      ensures Abs() == OnSt(cfg, old(Abs()), now, path, finished)
    {
      clock := now;
      if path == "" {
        SpeedUpTimer();
        return;
      }
      if finished {
        inProgress := inProgress - {path};
        return;
      }
      if |inProgress| > cfg.maxFiles {
        return;
      }
      inProgress := inProgress[path := ProgressTime(false, now)];
    }

    method ReceiveFs(now: int, path: string)
      modifies this
      ensures Abs() == OnFs(cfg, old(Abs()), now, path)
    {
      clock := now;
      SpeedUpTimer();
      if path in inProgress && !inProgress[path].fsEvent {
        inProgress := inProgress - {path};
        return;
      }
      if |inProgress| > cfg.maxFiles {
        return;
      }
      inProgress := inProgress[path := ProgressTime(true, now)];
    }

    /** Drops stale entries and collects the due ones, in whatever order the map is walked. */
    method CollectPaths(now: int, look: string -> int) returns (paths: seq<string>)
      modifies this`inProgress
      ensures inProgress == Kept(cfg, old(inProgress), now)
      ensures Elements(paths) == Due(inProgress, look, currInterval)
    {
      paths := [];
      ghost var before := inProgress;
      var todo := inProgress.Keys;
      while todo != {}
        invariant todo <= before.Keys
        invariant inProgress == map k | k in before && (k in todo || !Stale(cfg, k, before[k], now)) :: before[k]
        invariant Elements(paths) == set k | k in before && k !in todo
                                      && !Stale(cfg, k, before[k], now) && IsDue(before[k], look(k), currInterval)
        decreases todo
      {
        var path :| path in todo;
        todo := todo - {path};
        var progress := inProgress[path];
        if path == "" || (!progress.fsEvent && progress.time < now - 10 * cfg.debounceTimeout) {
          inProgress := inProgress - {path};
        } else if progress.fsEvent && look(path) - progress.time > currInterval {
          assert Elements(paths + [path]) == Elements(paths) + {path};
          paths := paths + [path];
        }
      }
    }

    /** Deletes what the slice holds after the request. */
    method Forget(paths: array<string>)
      modifies this`inProgress
      ensures inProgress == old(inProgress) - Elements(paths[..])
    {
      ghost var before := inProgress;
      for i := 0 to paths.Length
        invariant inProgress == before - Elements(paths[..i])
      {
        assert Elements(paths[..i + 1]) == Elements(paths[..i]) + {paths[i]};
        inProgress := inProgress - {paths[i]};
      }
      assert paths[..paths.Length] == paths[..];
    }

    method ForgetFsEvents()
      modifies this`inProgress
      ensures inProgress == WithoutFsEvents(old(inProgress))
    {
      ghost var before := inProgress;
      var todo := inProgress.Keys;
      while todo != {}
        invariant todo <= before.Keys
        invariant inProgress == map k | k in before && (k in todo || !before[k].fsEvent) :: before[k]
        decreases todo
      {
        var path :| path in todo;
        todo := todo - {path};
        if inProgress[path].fsEvent {
          inProgress := inProgress - {path};
        }
      }
    }

    /** Aggregates the due paths, which cleans and sorts the slice they are in. */
    method AggregatePaths(paths: seq<string>, stat: Stat) returns (subs: seq<string>, slice: array<string>)
      ensures fresh(slice) && Elements(slice[..]) == Cleaned(Elements(paths))
      ensures subs == Aggregate(cfg.folder, stat, cfg.dirVsFiles, SortedSet(Elements(paths)))
    {
      slice := new string[|paths|](i requires 0 <= i < |paths| => paths[i]);
      assert slice[..] == paths;
      subs := AggregateChanges(cfg.folder, cfg.dirVsFiles, slice, stat);
      SliceFacts(paths, slice[..]);
      SameAggregate(cfg.folder, stat, cfg.dirVsFiles, paths);
    }

    /** Sends the request for the due paths; a success clears what the slice holds. */
    method InformPaths(paths: seq<string>, stat: Stat, ok: bool, now: int) returns (subs: seq<string>)
      modifies this`inProgress, this`log
      ensures subs == Aggregate(cfg.folder, stat, cfg.dirVsFiles, SortedSet(Elements(paths)))
      ensures inProgress == if ok then old(inProgress) - Cleaned(Elements(paths)) else old(inProgress)
      ensures log == old(log) + [Scan(subs, ok, now)]
    {
      var slice;
      subs, slice := AggregatePaths(paths, stat);
      log := log + [Scan(subs, ok, now)];
      if ok {
        Forget(slice);
      }
    }

    method FinishReport(e: Event)
      requires e.FlushEvent?
      modifies this`clock, this`nextScanTime
      ensures clock == e.done
      ensures nextScanTime == if e.ok then e.done + DelayScanInterval(cfg) else old(nextScanTime)
    {
      clock := e.done;
      if e.ok {
        nextScanTime := e.done + DelayScanInterval(cfg);
      }
    }

    method RemindIfDue(now: int)
      modifies this
      ensures Abs() == Remind(cfg, old(Abs()), now)
    {
      if cfg.delayScan > 0 && nextScanTime < now {
        nextScanTime := now + DelayScanInterval(cfg);
        log := log + [Reminder(now)];
      }
    }

    method ReportPaths(e: Event)
      requires e.FlushEvent?
      modifies this
      ensures Abs() == FlushPaths(cfg, old(Abs()), e)
    {
      var paths := CollectPaths(e.now, e.look);
      if |paths| != 0 {
        assert paths[0] in Elements(paths);
        var subs := InformPaths(paths, e.stat, e.ok, e.now);
        FinishReport(e);
      }
    }

    method ReportFolder(e: Event)
      requires e.FlushEvent?
      modifies this
      ensures Abs() == FlushAll(cfg, old(Abs()), e)
    {
      log := log + [Scan([""], e.ok, e.now)];
      if e.ok {
        ForgetFsEvents();
      }
      FinishReport(e);
    }

    method Flush(e: Event)
      requires e.FlushEvent?
      modifies this
      ensures Abs() == OnFlush(cfg, old(Abs()), e)
    {
      clock := e.now;
      flushTimerNeedsReset := true;
      RemindIfDue(e.now);
      if |inProgress| == 0 {
        if currInterval != DelayScanInterval(cfg) {
          currInterval := DelayScanInterval(cfg);
        }
        return;
      }
      if |inProgress| < cfg.maxFiles {
        ReportPaths(e);
      } else {
        ReportFolder(e);
      }
    }

    /** One turn of the loop. */
    method Iterate(e: Event)
      modifies this
      ensures Abs() == Step(cfg, old(Abs()), e)
    {
      RearmTimer();
      match e
      case StEvent(now, path, finished) => ReceiveSt(now, path, finished);
      case FsEvent(now, path) => ReceiveFs(now, path);
      case FlushEvent(_, _, _, _, _) => Flush(e);
    }
  }

  /** The whole loop over a finite sequence of events: the object goes through the states of a run. */
  method AccumulateChanges(cfg: Config, start: int, es: seq<Event>) returns (w: Accumulator, ghost ss: seq<State>)
    ensures fresh(w) && w.cfg == cfg && IsRun(cfg, start, es, ss) && w.Abs() == ss[|es|]
  {
    w := new Accumulator(cfg, start);
    ss := [w.Abs()];
    for i := 0 to |es|
      invariant fresh(w) && w.cfg == cfg && |ss| == i + 1 && ss[0] == Init(cfg, start) && w.Abs() == ss[i]
      invariant forall n :: 0 <= n < i ==> ss[n + 1] == Step(cfg, ss[n], es[n])
    {
      w.Iterate(es[i]);
      ss := ss + [w.Abs()];
    }
  }

  /** What the slice holds after aggregateChanges cleaned and sorted it. */
  lemma SliceFacts(paths: seq<string>, slice: seq<string>)
    requires slice == Sort(CleanAll(paths))
    ensures Elements(slice) == Cleaned(Elements(paths))
  {
    SortSorts(CleanAll(paths));
    SameElements(slice, CleanAll(paths));
    CleanedElements(paths);
  }

  lemma SameAggregate(folder: string, stat: Stat, dirVsFiles: int, paths: seq<string>)
    ensures Aggregate(folder, stat, dirVsFiles, paths) ==
            Aggregate(folder, stat, dirVsFiles, SortedSet(Elements(paths)))
  {
    SortedSetFacts(Elements(paths));
    SameCleaned(paths, SortedSet(Elements(paths)));
    OnlyTheSetMatters(paths, SortedSet(Elements(paths)));
  }

  lemma SameCleaned(a: seq<string>, b: seq<string>)
    requires Elements(a) == Elements(b)
    ensures (set p | p in a :: Clean(p)) == (set p | p in b :: Clean(p)) == Cleaned(Elements(a))
  {
    assert forall p :: p in a <==> p in Elements(a);
    assert forall p :: p in b <==> p in Elements(b);
  }
}
