/** accumulateChanges as a function from state to state, one step for each turn of its loop.
    Times and durations are milliseconds. */
module Accumulation {
  import opened Strings
  import opened Paths
  import opened Aggregation

  datatype ProgressTime = ProgressTime(fsEvent: bool, time: int)

  /** folder is absolute; the other fields are the watcher's tuning variables. */
  datatype Config = Config(folder: string, delayScan: int, debounceTimeout: int, dirVsFiles: int, maxFiles: int)

  const SECOND := 1000
  const FOREVER := 9999 * 3600 * SECOND

  function DelayScanInterval(cfg: Config): int {
    if cfg.delayScan > 0 then cfg.delayScan - 5 * SECOND else FOREVER
  }

  /** The requests sent to Syncthing: the reminder to delay a full scan, whose outcome nobody
      looks at, and the scans that report changes. */
  datatype Request = Reminder(at: int) | Scan(subs: seq<string>, ok: bool, at: int)

  /** The local variables of accumulateChanges; deadline is when the armed timer is due, clock the
      time at the end of the last turn and log the requests sent so far. */
  datatype State = State(
    inProgress: map<string, ProgressTime>,
    currInterval: int,
    nextScanTime: int,
    needsReset: bool,
    deadline: int,
    clock: int,
    log: seq<Request>)

  /** What a turn of the loop receives. A flush sees the file system through stat, and look is what
      the clock shows when it gets to each tracked path; ok and done are the outcome and the end of
      the scan request, if it sends one. */
  datatype Event =
    | StEvent(now: int, path: string, finished: bool)
    | FsEvent(now: int, path: string)
    | FlushEvent(now: int, done: int, look: string -> int, stat: Stat, ok: bool)

  function Init(cfg: Config, now: int): State {
    State(map[], DelayScanInterval(cfg), now + DelayScanInterval(cfg), true, now, now,
          if cfg.delayScan > 0 then [Reminder(now)] else [])
  }

  function Rearm(s: State): State {
    if s.needsReset then s.(needsReset := false, deadline := s.clock + s.currInterval) else s
  }

  function SpeedUp(cfg: Config, s: State): State {
    if s.currInterval != cfg.debounceTimeout then s.(currInterval := cfg.debounceTimeout, needsReset := true) else s
  }

  function OnSt(cfg: Config, s: State, now: int, path: string, finished: bool): State {
    var t := s.(clock := now);
    if path == "" then SpeedUp(cfg, t)
    else if finished then t.(inProgress := t.inProgress - {path})
    else if |t.inProgress| > cfg.maxFiles then t
    else t.(inProgress := t.inProgress[path := ProgressTime(false, now)])
  }

  function OnFs(cfg: Config, s: State, now: int, path: string): State {
    var t := SpeedUp(cfg, s.(clock := now));
    if path in t.inProgress && !t.inProgress[path].fsEvent then t.(inProgress := t.inProgress - {path})
    else if |t.inProgress| > cfg.maxFiles then t
    else t.(inProgress := t.inProgress[path := ProgressTime(true, now)])
  }

  /** Entries a flush throws away: the empty path and Syncthing entries that expired. */
  predicate Stale(cfg: Config, path: string, p: ProgressTime, now: int) {
    path == "" || (!p.fsEvent && p.time < now - 10 * cfg.debounceTimeout)
  }

  function Kept(cfg: Config, tracked: map<string, ProgressTime>, now: int): map<string, ProgressTime> {
    map k | k in tracked && !Stale(cfg, k, tracked[k], now) :: tracked[k]
  }

  predicate IsDue(p: ProgressTime, now: int, interval: int) {
    p.fsEvent && now - p.time > interval
  }

  function Due(tracked: map<string, ProgressTime>, look: string -> int, interval: int): set<string> {
    set k | k in tracked && IsDue(tracked[k], look(k), interval)
  }

  /** The keys deleted after a successful request: the slice holds the cleaned paths by then. */
  function Cleaned(paths: set<string>): set<string> {
    set p | p in paths :: Clean(p)
  }

  function Remind(cfg: Config, s: State, now: int): State {
    if cfg.delayScan > 0 && s.nextScanTime < now
    then s.(nextScanTime := now + DelayScanInterval(cfg), log := s.log + [Reminder(now)])
    else s
  }

  /** The end of a flush that sent a scan request: on success the map shrinks to rest. */
  function Informed(cfg: Config, s: State, e: Event, subs: seq<string>, rest: map<string, ProgressTime>): State
    requires e.FlushEvent?
  {
    s.(inProgress := if e.ok then rest else s.inProgress,
       nextScanTime := if e.ok then e.done + DelayScanInterval(cfg) else s.nextScanTime,
       clock := e.done,
       log := s.log + [Scan(subs, e.ok, e.now)])
  }

  /** A flush with room to track single paths: report what is due, if anything. */
  ghost function FlushPaths(cfg: Config, s: State, e: Event): State
    requires e.FlushEvent?
  {
    var kept := Kept(cfg, s.inProgress, e.now);
    var due := Due(kept, e.look, s.currInterval);
    var t := s.(inProgress := kept);
    if due == {} then t
    else Informed(cfg, t, e, Aggregate(cfg.folder, e.stat, cfg.dirVsFiles, SortedSet(due)), kept - Cleaned(due))
  }

  function WithoutFsEvents(tracked: map<string, ProgressTime>): map<string, ProgressTime> {
    map k | k in tracked && !tracked[k].fsEvent :: tracked[k]
  }

  /** A flush of an overfull map asks for a scan of the whole folder. */
  function FlushAll(cfg: Config, s: State, e: Event): State
    requires e.FlushEvent?
  {
    Informed(cfg, s, e, [""], WithoutFsEvents(s.inProgress))
  }

  ghost function OnFlush(cfg: Config, s: State, e: Event): State
    requires e.FlushEvent?
  {
    var t := Remind(cfg, s.(needsReset := true, clock := e.now), e.now);
    if t.inProgress == map[] then t.(currInterval := DelayScanInterval(cfg))
    else if |t.inProgress| < cfg.maxFiles then FlushPaths(cfg, t, e)
    else FlushAll(cfg, t, e)
  }

  /** One turn of the loop: rearm the timer if needed, then serve what the select delivers. */
  ghost function Step(cfg: Config, s: State, e: Event): State {
    var t := Rearm(s);
    match e
    case StEvent(now, path, finished) => OnSt(cfg, t, now, path, finished)
    case FsEvent(now, path) => OnFs(cfg, t, now, path)
    case FlushEvent(_, _, _, _, _) => OnFlush(cfg, t, e)
  }
}
