/** How fast accumulateChanges turns, and how long Syncthing goes without a request that delays its next
    full scan. */
module Pace {
  import opened Strings
  import opened Aggregation
  import opened Accumulation
  import opened Runs
  import opened Overflow
  import opened Latency

  // ---------------------------------------------------------------- the interval

  /** Something is announced or seen: the loop is to hurry. */
  predicate Hurries(e: Event) {
    e.FsEvent? || (e.StEvent? && e.path == "")
  }

  predicate IdleFlush(s: State, e: Event) {
    e.FlushEvent? && s.inProgress == map[]
  }

  /** The last hurry is not over: no flush has found the map empty since. */
  ghost predicate Hurried(es: seq<Event>, ss: seq<State>, n: nat)
    requires n <= |es| <= |ss|
  {
    exists m :: 0 <= m < n && Hurries(es[m]) && forall k :: m < k < n ==> !IdleFlush(ss[k], es[k])
  }

  lemma HurriedStep(es: seq<Event>, ss: seq<State>, n: nat)
    requires n < |es| <= |ss|
    ensures Hurried(es, ss, n + 1) <==> Hurries(es[n]) || (Hurried(es, ss, n) && !IdleFlush(ss[n], es[n]))
  {
    if Hurried(es, ss, n) && !IdleFlush(ss[n], es[n]) {
      var m :| 0 <= m < n && Hurries(es[m]) && forall k :: m < k < n ==> !IdleFlush(ss[k], es[k]);
      assert forall k :: m < k < n + 1 ==> !IdleFlush(ss[k], es[k]);
    }
    if Hurried(es, ss, n + 1) && !Hurries(es[n]) {
      var m :| 0 <= m < n + 1 && Hurries(es[m]) && forall k :: m < k < n + 1 ==> !IdleFlush(ss[k], es[k]);
      assert m < n;
    }
  }

  lemma IntervalStep(cfg: Config, s: State, e: Event)
    ensures Step(cfg, s, e).currInterval ==
              if Hurries(e) then cfg.debounceTimeout
              else if IdleFlush(s, e) then DelayScanInterval(cfg)
              else s.currInterval
  {
  }

  ghost predicate IntervalAt(cfg: Config, es: seq<Event>, ss: seq<State>, n: nat) {
    n < |es| < |ss| ==>
      ss[n + 1].currInterval ==
        if Hurries(es[n]) then cfg.debounceTimeout
        else if IdleFlush(ss[n], es[n]) then DelayScanInterval(cfg)
        else ss[n].currInterval
  }

  lemma {:induction false} IntervalFollows(cfg: Config, es: seq<Event>, ss: seq<State>, n: nat)
    requires n <= |es| < |ss| && ss[0].currInterval == DelayScanInterval(cfg)
    requires forall m: nat {:trigger IntervalAt(cfg, es, ss, m)} :: IntervalAt(cfg, es, ss, m)
    ensures ss[n].currInterval == if Hurried(es, ss, n) then cfg.debounceTimeout else DelayScanInterval(cfg)
  {
    if n > 0 {
      IntervalFollows(cfg, es, ss, n - 1);
      assert IntervalAt(cfg, es, ss, n - 1);
      HurriedStep(es, ss, n - 1);
    }
  }

  /** The loop runs at the debounce interval exactly from a change on disk or a notice of incoming
      changes until a flush finds nothing tracked, and at the slow interval otherwise. */
  lemma FastWhileHurried(cfg: Config, start: int, es: seq<Event>, ss: seq<State>, n: nat)
    requires IsRun(cfg, start, es, ss) && n <= |es|
    ensures ss[n].currInterval == if Hurried(es, ss, n) then cfg.debounceTimeout else DelayScanInterval(cfg)
  {
    forall m: nat ensures IntervalAt(cfg, es, ss, m) {
      if m < |es| {
        IntervalStep(cfg, ss[m], es[m]);
      }
    }
    IntervalFollows(cfg, es, ss, n);
  }

  // ---------------------------------------------------------------- the timer

  /** Real time: the clock does not run backwards, the timer fires at most lateness after its
      deadline, and a flush takes no longer than busy. */
  ghost predicate OnTime(lateness: nat, busy: nat, s: State, e: Event) {
    && s.clock <= e.now <= Rearm(s).deadline + lateness
    && (e.FlushEvent? ==> e.now <= e.done <= e.now + busy)
  }

  ghost predicate TimelyRun(cfg: Config, lateness: nat, busy: nat, start: int, es: seq<Event>, ss: seq<State>) {
    && IsRun(cfg, start, es, ss) && 0 <= cfg.debounceTimeout <= DelayScanInterval(cfg)
    && forall n :: 0 <= n < |es| ==> OnTime(lateness, busy, ss[n], es[n])
  }

  lemma KeepsTimer(cfg: Config, lateness: nat, busy: nat, s: State, e: Event)
    requires TimerInv(s) && OnTime(lateness, busy, s, e)
    ensures TimerInv(Step(cfg, s, e))
  {
    match e {
      case StEvent(now, path, finished) => StKeepsTimer(cfg, Rearm(s), now, path, finished);
      case FsEvent(now, path) => FsKeepsTimer(cfg, Rearm(s), now, path);
      case FlushEvent(_, _, _, _, _) => FlushRearms(cfg, Rearm(s), e);
    }
  }

  lemma FlushRearms(cfg: Config, s: State, e: Event)
    requires e.FlushEvent?
    ensures OnFlush(cfg, s, e).needsReset && OnFlush(cfg, s, e).clock in {e.now, e.done}
  {
  }

  lemma {:induction false} TimerInRun(cfg: Config, lateness: nat, busy: nat, start: int, es: seq<Event>, ss: seq<State>,
                                      n: nat)
    requires TimelyRun(cfg, lateness, busy, start, es, ss) && n <= |es|
    ensures TimerInv(ss[n])
  {
    if n > 0 {
      TimerInRun(cfg, lateness, busy, start, es, ss, n - 1);
      KeepsTimer(cfg, lateness, busy, ss[n - 1], es[n - 1]);
    }
  }

  /** The loop hurries and flushes by time t. */
  ghost predicate FlushesBy(cfg: Config, s: State, t: int) {
    s.currInterval == cfg.debounceTimeout && Rearm(s).deadline <= t
  }

  lemma HurryStarts(cfg: Config, lateness: nat, busy: nat, s: State, e: Event)
    requires TimerInv(s) && OnTime(lateness, busy, s, e) && Hurries(e)
    ensures FlushesBy(cfg, Step(cfg, s, e), e.now + cfg.debounceTimeout)
  {
  }

  lemma HurryGoesOn(cfg: Config, s: State, e: Event, t: int)
    requires FlushesBy(cfg, s, t) && !e.FlushEvent?
    ensures FlushesBy(cfg, Step(cfg, s, e), t)
  {
  }

  lemma {:induction false} HurriesUntilFlush(cfg: Config, lateness: nat, busy: nat, start: int, es: seq<Event>,
                                             ss: seq<State>, i: nat, j: nat)
    requires TimelyRun(cfg, lateness, busy, start, es, ss) && i < j <= |es| && Hurries(es[i])
    requires forall k :: i < k < j ==> !es[k].FlushEvent?
    ensures FlushesBy(cfg, ss[j], es[i].now + cfg.debounceTimeout)
    decreases j
  {
    if j == i + 1 {
      TimerInRun(cfg, lateness, busy, start, es, ss, i);
      HurryStarts(cfg, lateness, busy, ss[i], es[i]);
    } else {
      HurriesUntilFlush(cfg, lateness, busy, start, es, ss, i, j - 1);
      HurryGoesOn(cfg, ss[j - 1], es[j - 1], es[i].now + cfg.debounceTimeout);
    }
  }

  /** A change on disk, and a notice of incoming changes just as well, is followed by a flush within one
      debounce interval and the lateness of the timer. */
  lemma FlushFollows(cfg: Config, lateness: nat, busy: nat, start: int, es: seq<Event>, ss: seq<State>, i: nat, j: nat)
    returns (k: nat)
    requires TimelyRun(cfg, lateness, busy, start, es, ss) && i < j < |es| && Hurries(es[i])
    requires es[j].now > es[i].now + cfg.debounceTimeout + lateness
    ensures i < k < j && es[k].FlushEvent?
  {
    assert OnTime(lateness, busy, ss[j], es[j]);
    if forall k :: i < k < j ==> !es[k].FlushEvent? {
      HurriesUntilFlush(cfg, lateness, busy, start, es, ss, i, j);
    }
    k :| i < k < j && es[k].FlushEvent?;
  }

  // ---------------------------------------------------------------- not too often

  /** The timer does not fire before its deadline. */
  ghost predicate Patient(s: State, e: Event) {
    && s.clock <= e.now
    && (e.FlushEvent? ==> Rearm(s).deadline <= e.now <= e.done)
  }

  ghost predicate PatientRun(cfg: Config, start: int, es: seq<Event>, ss: seq<State>) {
    && IsRun(cfg, start, es, ss) && 0 <= cfg.debounceTimeout <= DelayScanInterval(cfg)
    && forall n :: 0 <= n < |es| ==> Patient(ss[n], es[n])
  }

  /** The loop rests from time t for d. */
  ghost predicate Rests(s: State, t: int, d: int) {
    t <= s.clock && t + d <= Rearm(s).deadline
  }

  lemma RestStarts(cfg: Config, s: State, e: Event)
    requires e.FlushEvent?
    ensures var t := Step(cfg, s, e); Rests(t, t.clock, t.currInterval)
  {
    FlushRearms(cfg, Rearm(s), e);
  }

  lemma RestGoesOn(cfg: Config, s: State, e: Event, t: int, d: int)
    requires Rests(s, t, d) && Patient(s, e) && !e.FlushEvent? && (Hurries(e) ==> d <= cfg.debounceTimeout)
    ensures Rests(Step(cfg, s, e), t, d)
  {
    TimerStays(cfg, s, e);
    ClockIs(cfg, s, e);
  }

  lemma ClockIs(cfg: Config, s: State, e: Event)
    requires !e.FlushEvent?
    ensures Step(cfg, s, e).clock == e.now
  {
  }

  ghost predicate RestsAt(es: seq<Event>, ss: seq<State>, t: int, d: int, n: nat) {
    n < |es| < |ss| && Rests(ss[n], t, d) ==> Rests(ss[n + 1], t, d)
  }

  lemma {:induction false} RestFollows(es: seq<Event>, ss: seq<State>, t: int, d: int, i: nat, j: nat)
    requires i <= j <= |es| < |ss| && Rests(ss[i], t, d)
    requires forall n: nat {:trigger RestsAt(es, ss, t, d, n)} :: i <= n < j ==> RestsAt(es, ss, t, d, n)
    ensures Rests(ss[j], t, d)
    decreases j
  {
    if i < j {
      RestFollows(es, ss, t, d, i, j - 1);
      assert RestsAt(es, ss, t, d, j - 1);
    }
  }

  lemma RestsUntil(cfg: Config, start: int, es: seq<Event>, ss: seq<State>, i: nat, j: nat, d: int)
    requires PatientRun(cfg, start, es, ss) && i <= j <= |es| && Rests(ss[i], ss[i].clock, d)
    requires forall k :: i <= k < j ==> !es[k].FlushEvent? && (Hurries(es[k]) ==> d <= cfg.debounceTimeout)
    ensures Rests(ss[j], ss[i].clock, d)
  {
    forall n: nat | i <= n < j ensures RestsAt(es, ss, ss[i].clock, d, n) {
      if Rests(ss[n], ss[i].clock, d) {
        assert Patient(ss[n], es[n]);
        RestGoesOn(cfg, ss[n], es[n], ss[i].clock, d);
      }
    }
    RestFollows(es, ss, ss[i].clock, d, i, j);
  }

  /** When a flush is over: after its scan, if it sent one. */
  lemma FlushEnds(cfg: Config, s: State, e: Event)
    requires e.FlushEvent?
    ensures var t := Step(cfg, s, e);
            t.clock == if exists i :: 0 <= i < |Sent(s, t)| && Sent(s, t)[i].Scan? then e.done else e.now
  {
    var r := Rearm(s);
    var reminded := Remind(cfg, r.(needsReset := true, clock := e.now), e.now);
    var u := Step(cfg, s, e);
    FlushLogGrows(cfg, r, e);
    var sent := Sent(s, u);
    if u.log == reminded.log {
      assert forall i :: 0 <= i < |sent| ==> sent[i] == Reminder(e.now);
      assert u.clock == e.now;
    } else {
      assert sent[|sent| - 1].Scan?;
    }
  }

  /** Flushes are at least a debounce interval apart, from the end of one to the next, and the first is
      as far from the start; while nothing hurries the loop, at least the interval it has set itself. */
  lemma FlushesApart(cfg: Config, start: int, es: seq<Event>, ss: seq<State>, i: nat, j: nat)
    requires PatientRun(cfg, start, es, ss) && i <= j < |es| && es[j].FlushEvent?
    requires i == 0 || es[i - 1].FlushEvent?
    requires forall k :: i <= k < j ==> !es[k].FlushEvent?
    ensures es[j].now >= ss[i].clock + cfg.debounceTimeout
    ensures (forall k :: i <= k < j ==> !Hurries(es[k])) ==> es[j].now >= ss[i].clock + ss[i].currInterval
  {
    if i > 0 {
      RestStarts(cfg, ss[i - 1], es[i - 1]);
    }
    IntervalAtLeast(cfg, start, es, ss, i);
    RestsUntil(cfg, start, es, ss, i, j, cfg.debounceTimeout);
    if forall k :: i <= k < j ==> !Hurries(es[k]) {
      RestsUntil(cfg, start, es, ss, i, j, ss[i].currInterval);
    }
    assert Patient(ss[j], es[j]);
  }

  lemma IntervalAtLeast(cfg: Config, start: int, es: seq<Event>, ss: seq<State>, n: nat)
    requires PatientRun(cfg, start, es, ss) && n <= |es|
    ensures cfg.debounceTimeout <= ss[n].currInterval
  {
    FastWhileHurried(cfg, start, es, ss, n);
  }

  // ---------------------------------------------------------------- delaying the full scan

  predicate Reminded(rs: seq<Request>) {
    exists i :: 0 <= i < |rs| && rs[i].Reminder?
  }

  predicate Scanned(rs: seq<Request>) {
    exists i :: 0 <= i < |rs| && rs[i].Scan? && rs[i].ok
  }

  /** When Syncthing was last given a reason to delay its full scan: the end of the last scan that
      succeeded or the time of the last reminder, at first the start of the loop. */
  ghost function LastDelay(start: int, es: seq<Event>, ss: seq<State>, n: nat): int
    requires n <= |es| < |ss|
  {
    if n == 0 then start
    else
      var e, sent := es[n - 1], Sent(ss[n - 1], ss[n]);
      if e.FlushEvent? && Scanned(sent) then e.done
      else if Reminded(sent) then e.now
      else LastDelay(start, es, ss, n - 1)
  }

  /** What one turn sends: perhaps a reminder, then perhaps a scan. */
  lemma TurnSends(cfg: Config, s: State, e: Event)
    ensures var sent, t := Sent(s, Step(cfg, s, e)), Step(cfg, s, e);
            && (Reminded(sent) <==> e.FlushEvent? && cfg.delayScan > 0 && s.nextScanTime < e.now)
            && (!e.FlushEvent? ==> !Scanned(sent))
            && t.nextScanTime == (if e.FlushEvent? && Scanned(sent) then e.done + DelayScanInterval(cfg)
                                  else if Reminded(sent) then e.now + DelayScanInterval(cfg)
                                  else s.nextScanTime)
  {
    if e.FlushEvent? {
      FlushSends(cfg, Rearm(s), e);
    } else {
      OnlyFlushesLog(cfg, s, e);
      NextScanStays(cfg, s, e);
    }
  }

  lemma NextScanStays(cfg: Config, s: State, e: Event)
    requires !e.FlushEvent?
    ensures Step(cfg, s, e).nextScanTime == s.nextScanTime
  {
    match e
    case StEvent(now, path, finished) =>
      assert OnSt(cfg, Rearm(s), now, path, finished).nextScanTime == s.nextScanTime;
    case FsEvent(now, path) =>
      assert OnFs(cfg, Rearm(s), now, path).nextScanTime == s.nextScanTime;
  }

  lemma FlushSends(cfg: Config, s: State, e: Event)
    requires e.FlushEvent?
    ensures var sent, t := Sent(s, OnFlush(cfg, s, e)), OnFlush(cfg, s, e);
            && (Reminded(sent) <==> cfg.delayScan > 0 && s.nextScanTime < e.now)
            && t.nextScanTime == (if Scanned(sent) then e.done + DelayScanInterval(cfg)
                                  else if Reminded(sent) then e.now + DelayScanInterval(cfg)
                                  else s.nextScanTime)
  {
    var r := s.(needsReset := true, clock := e.now);
    var t := Remind(cfg, r, e.now);
    var u := OnFlush(cfg, s, e);
    var reminded, scans := t.log[|s.log|..], u.log[|t.log|..];
    ScansSent(cfg, t, e);
    assert Sent(s, u) == reminded + scans;
    SplitSent(reminded, scans);
    assert reminded == if cfg.delayScan > 0 && s.nextScanTime < e.now then [Reminder(e.now)] else [];
    One(Reminder(e.now));
  }

  lemma One(r: Request)
    ensures (Reminded([r]) <==> r.Reminder?) && (Scanned([r]) <==> r.Scan? && r.ok)
  {
    assert [r][0] == r;
  }

  lemma SplitSent(reminded: seq<Request>, scans: seq<Request>)
    ensures Reminded(reminded + scans) <==> Reminded(reminded) || Reminded(scans)
    ensures Scanned(reminded + scans) <==> Scanned(reminded) || Scanned(scans)
  {
    var all := reminded + scans;
    assert forall i :: 0 <= i < |reminded| ==> all[i] == reminded[i];
    assert forall i :: 0 <= i < |scans| ==> all[|reminded| + i] == scans[i];
  }

  /** What is sent after the reminder. */
  lemma ScansSent(cfg: Config, t: State, e: Event)
    requires e.FlushEvent?
    ensures var u := if t.inProgress == map[] then t.(currInterval := DelayScanInterval(cfg))
                     else if |t.inProgress| < cfg.maxFiles then FlushPaths(cfg, t, e)
                     else FlushAll(cfg, t, e);
            && t.log <= u.log && !Reminded(u.log[|t.log|..])
            && u.nextScanTime == if Scanned(u.log[|t.log|..]) then e.done + DelayScanInterval(cfg) else t.nextScanTime
  {
    var subs := if |t.inProgress| >= cfg.maxFiles then [""]
                else Aggregate(cfg.folder, e.stat, cfg.dirVsFiles,
                               SortedSet(Due(Kept(cfg, t.inProgress, e.now), e.look, t.currInterval)));
    One(Scan(subs, e.ok, e.now));
  }

  ghost predicate DelayAt(cfg: Config, es: seq<Event>, ss: seq<State>, n: nat) {
    n < |es| < |ss| ==>
      var sent := Sent(ss[n], ss[n + 1]);
      ss[n + 1].nextScanTime ==
        if es[n].FlushEvent? && Scanned(sent) then es[n].done + DelayScanInterval(cfg)
        else if Reminded(sent) then es[n].now + DelayScanInterval(cfg)
        else ss[n].nextScanTime
  }

  lemma {:induction false} DelayFollows(cfg: Config, start: int, es: seq<Event>, ss: seq<State>, n: nat)
    requires n <= |es| < |ss| && ss[0].nextScanTime == start + DelayScanInterval(cfg)
    requires forall m: nat {:trigger DelayAt(cfg, es, ss, m)} :: DelayAt(cfg, es, ss, m)
    ensures ss[n].nextScanTime == LastDelay(start, es, ss, n) + DelayScanInterval(cfg)
  {
    if n > 0 {
      DelayFollows(cfg, start, es, ss, n - 1);
      assert DelayAt(cfg, es, ss, n - 1);
    }
  }

  /** nextScanTime is one slow interval after that. */
  lemma NextScanIs(cfg: Config, start: int, es: seq<Event>, ss: seq<State>, n: nat)
    requires IsRun(cfg, start, es, ss) && n <= |es|
    ensures ss[n].nextScanTime == LastDelay(start, es, ss, n) + DelayScanInterval(cfg)
  {
    forall m: nat ensures DelayAt(cfg, es, ss, m) {
      if m < |es| {
        TurnSends(cfg, ss[m], es[m]);
      }
    }
    DelayFollows(cfg, start, es, ss, n);
  }

  /** A reminder is sent exactly by a flush more than one slow interval after the last delay, unless
      reminders are disabled. */
  lemma RemindsIff(cfg: Config, start: int, es: seq<Event>, ss: seq<State>, n: nat)
    requires IsRun(cfg, start, es, ss) && n < |es|
    ensures Reminded(Sent(ss[n], ss[n + 1])) <==>
              es[n].FlushEvent? && cfg.delayScan > 0 &&
              es[n].now > LastDelay(start, es, ss, n) + DelayScanInterval(cfg)
  {
    NextScanIs(cfg, start, es, ss, n);
    TurnSends(cfg, ss[n], es[n]);
  }

  /** The loop starts with a reminder, and an interval that ends five seconds before the scan delayed so far,
      unless reminders are disabled; then none is ever sent, and the interval is as good as for ever. */
  lemma StartReminds(cfg: Config, start: int, es: seq<Event>, ss: seq<State>, n: nat)
    requires IsRun(cfg, start, es, ss) && n < |es|
    ensures ss[0].log == if cfg.delayScan > 0 then [Reminder(start)] else []
    ensures ss[0].currInterval == if cfg.delayScan > 0 then cfg.delayScan - 5000 else 9999 * 3600000
    ensures cfg.delayScan <= 0 ==> !Reminded(Sent(ss[n], ss[n + 1]))
  {
    RemindsIff(cfg, start, es, ss, n);
  }

  /** The timer is due in time for the next delay. */
  ghost predicate DelayInv(cfg: Config, lateness: nat, busy: nat, s: State) {
    var d := DelayScanInterval(cfg);
    if s.currInterval == d then Rearm(s).deadline <= s.nextScanTime + d + busy
    else s.currInterval == cfg.debounceTimeout
         && Rearm(s).deadline <= s.nextScanTime + d + busy + lateness + cfg.debounceTimeout
  }

  lemma DelayStep(cfg: Config, lateness: nat, busy: nat, s: State, e: Event)
    requires 0 <= cfg.debounceTimeout <= DelayScanInterval(cfg) && cfg.delayScan > 0
    requires DelayInv(cfg, lateness, busy, s) && OnTime(lateness, busy, s, e)
    ensures DelayInv(cfg, lateness, busy, Step(cfg, s, e))
  {
    IntervalStep(cfg, s, e);
    TurnSends(cfg, s, e);
    if e.FlushEvent? {
      FlushRearms(cfg, Rearm(s), e);
    } else {
      TimerStays(cfg, s, e);
    }
  }

  lemma TimerStays(cfg: Config, s: State, e: Event)
    requires !e.FlushEvent?
    ensures Rearm(Step(cfg, s, e)).deadline ==
              if Hurries(e) && s.currInterval != cfg.debounceTimeout then e.now + cfg.debounceTimeout
              else Rearm(s).deadline
  {
  }

  lemma {:induction false} DelayInRun(cfg: Config, lateness: nat, busy: nat, start: int, es: seq<Event>, ss: seq<State>,
                                      n: nat)
    requires TimelyRun(cfg, lateness, busy, start, es, ss) && cfg.delayScan > 0 && n <= |es|
    ensures DelayInv(cfg, lateness, busy, ss[n])
  {
    if n > 0 {
      DelayInRun(cfg, lateness, busy, start, es, ss, n - 1);
      assert OnTime(lateness, busy, ss[n - 1], es[n - 1]);
      DelayStep(cfg, lateness, busy, ss[n - 1], es[n - 1]);
    }
  }

  /** Syncthing never goes longer without a delay than twice the time to delay by less ten seconds, a
      debounce interval, a flush and what the timer is late by, twice. */
  lemma DelayedInTime(cfg: Config, lateness: nat, busy: nat, start: int, es: seq<Event>, ss: seq<State>, n: nat)
    requires TimelyRun(cfg, lateness, busy, start, es, ss) && cfg.delayScan > 0 && n < |es|
    ensures es[n].now <= LastDelay(start, es, ss, n) + 2 * cfg.delayScan - 10000 + cfg.debounceTimeout
                         + busy + 2 * lateness
  {
    DelayInRun(cfg, lateness, busy, start, es, ss, n);
    NextScanIs(cfg, start, es, ss, n);
    assert OnTime(lateness, busy, ss[n], es[n]);
  }
}
