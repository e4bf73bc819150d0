/** Bounded latency of accumulateChanges: how long a change can wait for its scan request. */
module Latency {
  import opened Paths
  import opened Accumulation
  import opened Runs

  /** Real time: the clock does not run backwards, the timer fires at most lateness after its
      deadline, and every request succeeds at once on a consistent file system. */
  ghost predicate Prompt(cfg: Config, lateness: int, s: State, e: Event) {
    && s.clock <= e.now <= Rearm(s).deadline + lateness
    && (e.FlushEvent? ==> e.ok && e.done == e.now && ConsistentStat(e.stat))
    && (e.FlushEvent? ==> forall p :: e.now <= e.look(p))
  }

  ghost predicate PromptRun(cfg: Config, lateness: int, start: int, es: seq<Event>, ss: seq<State>) {
    && Sound(cfg) && IsRun(cfg, start, es, ss) && ProperEvents(es)
    && forall n :: 0 <= n < |es| ==> Prompt(cfg, lateness, ss[n], es[n])
  }

  /** An armed timer is due no later than one interval from now. */
  ghost predicate TimerInv(s: State) {
    !s.needsReset ==> s.deadline <= s.clock + s.currInterval
  }

  lemma StepKeepsTimerInv(cfg: Config, lateness: int, s: State, e: Event)
    requires TimerInv(s) && Prompt(cfg, lateness, s, e)
    ensures TimerInv(Step(cfg, s, e)) && Step(cfg, s, e).clock == e.now
  {
    match e {
      case StEvent(now, path, finished) => StKeepsTimer(cfg, Rearm(s), now, path, finished);
      case FsEvent(now, path) => FsKeepsTimer(cfg, Rearm(s), now, path);
      case FlushEvent(_, _, _, _, _) => FlushArmsTimer(cfg, Rearm(s), e);
    }
  }

  lemma StKeepsTimer(cfg: Config, s: State, now: int, path: string, finished: bool)
    requires TimerInv(s) && s.clock <= now
    ensures TimerInv(OnSt(cfg, s, now, path, finished)) && OnSt(cfg, s, now, path, finished).clock == now
  {
  }

  lemma FsKeepsTimer(cfg: Config, s: State, now: int, path: string)
    requires TimerInv(s) && s.clock <= now
    ensures TimerInv(OnFs(cfg, s, now, path)) && OnFs(cfg, s, now, path).clock == now
  {
  }

  lemma FlushArmsTimer(cfg: Config, s: State, e: Event)
    requires e.FlushEvent? && e.done == e.now
    ensures OnFlush(cfg, s, e).needsReset && OnFlush(cfg, s, e).clock == e.now
  {
  }

  lemma {:induction false} RunKeepsTimerInv(cfg: Config, lateness: int, start: int, es: seq<Event>,
          ss: seq<State>, n: nat)
    requires PromptRun(cfg, lateness, start, es, ss) && n <= |es|
    ensures TimerInv(ss[n])
  {
    if n > 0 {
      RunKeepsTimerInv(cfg, lateness, start, es, ss, n - 1);
      StepKeepsTimerInv(cfg, lateness, ss[n - 1], es[n - 1]);
    }
  }

  /** The change accepted at time t still waits, the fast interval is in force, and the next flush
      is due by t plus two debounce intervals. */
  ghost predicate Waiting(cfg: Config, s: State, p: string, t: int) {
    && p in s.inProgress && s.inProgress[p] == ProgressTime(true, t)
    && s.currInterval == cfg.debounceTimeout
    && Rearm(s).deadline <= t + 2 * cfg.debounceTimeout
  }

  ghost predicate Accepted(cfg: Config, s: State, e: Event, p: string) {
    e.FsEvent? && e.path == p && Pending(Step(cfg, s, e), p) && Step(cfg, s, e).inProgress[p].time == e.now
  }

  lemma AcceptedWaits(cfg: Config, lateness: int, s: State, e: Event, p: string)
    requires Sound(cfg) && TimerInv(s) && Prompt(cfg, lateness, s, e) && Accepted(cfg, s, e, p)
    ensures Waiting(cfg, Step(cfg, s, e), p, e.now)
  {
  }

  ghost predicate Concerns(e: Event, p: string) {
    !e.FlushEvent? && e.path == p
  }

  /** A waiting change keeps waiting until it is reported, and time does not pass the bound. */
  lemma WaitingStep(cfg: Config, lateness: int, s: State, e: Event, p: string, t: int)
    requires Sound(cfg) && Inv(cfg, s) && p != "" && CleanRelative(p)
    requires Waiting(cfg, s, p, t) && Prompt(cfg, lateness, s, e) && !Concerns(e, p)
    ensures e.now <= t + 2 * cfg.debounceTimeout + lateness
    ensures Reported(s, Step(cfg, s, e), p) || Waiting(cfg, Step(cfg, s, e), p, t)
  {
    if e.FlushEvent? && !Reported(s, Step(cfg, s, e), p) {
      if !Pending(Step(cfg, s, e), p) {
        StepDischarges(cfg, s, e, p);
        ConsistentNeverStrands(e.stat, DueNow(s, e), cfg.dirVsFiles, p);
      }
      UnreportedIsYoung(cfg, Rearm(s), e, p, t);
    }
  }

  /** A flush that leaves a change waiting came within one debounce interval of it. */
  lemma UnreportedIsYoung(cfg: Config, s: State, e: Event, p: string, t: int)
    requires Sound(cfg) && Inv(cfg, s) && p != "" && e.FlushEvent? && e.ok && e.now <= e.look(p)
    requires p in s.inProgress && s.inProgress[p] == ProgressTime(true, t) && s.currInterval == cfg.debounceTimeout
    requires Pending(OnFlush(cfg, s, e), p)
    ensures e.now - t <= cfg.debounceTimeout
    ensures OnFlush(cfg, s, e).inProgress[p] == ProgressTime(true, t)
    ensures OnFlush(cfg, s, e).currInterval == cfg.debounceTimeout
  {
    FlushShrinks(cfg, s, e);
    DueAggregate(cfg, s, e);
    assert p !in DueNow(s, e);
  }

  lemma WaitingInRun(cfg: Config, lateness: int, start: int, es: seq<Event>, ss: seq<State>, n: nat, p: string, t: int)
    requires PromptRun(cfg, lateness, start, es, ss) && n < |es| && p != "" && CleanRelative(p)
    requires Waiting(cfg, ss[n], p, t) && !Concerns(es[n], p)
    ensures es[n].now <= t + 2 * cfg.debounceTimeout + lateness
    ensures Reported(ss[n], ss[n + 1], p) || Waiting(cfg, ss[n + 1], p, t)
  {
    RunKeepsInv(cfg, start, es, ss, n);
    WaitingStep(cfg, lateness, ss[n], es[n], p, t);
  }

  /** Bounded latency: in a prompt run, a change accepted at time t with no later event on its path
      is covered by a scan request sent no later than t plus two debounce intervals plus the
      timer's lateness, whatever happens on other paths. */
  lemma BoundedLatency(cfg: Config, lateness: int, start: int, es: seq<Event>, ss: seq<State>, i: nat, j: nat,
                       p: string)
    returns (k: nat)
    requires PromptRun(cfg, lateness, start, es, ss) && i < j < |es| && p != ""
    requires Accepted(cfg, ss[i], es[i], p)
    requires forall n :: i < n <= j ==> !Concerns(es[n], p)
    requires es[j].now > es[i].now + 2 * cfg.debounceTimeout + lateness
    ensures i < k < j && es[k].now <= es[i].now + 2 * cfg.debounceTimeout + lateness
    ensures Reported(ss[k], ss[k + 1], p)
  {
    k := FirstReport(cfg, lateness, start, es, ss, i, j, p);
    assert Prompt(cfg, lateness, ss[j], es[j]);
  }

  /** The first report after step i, or j if p still waits there. */
  lemma {:induction false} FirstReport(cfg: Config, lateness: int, start: int, es: seq<Event>, ss: seq<State>,
                                       i: nat, j: nat, p: string)
    returns (k: nat)
    requires PromptRun(cfg, lateness, start, es, ss) && i < j < |es| && p != ""
    requires Accepted(cfg, ss[i], es[i], p)
    requires forall n :: i < n <= j ==> !Concerns(es[n], p)
    ensures i < k <= j && CleanRelative(p)
    ensures k < j ==> es[k].now <= es[i].now + 2 * cfg.debounceTimeout + lateness && Reported(ss[k], ss[k + 1], p)
    ensures k == j ==> Waiting(cfg, ss[j], p, es[i].now)
  {
    assert ProperEvent(es[i]);
    if j == i + 1 {
      RunKeepsTimerInv(cfg, lateness, start, es, ss, i);
      AcceptedWaits(cfg, lateness, ss[i], es[i], p);
      k := j;
    } else {
      k := FirstReport(cfg, lateness, start, es, ss, i, j - 1, p);
      if k == j - 1 {
        WaitingInRun(cfg, lateness, start, es, ss, k, p, es[i].now);
        if !Reported(ss[k], ss[k + 1], p) {
          k := j;
        }
      }
    }
  }
}
