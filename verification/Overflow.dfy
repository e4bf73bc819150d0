/** What accumulateChanges does with changes it has no room to track. */
module Overflow {
  import opened Options
  import opened Paths
  import opened ScanList
  import opened Accumulation
  import opened Runs

  /** Syncthing names no path. */
  ghost predicate Silent(es: seq<Event>) {
    forall n :: 0 <= n < |es| && es[n].StEvent? ==> es[n].path == ""
  }

  ghost predicate OnlyChanges(s: State) {
    forall k :: k in s.inProgress ==> s.inProgress[k].fsEvent
  }

  ghost predicate Full(cfg: Config, s: State) {
    |s.inProgress| > cfg.maxFiles
  }

  /** The paths of the first successful scan request among rs, if there is one. */
  function FirstSuccess(rs: seq<Request>): Option<seq<string>> {
    if rs == [] then None
    else if rs[0].Scan? && rs[0].ok then Some(rs[0].subs)
    else FirstSuccess(rs[1..])
  }

  lemma {:induction false} FirstSuccessOfSum(rs: seq<Request>, rs': seq<Request>)
    ensures FirstSuccess(rs + rs') == if FirstSuccess(rs).Some? then FirstSuccess(rs) else FirstSuccess(rs')
  {
    if rs == [] {
      assert rs + rs' == rs';
    } else {
      FirstSuccessOfSum(rs[1..], rs');
      assert (rs + rs')[1..] == rs[1..] + rs';
    }
  }

  /** The requests sent between two states of a run. */
  ghost function Sent(s: State, t: State): seq<Request> {
    if |s.log| <= |t.log| then t.log[|s.log|..] else []
  }

  lemma SentSum(s: State, t: State, u: State)
    requires s.log <= t.log <= u.log
    ensures s.log <= u.log && Sent(s, u) == Sent(s, t) + Sent(t, u)
  {
  }

  lemma FlushLogGrows(cfg: Config, s: State, e: Event)
    requires e.FlushEvent?
    ensures s.log <= OnFlush(cfg, s, e).log
  {
    var t := Remind(cfg, s.(needsReset := true, clock := e.now), e.now);
    var u := OnFlush(cfg, s, e);
    assert s.log <= t.log;
    assert u.log == t.log || (|u.log| == |t.log| + 1 && u.log[..|t.log|] == t.log);
  }

  lemma OnlyFlushesLog(cfg: Config, s: State, e: Event)
    requires !e.FlushEvent?
    ensures Step(cfg, s, e).log == s.log
  {
    match e
    case StEvent(now, path, finished) =>
      assert OnSt(cfg, Rearm(s), now, path, finished).log == s.log;
    case FsEvent(now, path) =>
      assert OnFs(cfg, Rearm(s), now, path).log == s.log;
  }

  lemma LogGrows(cfg: Config, s: State, e: Event)
    ensures s.log <= Step(cfg, s, e).log
  {
    if e.FlushEvent? {
      FlushLogGrows(cfg, Rearm(s), e);
    } else {
      OnlyFlushesLog(cfg, s, e);
    }
  }

  lemma FullFlush(cfg: Config, s: State, e: Event)
    requires s.inProgress != map[] && |s.inProgress| >= cfg.maxFiles && e.FlushEvent?
    ensures OnFlush(cfg, s, e) == FlushAll(cfg, Remind(cfg, s.(needsReset := true, clock := e.now), e.now), e)
  {
  }

  /** A map that is full stays so until a scan of the whole folder succeeds. */
  lemma FullStep(cfg: Config, s: State, e: Event)
    requires Sound(cfg) && Full(cfg, s) && OnlyChanges(s)
    requires e.StEvent? ==> e.path == ""
    ensures s.log <= Step(cfg, s, e).log
    ensures var first := FirstSuccess(Sent(s, Step(cfg, s, e)));
            first == Some([""]) || (first == None && Full(cfg, Step(cfg, s, e)))
  {
    LogGrows(cfg, s, e);
    if e.FlushEvent? {
      assert s.inProgress != map[];
      FullFlush(cfg, Rearm(s), e);
      FullFlushSends(cfg, Rearm(s), e);
    } else {
      assert Sent(s, Step(cfg, s, e)) == [];
    }
  }

  lemma FullFlushSends(cfg: Config, s: State, e: Event)
    requires e.FlushEvent?
    ensures var t := FlushAll(cfg, Remind(cfg, s.(needsReset := true, clock := e.now), e.now), e);
            s.log <= t.log && FirstSuccess(Sent(s, t)) == if e.ok then Some([""]) else None
  {
    var t := Remind(cfg, s.(needsReset := true, clock := e.now), e.now);
    var u := FlushAll(cfg, t, e);
    var request := [Scan([""], e.ok, e.now)];
    assert Sent(s, u) == Sent(s, t) + request;
    FirstSuccessOfSum(Sent(s, t), request);
    assert FirstSuccess(Sent(s, t)) == None by {
      if Sent(s, t) != [] { assert Sent(s, t) == [Reminder(e.now)]; assert Sent(s, t)[1..] == []; }
    }
    assert request[1..] == [];
  }

  lemma SilentKeepsOnlyChanges(cfg: Config, s: State, e: Event)
    requires Sound(cfg) && OnlyChanges(s) && (e.StEvent? ==> e.path == "")
    ensures OnlyChanges(Step(cfg, s, e))
  {
  }

  lemma {:induction false} SilentRun(cfg: Config, start: int, es: seq<Event>, ss: seq<State>, n: nat)
    requires Sound(cfg) && IsRun(cfg, start, es, ss) && Silent(es) && n <= |es|
    ensures OnlyChanges(ss[n])
  {
    if n > 0 {
      SilentRun(cfg, start, es, ss, n - 1);
      SilentKeepsOnlyChanges(cfg, ss[n - 1], es[n - 1]);
    }
  }

  /** What a full map at s means for a later state t. */
  ghost predicate StaysFull(cfg: Config, s: State, t: State) {
    && s.log <= t.log
    && var first := FirstSuccess(Sent(s, t));
       first == Some([""]) || (first == None && Full(cfg, t))
  }

  lemma StaysFullStep(cfg: Config, s: State, t: State, u: State)
    requires StaysFull(cfg, s, t) && t.log <= u.log && (Full(cfg, t) ==> StaysFull(cfg, t, u))
    ensures StaysFull(cfg, s, u)
  {
    SentSum(s, t, u);
    FirstSuccessOfSum(Sent(s, t), Sent(t, u));
  }

  lemma StaysFullAt(cfg: Config, start: int, es: seq<Event>, ss: seq<State>, n: nat)
    requires Sound(cfg) && IsRun(cfg, start, es, ss) && Silent(es) && n < |es|
    ensures ss[n].log <= ss[n + 1].log && (Full(cfg, ss[n]) ==> StaysFull(cfg, ss[n], ss[n + 1]))
  {
    var s, e := ss[n], es[n];
    LogGrows(cfg, s, e);
    if Full(cfg, s) {
      SilentRun(cfg, start, es, ss, n);
      FullStep(cfg, s, e);
    }
  }

  /** Overflow safety: in a run in which Syncthing names no path, once the map is full the next
      successful scan request is for the whole folder, through any number of failed attempts; so a
      change discarded for lack of room is not forgotten. */
  lemma {:induction false} OverflowIsReported(cfg: Config, start: int, es: seq<Event>, ss: seq<State>, i: nat, j: nat)
    requires Sound(cfg) && IsRun(cfg, start, es, ss) && Silent(es) && i <= j <= |es|
    requires Full(cfg, ss[i])
    ensures StaysFull(cfg, ss[i], ss[j])
  {
    if i == j {
      assert Sent(ss[i], ss[j]) == [];
    } else {
      OverflowIsReported(cfg, start, es, ss, i, j - 1);
      StaysFullAt(cfg, start, es, ss, j - 1);
      StaysFullStep(cfg, ss[i], ss[j - 1], ss[j]);
    }
  }

  lemma PathsLog(cfg: Config, s: State, e: Event)
    requires Sound(cfg) && Inv(cfg, s) && e.FlushEvent?
    ensures var t := FlushPaths(cfg, s, e);
            t.log == if DueNow(s, e) == {} then s.log
                     else s.log + [Scan(ScanListOf(cfg.folder, e.stat, cfg.dirVsFiles, DueNow(s, e)), e.ok, e.now)]
  {
    DueAggregate(cfg, s, e);
  }

  lemma RemindLog(cfg: Config, s: State, now: int)
    ensures var t := Remind(cfg, s, now);
            && (t.log == s.log || t.log == s.log + [Reminder(now)])
            && t.inProgress == s.inProgress && t.currInterval == s.currInterval
  {
  }

  lemma RoomyFlush(cfg: Config, s: State, e: Event)
    requires |s.inProgress| < cfg.maxFiles && e.FlushEvent?
    ensures var t := Remind(cfg, s.(needsReset := true, clock := e.now), e.now);
            OnFlush(cfg, s, e).log == if t.inProgress == map[] then t.log else FlushPaths(cfg, t, e).log
  {
  }

  /** What a flush below the limit sends: the scan list of the due paths and nothing else. */
  lemma FlushReportsDueOnly(cfg: Config, s: State, e: Event, m: nat)
    requires Sound(cfg) && Inv(cfg, s) && |s.inProgress| < cfg.maxFiles && e.FlushEvent?
    requires |s.log| <= m < |OnFlush(cfg, s, e).log| && OnFlush(cfg, s, e).log[m].Scan?
    ensures OnFlush(cfg, s, e).log[m].subs == ScanListOf(cfg.folder, e.stat, cfg.dirVsFiles, DueNow(s, e))
  {
    var t := Remind(cfg, s.(needsReset := true, clock := e.now), e.now);
    RemindLog(cfg, s.(needsReset := true, clock := e.now), e.now);
    RoomyFlush(cfg, s, e);
    PathsLog(cfg, t, e);
    assert DueNow(t, e) == DueNow(s, e);
    LastRequest(s.log, t.log, OnFlush(cfg, s, e).log, Reminder(e.now),
                Scan(ScanListOf(cfg.folder, e.stat, cfg.dirVsFiles, DueNow(s, e)), e.ok, e.now), m);
  }

  lemma LastRequest(s: seq<Request>, t: seq<Request>, u: seq<Request>, reminder: Request, scan: Request, m: nat)
    requires (t == s || t == s + [reminder]) && (u == t || u == t + [scan])
    requires |s| <= m < |u| && u[m].Scan? && reminder.Reminder?
    ensures u[m] == scan
  {
  }

  // ---------------------------------------------------------------- what the next report covers

  lemma LogGrowsAt(cfg: Config, start: int, es: seq<Event>, ss: seq<State>, n: nat)
    requires IsRun(cfg, start, es, ss) && n < |es|
    ensures ss[n].log <= ss[n + 1].log
  {
    LogGrows(cfg, ss[n], es[n]);
  }

  ghost predicate GrowsAt(ss: seq<State>, n: nat) {
    n + 1 < |ss| ==> ss[n].log <= ss[n + 1].log
  }

  lemma {:induction false} LogsGrow(ss: seq<State>, i: nat, j: nat)
    requires i <= j < |ss| && forall n: nat {:trigger GrowsAt(ss, n)} :: GrowsAt(ss, n)
    ensures ss[i].log <= ss[j].log
    decreases j - i
  {
    if i < j {
      LogsGrow(ss, i, j - 1);
      assert GrowsAt(ss, j - 1);
    }
  }

  lemma LogGrowsInRun(cfg: Config, start: int, es: seq<Event>, ss: seq<State>, i: nat, j: nat)
    requires IsRun(cfg, start, es, ss) && i <= j <= |es|
    ensures ss[i].log <= ss[j].log
  {
    forall n: nat ensures GrowsAt(ss, n) {
      if n + 1 < |ss| {
        LogGrowsAt(cfg, start, es, ss, n);
      }
    }
    LogsGrow(ss, i, j);
  }

  /** The directory or file c is covered by the next report: the folder is scanned, or something due
      that qualifies is c or lies above it. */
  ghost predicate NextReportCovers(cfg: Config, s: State, e: Event, c: string)
    requires e.FlushEvent?
  {
    || |s.inProgress| >= cfg.maxFiles
    || exists q :: Qualified(DueNow(s, e), e.stat, cfg.dirVsFiles, q) && CoveredBy(c, q)
  }

  /** A successful flush covers exactly that. */
  lemma SuccessCoversIff(cfg: Config, s: State, e: Event, c: string)
    requires Sound(cfg) && Inv(cfg, s) && e.FlushEvent? && !Rooted(c)
    requires FirstSuccess(Sent(s, OnFlush(cfg, s, e))).Some?
    ensures Covered(FirstSuccess(Sent(s, OnFlush(cfg, s, e))).value, c) <==> NextReportCovers(cfg, s, e, c)
  {
    var u := OnFlush(cfg, s, e);
    if s.inProgress == map[] {
      IdleFlushSendsNothing(cfg, s, e);
    } else if |s.inProgress| >= cfg.maxFiles {
      FullFlush(cfg, s, e);
      FullFlushSends(cfg, s, e);
      assert "" in [""] && CoveredBy(c, "");
    } else {
      RoomyFlushSends(cfg, s, e);
      DueAggregate(cfg, s, e);
      CoveredIffQualified(cfg.folder, e.stat, cfg.dirVsFiles, DueNow(s, e), c);
    }
  }

  lemma IdleFlushSendsNothing(cfg: Config, s: State, e: Event)
    requires s.inProgress == map[] && e.FlushEvent?
    ensures FirstSuccess(Sent(s, OnFlush(cfg, s, e))) == None
  {
    var sent := Sent(s, OnFlush(cfg, s, e));
    assert sent == [] || sent == [Reminder(e.now)];
    assert [Reminder(e.now)][1..] == [];
  }

  lemma RoomyFlushSends(cfg: Config, s: State, e: Event)
    requires Sound(cfg) && Inv(cfg, s) && |s.inProgress| < cfg.maxFiles && e.FlushEvent?
    ensures FirstSuccess(Sent(s, OnFlush(cfg, s, e))) in
              {None, Some(ScanListOf(cfg.folder, e.stat, cfg.dirVsFiles, DueNow(s, e)))}
  {
    var r := s.(needsReset := true, clock := e.now);
    var t := Remind(cfg, r, e.now);
    RemindLog(cfg, r, e.now);
    RoomyFlush(cfg, s, e);
    PathsLog(cfg, t, e);
    assert DueNow(t, e) == DueNow(s, e);
    SuccessAmong(s.log, t.log, OnFlush(cfg, s, e).log, Reminder(e.now),
                 Scan(ScanListOf(cfg.folder, e.stat, cfg.dirVsFiles, DueNow(s, e)), e.ok, e.now));
  }

  lemma SuccessAmong(s: seq<Request>, t: seq<Request>, u: seq<Request>, reminder: Request, scan: Request)
    requires (t == s || t == s + [reminder]) && (u == t || u == t + [scan])
    requires reminder.Reminder? && scan.Scan?
    ensures FirstSuccess(u[|s|..]) in {None, Some(scan.subs)}
  {
    var reminded, sent := t[|s|..], u[|t|..];
    assert reminded == [] || reminded == [reminder];
    assert sent == [] || sent == [scan];
    assert u[|s|..] == reminded + sent;
    FirstSuccessOfSum(reminded, sent);
    assert [scan][1..] == [] && [reminder][1..] == [];
  }

  lemma DiscardStep(cfg: Config, s: State, now: int, c: string)
    requires c !in s.inProgress
    ensures c !in Step(cfg, s, FsEvent(now, c)).inProgress <==> Full(cfg, s)
  {
  }

  /** When a discarded change is covered after all. A change of an untracked path is discarded if and
      only if more than maxFiles paths are tracked; and the first successful request after it covers
      its path if and only if, when that flush comes, at least maxFiles paths are tracked, or some
      due path that qualifies is the path itself or lies above it. */
  lemma DiscardedIsCoveredIff(cfg: Config, start: int, es: seq<Event>, ss: seq<State>, i: nat, k: nat,
                              now: int, c: string)
    requires Sound(cfg) && IsRun(cfg, start, es, ss) && ProperEvents(es) && i < k < |es|
    requires es[i] == FsEvent(now, c) && c !in ss[i].inProgress
    requires FirstSuccess(Sent(ss[i + 1], ss[k])) == None && FirstSuccess(Sent(ss[k], ss[k + 1])).Some?
    ensures c !in ss[i + 1].inProgress <==> Full(cfg, ss[i])
    ensures es[k].FlushEvent?
    ensures var first := FirstSuccess(Sent(ss[i + 1], ss[k + 1]));
            first.Some? && (Covered(first.value, c) <==> NextReportCovers(cfg, ss[k], es[k], c))
  {
    LogGrowsInRun(cfg, start, es, ss, i + 1, k);
    LogGrows(cfg, ss[k], es[k]);
    SentSum(ss[i + 1], ss[k], ss[k + 1]);
    FirstSuccessOfSum(Sent(ss[i + 1], ss[k]), Sent(ss[k], ss[k + 1]));
    RunKeepsInv(cfg, start, es, ss, k);
    assert !Rooted(c) by { assert ProperEvent(es[i]); }
    DiscardStep(cfg, ss[i], now, c);
    if !es[k].FlushEvent? {
      OnlyFlushesLog(cfg, ss[k], es[k]);
    }
    assert DueNow(Rearm(ss[k]), es[k]) == DueNow(ss[k], es[k]);
    SuccessCoversIff(cfg, Rearm(ss[k]), es[k], c);
  }

  /** No request ever has an empty list, which Syncthing would take for the whole folder. */
  ghost predicate NamesSomething(rs: seq<Request>) {
    forall i :: 0 <= i < |rs| && rs[i].Scan? ==> rs[i].subs != []
  }

  lemma StepNamesSomething(cfg: Config, s: State, e: Event)
    requires Sound(cfg) && Inv(cfg, s) && NamesSomething(s.log)
    ensures NamesSomething(Step(cfg, s, e).log)
  {
    if e.FlushEvent? {
      FlushNamesSomething(cfg, Rearm(s), e);
    } else {
      OnlyFlushesLog(cfg, s, e);
    }
  }

  lemma FlushNamesSomething(cfg: Config, s: State, e: Event)
    requires Sound(cfg) && Inv(cfg, s) && NamesSomething(s.log) && e.FlushEvent?
    ensures NamesSomething(OnFlush(cfg, s, e).log)
  {
    var t := Remind(cfg, s.(needsReset := true, clock := e.now), e.now);
    if t.inProgress != map[] && |t.inProgress| < cfg.maxFiles {
      PathsLog(cfg, t, e);
      DueAggregate(cfg, t, e);
      if DueNow(t, e) != {} {
        SomethingIsScanned(cfg.folder, e.stat, cfg.dirVsFiles, DueNow(t, e));
      }
    }
  }

  lemma {:induction false} RequestsNameSomething(cfg: Config, start: int, es: seq<Event>, ss: seq<State>, n: nat)
    requires Sound(cfg) && IsRun(cfg, start, es, ss) && ProperEvents(es) && n <= |es|
    ensures NamesSomething(ss[n].log)
  {
    if n > 0 {
      RequestsNameSomething(cfg, start, es, ss, n - 1);
      RunKeepsInv(cfg, start, es, ss, n - 1);
      StepNamesSomething(cfg, ss[n - 1], es[n - 1]);
    }
  }
}
