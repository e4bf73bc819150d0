/** A run of accumulateChanges that forgets a change, for every configuration with room for two
    paths. */
module OverflowRun {
  import opened Options
  import opened Paths
  import opened Aggregation
  import opened ScanList
  import opened Accumulation
  import opened Runs
  import opened Overflow

  /** Where the events take the program. */
  ghost function After(cfg: Config, start: int, es: seq<Event>): State {
    if es == [] then Init(cfg, start) else Step(cfg, After(cfg, start, es[..|es| - 1]), es[|es| - 1])
  }

  ghost function States(cfg: Config, start: int, es: seq<Event>): seq<State> {
    seq(|es| + 1, n requires 0 <= n <= |es| => After(cfg, start, es[..n]))
  }

  lemma StatesAreRun(cfg: Config, start: int, es: seq<Event>)
    ensures IsRun(cfg, start, es, States(cfg, start, es))
  {
    forall n | 0 <= n < |es| ensures States(cfg, start, es)[n + 1] == Step(cfg, States(cfg, start, es)[n], es[n]) {
      assert es[..n + 1][..n] == es[..n];
    }
  }

  lemma AfterOne(cfg: Config, start: int, es: seq<Event>, e: Event)
    ensures After(cfg, start, es + [e]) == Step(cfg, After(cfg, start, es), e)
  {
    assert (es + [e])[..|es|] == es;
  }

  /** "a", "aa", "aaa" and so on: names of files in the folder. */
  function Name(i: nat): string {
    seq(i + 1, _ => 'a')
  }

  function Names(n: nat): set<string> {
    set i: nat | i < n :: Name(i)
  }

  /** The first n files change, all at time t. */
  function Changes(n: nat, t: int): seq<Event> {
    seq(n, i requires 0 <= i < n => FsEvent(t, Name(i)))
  }

  lemma NameIsNew(n: nat, i: nat)
    requires n <= i
    ensures Name(i) !in Names(n)
  {
    forall j: nat | j < n ensures Name(j) != Name(i) {
      assert |Name(j)| != |Name(i)|;
    }
  }

  lemma {:induction false} NamesCount(n: nat)
    ensures |Names(n)| == n
  {
    if n > 0 {
      NamesCount(n - 1);
      NameIsNew(n - 1, n - 1);
      NextName(n - 1, 0);
    }
  }

  lemma NameIsClean(i: nat)
    ensures CleanRelative(Name(i)) && !CoveredBy("b", Name(i))
  {
    assert Name(i)[0] == 'a';
    Word(Name(i));
  }

  /** The first n files are tracked as changed at time t, and nothing was reported. */
  ghost predicate Tracks(cfg: Config, s: State, names: set<string>, t: int) {
    && s.inProgress.Keys == names && (forall k :: k in names ==> s.inProgress[k] == ProgressTime(true, t))
    && (names != {} ==> s.currInterval == cfg.debounceTimeout)
    && FirstSuccess(s.log) == None
  }

  lemma NothingTracked(cfg: Config, start: int)
    ensures Tracks(cfg, Init(cfg, start), {}, start)
  {
    assert [Reminder(start)][1..] == [];
  }

  lemma ChangeIsTracked(cfg: Config, s: State, names: set<string>, t: int, c: string)
    requires Tracks(cfg, s, names, t) && |names| <= cfg.maxFiles && c !in names
    ensures Tracks(cfg, Step(cfg, s, FsEvent(t, c)), names + {c}, t)
  {
    assert |s.inProgress.Keys| == |s.inProgress|;
  }

  lemma NextName(n: nat, t: int)
    ensures Names(n + 1) == Names(n) + {Name(n)}
    ensures Changes(n + 1, t) == Changes(n, t) + [FsEvent(t, Name(n))]
  {
  }

  lemma {:induction false} ChangesAreTracked(cfg: Config, start: int, t: int, n: nat)
    requires Sound(cfg) && n <= cfg.maxFiles + 1
    ensures Tracks(cfg, After(cfg, start, Changes(n, t)), Names(n), t)
  {
    if n == 0 {
      assert Changes(0, t) == [] && Names(0) == {};
      NothingTracked(cfg, start);
    } else {
      ChangesAreTracked(cfg, start, t, n - 1);
      NamesCount(n - 1);
      NameIsNew(n - 1, n - 1);
      NextName(n - 1, t);
      AfterOne(cfg, start, Changes(n - 1, t), FsEvent(t, Name(n - 1)));
      ChangeIsTracked(cfg, After(cfg, start, Changes(n - 1, t)), Names(n - 1), t, Name(n - 1));
    }
  }

  lemma FinishedIsUntracked(cfg: Config, s: State, names: set<string>, t: int, a: string)
    requires Tracks(cfg, s, names, t) && a in names && a != "" && names != {a}
    ensures Tracks(cfg, Step(cfg, s, StEvent(t, a, true)), names - {a}, t)
    ensures Step(cfg, s, StEvent(t, a, true)).log == s.log
  {
  }

  lemma DiscardedWhenFull(cfg: Config, s: State, names: set<string>, t: int, c: string)
    requires Tracks(cfg, s, names, t) && |names| > cfg.maxFiles >= 0 && c !in names
    ensures Tracks(cfg, Step(cfg, s, FsEvent(t, c)), names, t)
    ensures Step(cfg, s, FsEvent(t, c)).log == s.log
  {
  }

  /** A flush that finds all tracked changes due and none of their files on disk. */
  function LateFlush(cfg: Config, t: int): Event {
    var late := t + cfg.debounceTimeout + 1;
    FlushEvent(late, late, _ => late, _ => Deleted, true)
  }

  lemma AllAreDue(cfg: Config, s: State, names: set<string>, t: int)
    requires Tracks(cfg, s, names, t) && names != {} && forall k :: k in names ==> k != ""
    ensures DueNow(s, LateFlush(cfg, t)) == names
  {
  }

  ghost predicate MissedBy(first: Option<seq<string>>, c: string) {
    first.Some? && !Covered(first.value, c)
  }

  lemma LateFlushMisses(cfg: Config, s: State, names: set<string>, t: int, c: string)
    requires Sound(cfg) && Inv(cfg, s) && Tracks(cfg, s, names, t) && names != {} && |names| < cfg.maxFiles
    requires !Rooted(c) && forall k :: k in names ==> CleanRelative(k) && k != "" && !CoveredBy(c, k)
    ensures MissedBy(FirstSuccess(Sent(s, OnFlush(cfg, s, LateFlush(cfg, t)))), c)
  {
    LateFlushSends(cfg, s, names, t);
    NothingDueCovers(cfg, s, names, t, c);
    SuccessCoversIff(cfg, s, LateFlush(cfg, t), c);
  }

  lemma NothingDueCovers(cfg: Config, s: State, names: set<string>, t: int, c: string)
    requires Sound(cfg) && Inv(cfg, s) && Tracks(cfg, s, names, t) && names != {} && |names| < cfg.maxFiles
    requires forall k :: k in names ==> k != "" && !CoveredBy(c, k)
    ensures !NextReportCovers(cfg, s, LateFlush(cfg, t), c)
  {
    var e := LateFlush(cfg, t);
    AllAreDue(cfg, s, names, t);
    DueAggregate(cfg, s, e);
    NoFilesQualify(cfg.folder, e.stat, cfg.dirVsFiles, names);
    assert |s.inProgress.Keys| == |s.inProgress|;
  }

  lemma LateFlushSends(cfg: Config, s: State, names: set<string>, t: int)
    requires Sound(cfg) && Inv(cfg, s) && Tracks(cfg, s, names, t) && names != {} && |names| < cfg.maxFiles
    requires forall k :: k in names ==> k != ""
    ensures FirstSuccess(Sent(s, OnFlush(cfg, s, LateFlush(cfg, t)))).Some?
  {
    var e := LateFlush(cfg, t);
    var r := Remind(cfg, s.(needsReset := true, clock := e.now), e.now);
    RemindLog(cfg, s.(needsReset := true, clock := e.now), e.now);
    assert Inv(cfg, r) && r.inProgress == s.inProgress;
    AllAreDue(cfg, s, names, t);
    assert DueNow(r, e) == DueNow(s, e);
    assert |s.inProgress.Keys| == |s.inProgress|;
    RoomyFlush(cfg, s, e);
    PathsLog(cfg, r, e);
    SuccessLast(s.log, r.log, Scan(ScanListOf(cfg.folder, e.stat, cfg.dirVsFiles, names), true, e.now));
  }

  lemma SuccessLast(s: seq<Request>, t: seq<Request>, scan: Request)
    requires s <= t && scan.Scan? && scan.ok
    ensures FirstSuccess((t + [scan])[|s|..]).Some?
  {
    FirstSuccessOfSum(t[|s|..], [scan]);
    assert (t + [scan])[|s|..] == t[|s|..] + [scan];
  }

  /** maxFiles + 1 changes, one change too many, two of the files finished by Syncthing, and a flush
      at a time when all changes are due; by then the files are gone. */
  function Forgetful(cfg: Config, t: int): seq<Event>
    requires cfg.maxFiles >= 0
  {
    Changes(cfg.maxFiles + 1, t)
    + [FsEvent(t, "b"), StEvent(t, Name(0), true), StEvent(t, Name(1), true), LateFlush(cfg, t)]
  }

  lemma ForgetfulStates(cfg: Config, start: int, t: int)
    requires cfg.maxFiles >= 0
    ensures var ss, i := States(cfg, start, Forgetful(cfg, t)), cfg.maxFiles + 1;
            && ss[i] == After(cfg, start, Changes(i, t))
            && ss[i + 1] == Step(cfg, ss[i], FsEvent(t, "b"))
            && ss[i + 2] == Step(cfg, ss[i + 1], StEvent(t, Name(0), true))
            && ss[i + 3] == Step(cfg, ss[i + 2], StEvent(t, Name(1), true))
            && ss[i + 4] == Step(cfg, ss[i + 3], LateFlush(cfg, t))
  {
    var es, i := Forgetful(cfg, t), cfg.maxFiles + 1;
    StatesAreRun(cfg, start, es);
    assert es[..i] == Changes(i, t);
    assert es[i] == FsEvent(t, "b") && es[i + 1] == StEvent(t, Name(0), true);
    assert es[i + 2] == StEvent(t, Name(1), true) && es[i + 3] == LateFlush(cfg, t);
  }

  lemma ForgetfulIsProper(cfg: Config, t: int)
    requires cfg.maxFiles >= 0
    ensures ProperEvents(Forgetful(cfg, t))
  {
    var es := Forgetful(cfg, t);
    Word("b");
    forall n | 0 <= n < |es| ensures ProperEvent(es[n]) {
      if n <= cfg.maxFiles {
        NameIsClean(n);
      }
    }
  }

  function Left(n: nat): set<string> {
    Names(n) - {Name(0)} - {Name(1)}
  }

  lemma LeftNames(n: nat)
    requires n >= 3
    ensures Name(0) in Names(n) && Name(1) in Names(n) - {Name(0)} && Left(n) != {} && |Left(n)| == n - 2
  {
    NamesCount(n);
    assert |Name(0)| == 1 && |Name(1)| == 2 && |Name(2)| == 3;
    assert Name(2) in Left(n);
  }

  lemma NamesAreClean(n: nat)
    ensures forall k :: k in Names(n) ==> CleanRelative(k) && k != "" && !CoveredBy("b", k)
    ensures "b" !in Names(n)
  {
    forall k | k in Names(n) ensures CleanRelative(k) && k != "" && !CoveredBy("b", k) {
      var i: nat :| i < n && Name(i) == k;
      NameIsClean(i);
    }
  }

  /** From the full map to the last flush: one change discarded, two files finished. */
  lemma TwoFinished(cfg: Config, s: State, t: int, n: nat)
    requires Tracks(cfg, s, Names(n), t) && n == cfg.maxFiles + 1 >= 3
    ensures var s1 := Step(cfg, s, FsEvent(t, "b"));
            var s3 := Step(cfg, Step(cfg, s1, StEvent(t, Name(0), true)), StEvent(t, Name(1), true));
            "b" !in s.inProgress && "b" !in s1.inProgress && s3.log == s1.log && Tracks(cfg, s3, Left(n), t)
  {
    NamesCount(n);
    NamesAreClean(n);
    LeftNames(n);
    DiscardedWhenFull(cfg, s, Names(n), t, "b");
    var s1 := Step(cfg, s, FsEvent(t, "b"));
    FinishedIsUntracked(cfg, s1, Names(n), t, Name(0));
    FinishedIsUntracked(cfg, Step(cfg, s1, StEvent(t, Name(0), true)), Names(n) - {Name(0)}, t, Name(1));
  }

  /** And the flush: it succeeds, and covers "b" neither in what it scans nor in what it keeps. */
  lemma FlushForgets(cfg: Config, s: State, t: int, n: nat)
    requires Sound(cfg) && Inv(cfg, s) && Tracks(cfg, s, Left(n), t) && n == cfg.maxFiles + 1 >= 3
    ensures var u := Step(cfg, s, LateFlush(cfg, t));
            "b" !in u.inProgress && MissedBy(FirstSuccess(Sent(s, u)), "b")
  {
    NamesAreClean(n);
    LeftNames(n);
    KeepsOut(cfg, s, LateFlush(cfg, t), "b");
    LateFlushMisses(cfg, Rearm(s), Left(n), t, "b");
    SentByFlush(cfg, s, LateFlush(cfg, t));
  }

  lemma SentByFlush(cfg: Config, s: State, e: Event)
    requires e.FlushEvent?
    ensures Sent(s, Step(cfg, s, e)) == Sent(Rearm(s), OnFlush(cfg, Rearm(s), e))
  {
  }

  lemma KeepsOut(cfg: Config, s: State, e: Event, c: string)
    requires e.FlushEvent? && c !in s.inProgress
    ensures c !in Step(cfg, s, e).inProgress
  {
    FlushShrinks(cfg, Rearm(s), e);
  }

  /** At step i the change of an untracked path c is discarded; the first successful request after it,
      at step k, does not cover c, and c is not tracked either. */
  ghost predicate Forgets(cfg: Config, start: int, es: seq<Event>, ss: seq<State>, i: nat, k: nat, c: string) {
    && IsRun(cfg, start, es, ss) && ProperEvents(es) && i < k < |es|
    && es[i].FsEvent? && es[i].path == c && c !in ss[i].inProgress && c !in ss[i + 1].inProgress
    && c !in ss[k + 1].inProgress
    && FirstSuccess(Sent(ss[i + 1], ss[k])) == None && MissedBy(FirstSuccess(Sent(ss[i + 1], ss[k + 1])), c)
  }

  /** The run of these events forgets the change of "b". */
  lemma ForgottenInARun(cfg: Config, start: int, t: int)
    requires Sound(cfg) && cfg.maxFiles >= 2
    ensures Forgets(cfg, start, Forgetful(cfg, t), States(cfg, start, Forgetful(cfg, t)),
                    cfg.maxFiles + 1, cfg.maxFiles + 4, "b")
  {
    var es, ss := Forgetful(cfg, t), States(cfg, start, Forgetful(cfg, t));
    var i, k := cfg.maxFiles + 1, cfg.maxFiles + 4;
    StatesAreRun(cfg, start, es);
    ForgetfulIsProper(cfg, t);
    ForgetfulStates(cfg, start, t);
    ChangesAreTracked(cfg, start, t, i);
    TwoFinished(cfg, ss[i], t, i);
    RunKeepsInv(cfg, start, es, ss, k);
    FlushForgets(cfg, ss[k], t, i);
    SilentStretch(ss[i + 1], ss[k], ss[k + 1]);
  }

  lemma SilentStretch(s: State, t: State, u: State)
    requires s.log == t.log
    ensures Sent(s, t) == [] && Sent(s, u) == Sent(t, u)
  {
  }
}
