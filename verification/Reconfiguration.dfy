/** No reconfiguration is lost, whatever the number of triggers. */
module Reconfiguration {
  import opened Options
  import opened Registrations
  import opened Reconciliation
  import opened TriggerCounter

  ghost predicate IsLatest(s: State, m: nat) {
    m in s.snapshots && forall k :: k in s.snapshots ==> k <= m
  }

  /** The latest snapshot was taken after step n, and lastDevices renders it. */
  ghost predicate RendersSince(s: State, n: nat) {
    exists m: nat :: IsLatest(s, m) && m > n && ListString(s.snapshots[m]) == s.lastDevices
  }

  /** The devices in hand are the latest snapshot, taken after step n. */
  ghost predicate TakenSince(s: State, devices: seq<DeviceRegistration>, n: nat) {
    exists m: nat :: IsLatest(s, m) && m > n && s.snapshots[m] == devices
  }

  /** What the loop has in hand, if it has seen all triggers. */
  ghost predicate StageInv(s: State, seen: nat, committed: nat) {
    match s.stage
    case Idle => true
    case Loaded(_) => true
    case Checked(_) => committed < seen
    case Configured(_) => committed < seen
    case Updated(_) => committed < seen && (seen == s.triggers ==> RendersSince(s, s.lastTrigger))
    case _ => committed < seen && (seen == s.triggers ==> TakenSince(s, s.stage.devices, s.lastTrigger))
  }

  ghost predicate Inv(s: State, seen: nat, committed: nat) {
    && Modular(s, seen, committed)
    && s.lastTrigger <= s.step
    && (forall m :: m in s.snapshots ==> m <= s.step)
    && (committed == s.triggers > 0 ==> RendersSince(s, s.lastTrigger))
    && StageInv(s, seen, committed)
  }

  /** The counts after an action. */
  function SeenAfter(s: State, a: Action, seen: nat): nat {
    if a.LoadCounter? && s.stage.Idle? then s.triggers else seen
  }

  function CommittedAfter(s: State, a: Action, seen: nat, committed: nat): nat {
    if a.Commit? && s.stage.Updated? then seen else committed
  }

  lemma NextKeepsInv(s: State, a: Action, seen: nat, committed: nat)
    requires Inv(s, seen, committed)
    ensures Inv(Next(s, a), SeenAfter(s, a, seen), CommittedAfter(s, a, seen, committed))
  {
    NextIsModular(s, a, seen, committed);
    match a
    case GetDevices(result) => FetchKeepsInv(s, result, seen, committed);
    case FinishUpdate => FinishKeepsInv(s, seen, committed);
    case Commit => CommitKeepsInv(s, seen, committed);
    case SetConfig(_, _) => SameSnapshots(s, a, seen, committed);
    case Restart(_) => SameSnapshots(s, a, seen, committed);
    case _ => EarlyKeepsInv(s, a, seen, committed);
  }

  /** Triggers, signals and the actions before the backend is asked. */
  lemma EarlyKeepsInv(s: State, a: Action, seen: nat, committed: nat)
    requires Inv(s, seen, committed) && Modular(Next(s, a), SeenAfter(s, a, seen), committed)
    requires a.Trigger? || a.Signal? || a.LoadCounter? || a.CheckSignal? || a.GetConfig?
    ensures Inv(Next(s, a), SeenAfter(s, a, seen), committed)
  {
    KeepsSnapshots(s, Next(s, a));
  }

  lemma SameSnapshots(s: State, a: Action, seen: nat, committed: nat)
    requires Inv(s, seen, committed) && Modular(Next(s, a), seen, committed) && (a.SetConfig? || a.Restart?)
    ensures Inv(Next(s, a), seen, committed)
  {
    KeepsSnapshots(s, Next(s, a));
  }

  lemma KeepsSnapshots(s: State, t: State)
    requires t.snapshots == s.snapshots && t.lastDevices == s.lastDevices
    ensures forall n :: RendersSince(s, n) ==> RendersSince(t, n)
    ensures forall d, n :: TakenSince(s, d, n) ==> TakenSince(t, d, n)
  {
    assert forall m :: IsLatest(s, m) <==> IsLatest(t, m);
  }

  lemma CommitKeepsInv(s: State, seen: nat, committed: nat)
    requires Inv(s, seen, committed)
    requires Modular(Next(s, Commit), seen, CommittedAfter(s, Commit, seen, committed))
    ensures Inv(Next(s, Commit), seen, CommittedAfter(s, Commit, seen, committed))
  {
    KeepsSnapshots(s, Next(s, Commit));
  }

  lemma FetchKeepsInv(s: State, result: Option<seq<DeviceRegistration>>, seen: nat, committed: nat)
    requires Inv(s, seen, committed) && Modular(Next(s, GetDevices(result)), seen, committed)
    ensures Inv(Next(s, GetDevices(result)), seen, committed)
  {
    var t := Next(s, GetDevices(result));
    if s.stage.Configured? && result.Some? {
      assert IsLatest(t, s.step + 1) && t.snapshots[s.step + 1] == result.value;
    } else {
      KeepsSnapshots(s, t);
    }
  }

  lemma FinishKeepsInv(s: State, seen: nat, committed: nat)
    requires Inv(s, seen, committed) && Modular(Next(s, FinishUpdate), seen, committed)
    ensures Inv(Next(s, FinishUpdate), seen, committed)
  {
    var t := Next(s, FinishUpdate);
    if !s.stage.Restarted? {
      KeepsSnapshots(s, t);
    } else if seen == s.triggers {
      var m: nat :| IsLatest(s, m) && m > s.lastTrigger && s.snapshots[m] == s.stage.devices;
      assert IsLatest(t, m) && ListString(t.snapshots[m]) == t.lastDevices;
    }
  }

  lemma {:induction false} RunKeepsInv(acts: seq<Action>)
    ensures Inv(Run(acts), Seen(acts), Committed(acts))
  {
    if acts != [] {
      var init := acts[..|acts| - 1];
      RunKeepsInv(init);
      NextKeepsInv(Run(init), acts[|acts| - 1], Seen(init), Committed(init));
    }
  }

  /** No reconfiguration is lost: under every interleaving of triggers with the update loop, once the
      last successful pass has seen all triggers, lastDevices renders the latest snapshot that Get
      returned, and that was after the last trigger. */
  lemma NoLostReconfiguration(acts: seq<Action>)
    requires Committed(acts) == Run(acts).triggers > 0
    ensures RendersSince(Run(acts), Run(acts).lastTrigger)
  {
    RunKeepsInv(acts);
  }

  /** The loop itself compares its counter with the shared one. Equal counters mean that it has seen all
      triggers if and only if fewer than 2^32 came since the last successful pass. */
  lemma CaughtUpIff(acts: seq<Action>)
    requires Run(acts).lastChangeCounter == Run(acts).changeCounter
    ensures Committed(acts) == Run(acts).triggers <==> Run(acts).triggers - Committed(acts) < WIDTH
  {
    CountersAreModular(acts);
    EqualResidues(Run(acts).triggers, Committed(acts));
  }

  lemma EqualResidues(a: nat, b: nat)
    requires a >= b && a % WIDTH == b % WIDTH
    ensures a == b || a - b >= WIDTH
  {
  }

  /** An update that fails leaves lastDevices and the loop's counter alone, so the trigger stays
      pending: unless the service is shutting down, the next look at the counter starts another update
      if and only if the triggers are ahead of those committed modulo 2^32, as they are as long as the
      counter has not wrapped around since the last successful pass. */
  lemma FailedUpdateIsRetried(acts: seq<Action>, a: Action)
    requires var stage := Run(acts).stage; stage.Checked? || stage.Configured? || stage.Fetched? || stage.Stored?
    requires Next(Run(acts), a).stage.Idle?
    ensures var s, t := Run(acts), Next(Run(acts), a);
            && t.lastDevices == s.lastDevices && t.lastChangeCounter == s.lastChangeCounter
            && (t.signalCounter == 0 ==>
                  (Next(Next(t, LoadCounter), CheckSignal).stage == Checked(t.changeCounter) <==>
                   Ahead(t.triggers, Committed(acts))))
            && (t.triggers / WIDTH == Committed(acts) / WIDTH ==> Ahead(t.triggers, Committed(acts)))
  {
    RunKeepsInv(acts);
    NextIsModular(Run(acts), a, Seen(acts), Committed(acts));
    SameWrap(Run(acts).triggers, Committed(acts));
  }

  lemma SameWrap(triggers: nat, committed: nat)
    requires committed < triggers
    ensures triggers / WIDTH == committed / WIDTH ==> Ahead(triggers, committed)
  {
  }

  // ---------------------------------------------------------------- Syncthing's configuration comes first

  /** The pass under way before step n began at step i. */
  ghost predicate PassFrom(acts: seq<Action>, i: nat, n: nat) {
    && i < n <= |acts| && acts[i] == LoadCounter && Run(acts[..i]).stage.Idle?
    && forall h :: i < h <= n ==> !Run(acts[..h]).stage.Idle?
  }

  /** The loop takes the answer to its request for Syncthing's configuration. */
  ghost predicate TakesConfig(acts: seq<Action>, h: nat, ok: bool) {
    h < |acts| && acts[h] == GetConfig(ok) && Run(acts[..h]).stage.Checked?
  }

  /** In this pass Syncthing's configuration was read, and reading it did not fail. */
  ghost predicate HasRead(acts: seq<Action>, i: nat, n: nat) {
    && PassFrom(acts, i, n)
    && (exists g :: i < g < n && TakesConfig(acts, g, true))
    && forall h :: i < h < n ==> !TakesConfig(acts, h, false)
  }

  lemma PassBegins(s: State, a: Action)
    ensures s.stage.Idle? && !Next(s, a).stage.Idle? ==> a == LoadCounter && Next(s, a).stage.Loaded?
    ensures !s.stage.Idle? && !Next(s, a).stage.Idle? && s.stage.Checked? ==> a != GetConfig(false)
    ensures s.stage.Idle? || s.stage.Loaded? || s.stage.Checked? ==>
              Next(s, a).stage.Idle? || Next(s, a).stage.Loaded? || Next(s, a).stage.Checked? ||
              (a == GetConfig(true) && s.stage.Checked?)
  {
  }

  lemma PassGoesOn(acts: seq<Action>, i: nat, m: nat)
    requires PassFrom(acts, i, m) && m < |acts| && !Run(acts[..m + 1]).stage.Idle?
    ensures PassFrom(acts, i, m + 1)
  {
  }

  lemma RunOneMore(acts: seq<Action>, m: nat)
    requires m < |acts|
    ensures Run(acts[..m + 1]) == Next(Run(acts[..m]), acts[m])
  {
    assert acts[..m + 1][..m] == acts[..m];
  }

  lemma HasReadStill(acts: seq<Action>, i: nat, m: nat)
    requires HasRead(acts, i, m) && PassFrom(acts, i, m + 1) && !TakesConfig(acts, m, false)
    ensures HasRead(acts, i, m + 1)
  {
    var g :| i < g < m && TakesConfig(acts, g, true);
    assert i < g < m + 1;
  }

  /** How far the pass has got. */
  predicate Early(stage: Stage) {
    stage.Idle? || stage.Loaded? || stage.Checked?
  }

  lemma PassStep(acts: seq<Action>, i: nat, m: nat)
    requires m < |acts| && !Run(acts[..m + 1]).stage.Idle?
    requires if Run(acts[..m]).stage.Idle? then i == m
             else PassFrom(acts, i, m) && (forall h :: i < h < m ==> !TakesConfig(acts, h, false)) &&
                  (Early(Run(acts[..m]).stage) || HasRead(acts, i, m))
    ensures PassFrom(acts, i, m + 1) && forall h :: i < h < m + 1 ==> !TakesConfig(acts, h, false)
    ensures Early(Run(acts[..m + 1]).stage) || HasRead(acts, i, m + 1)
  {
    RunOneMore(acts, m);
    PassBegins(Run(acts[..m]), acts[m]);
    if i < m {
      PassGoesOn(acts, i, m);
      if !Early(Run(acts[..m]).stage) {
        HasReadStill(acts, i, m);
      } else if !Early(Run(acts[..m + 1]).stage) {
        assert TakesConfig(acts, m, true);
      }
    }
  }

  lemma {:induction false} PassReads(acts: seq<Action>, n: nat) returns (i: nat)
    requires n <= |acts| && !Run(acts[..n]).stage.Idle?
    ensures PassFrom(acts, i, n) && forall h :: i < h < n ==> !TakesConfig(acts, h, false)
    ensures Early(Run(acts[..n]).stage) || HasRead(acts, i, n)
  {
    if Run(acts[..n - 1]).stage.Idle? {
      i := n - 1;
    } else {
      i := PassReads(acts, n - 1);
    }
    PassStep(acts, i, n - 1);
  }

  /** The devices were asked for, stored, believed in, or the trigger was counted as served. */
  predicate Acts(s: State, t: State) {
    || s.snapshots != t.snapshots || s.applied != t.applied
    || s.lastDevices != t.lastDevices || s.lastChangeCounter != t.lastChangeCounter
  }

  /** All of this happens only in a pass that has read Syncthing's configuration before. */
  lemma ReadsFirst(acts: seq<Action>, n: nat) returns (i: nat)
    requires n < |acts| && Acts(Run(acts[..n]), Run(acts[..n + 1]))
    ensures HasRead(acts, i, n)
  {
    assert acts[..n + 1][..n] == acts[..n];
    i := PassReads(acts, n);
  }
}
