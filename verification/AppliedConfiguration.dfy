/** The configuration Syncthing holds compared with what the service believes it holds. */
module AppliedConfiguration {
  import opened Options
  import opened Registrations
  import opened Reconciliation
  import opened TriggerCounter
  import opened Reconfiguration

  /** The action stores a configuration in Syncthing. */
  predicate StoresConfig(s: State, a: Action) {
    a.SetConfig? && s.stage.Fetched? && (a.ok || a.reached)
  }

  /** The action ends an update: lastDevices now stands for the configuration stored. */
  predicate ConfirmsConfig(s: State, a: Action) {
    a.FinishUpdate? && s.stage.Restarted?
  }

  /** A configuration was stored after the last update that ended. */
  predicate Unconfirmed(acts: seq<Action>) {
    acts != []
    && var init, a := acts[..|acts| - 1], acts[|acts| - 1];
       if StoresConfig(Run(init), a) then true
       else if ConfirmsConfig(Run(init), a) then false
       else Unconfirmed(init)
  }

  ghost predicate AppliedInv(s: State, unconfirmed: bool) {
    && (s.stage.Fetched? || s.stage.Stored? || s.stage.Restarted? ==> ListString(s.stage.devices) != s.lastDevices)
    && (s.stage.Stored? || s.stage.Restarted? ==> s.applied == Some(s.stage.devices) && unconfirmed)
    && (s.applied == None ==> s.lastDevices == "" && !unconfirmed)
    && (s.applied.Some? ==> (ListString(s.applied.value) == s.lastDevices <==> !unconfirmed))
  }

  lemma NextKeepsApplied(s: State, a: Action, unconfirmed: bool)
    requires AppliedInv(s, unconfirmed)
    ensures AppliedInv(Next(s, a),
                       if StoresConfig(s, a) then true else if ConfirmsConfig(s, a) then false else unconfirmed)
  {
    match a
    case SetConfig(ok, reached) => SetKeepsApplied(s, ok, reached, unconfirmed);
    case FinishUpdate => FinishKeepsApplied(s, unconfirmed);
    case GetDevices(result) => FetchKeepsApplied(s, result, unconfirmed);
    case _ =>
  }

  lemma SetKeepsApplied(s: State, ok: bool, reached: bool, unconfirmed: bool)
    requires AppliedInv(s, unconfirmed)
    ensures AppliedInv(Next(s, SetConfig(ok, reached)), StoresConfig(s, SetConfig(ok, reached)) || unconfirmed)
  {
  }

  lemma FinishKeepsApplied(s: State, unconfirmed: bool)
    requires AppliedInv(s, unconfirmed)
    ensures AppliedInv(Next(s, FinishUpdate), !ConfirmsConfig(s, FinishUpdate) && unconfirmed)
  {
  }

  lemma FetchKeepsApplied(s: State, result: Option<seq<DeviceRegistration>>, unconfirmed: bool)
    requires AppliedInv(s, unconfirmed)
    ensures AppliedInv(Next(s, GetDevices(result)), unconfirmed)
  {
  }

  lemma {:induction false} RunKeepsApplied(acts: seq<Action>)
    ensures AppliedInv(Run(acts), Unconfirmed(acts))
  {
    if acts != [] {
      RunKeepsApplied(acts[..|acts| - 1]);
      NextKeepsApplied(Run(acts[..|acts| - 1]), acts[|acts| - 1], Unconfirmed(acts[..|acts| - 1]));
    }
  }

  /** In every run, with any number of triggers, the configuration Syncthing holds renders as
      lastDevices if and only if none was stored after the last update that ended. */
  lemma AppliedMatchesIff(acts: seq<Action>)
    requires Run(acts).applied.Some?
    ensures ListString(Run(acts).applied.value) == Run(acts).lastDevices <==> !Unconfirmed(acts)
  {
    RunKeepsApplied(acts);
  }

  /** So once the last successful pass has seen all triggers, Syncthing holds the configuration of the
      latest snapshot, which was taken after the last trigger, if and only if that is so. */
  lemma SettledIsCurrentIff(acts: seq<Action>) returns (m: nat)
    requires Committed(acts) == Run(acts).triggers > 0 && Run(acts).applied.Some?
    ensures var s := Run(acts);
            && IsLatest(s, m) && m > s.lastTrigger
            && (ListString(s.snapshots[m]) == ListString(s.applied.value) <==> !Unconfirmed(acts))
  {
    NoLostReconfiguration(acts);
    AppliedMatchesIff(acts);
    var s := Run(acts);
    m :| IsLatest(s, m) && m > s.lastTrigger && ListString(s.snapshots[m]) == s.lastDevices;
  }

  /** A pass of the loop up to the point where the backend answered. */
  function Fetch(s: State, devices: seq<DeviceRegistration>): State {
    Next(Next(Next(Next(s, LoadCounter), CheckSignal), GetConfig(true)), GetDevices(Some(devices)))
  }

  lemma FetchLands(s: State, devices: seq<DeviceRegistration>)
    requires s.stage == Idle && s.signalCounter == 0 && s.lastChangeCounter < s.changeCounter
    ensures var t := Fetch(s, devices);
            && t.stage == (if ListString(devices) == s.lastDevices then Updated(s.changeCounter)
                           else Fetched(s.changeCounter, devices))
            && t == s.(stage := t.stage, step := s.step + 4, snapshots := s.snapshots[s.step + 4 := devices])
  {
  }

  /** Where the bookkeeping goes wrong: from any settled state with the configuration of a in place,
      a trigger, an update to b whose restart fails, and a registry that is back at a: the loop
      settles on "no update needed" while Syncthing still holds b. */
  lemma RevertedRegistryIsStale(s: State, a: seq<DeviceRegistration>, b: seq<DeviceRegistration>)
    requires s.stage == Idle && s.signalCounter == 0 && s.lastChangeCounter == s.changeCounter < WIDTH - 1
    requires s.lastDevices == ListString(a) != ListString(b)
    ensures var failed := Next(Next(Fetch(Next(s, Trigger), b), SetConfig(true, true)), Restart(false));
            var settled := Next(Fetch(failed, a), Commit);
            && settled.stage == Idle && settled.lastChangeCounter == settled.changeCounter
            && settled.lastDevices == ListString(a) && settled.applied == Some(b)
  {
    FetchLands(Next(s, Trigger), b);
    var failed := Next(Next(Fetch(Next(s, Trigger), b), SetConfig(true, true)), Restart(false));
    FetchLands(failed, a);
  }

  /** That happens in a run of the program: the registry goes to b and back to empty. */
  function StaleActions(b: seq<DeviceRegistration>): seq<Action> {
    [Trigger, LoadCounter, CheckSignal, GetConfig(true), GetDevices(Some(b)), SetConfig(true, true), Restart(false),
     LoadCounter, CheckSignal, GetConfig(true), GetDevices(Some([])), Commit]
  }

  lemma EmptyString(list: seq<DeviceRegistration>)
    ensures ListString(list) == "" <==> list == []
  {
  }

  lemma RunPrefix(acts: seq<Action>, n: nat)
    requires n < |acts|
    ensures Run(acts[..n + 1]) == Next(Run(acts[..n]), acts[n])
  {
    assert acts[..n + 1][..n] == acts[..n];
  }

  lemma Goes(acts: seq<Action>, n: nat, s: State)
    requires n < |acts| && Run(acts[..n]) == s
    ensures Run(acts[..n + 1]) == Next(s, acts[n])
  {
    RunPrefix(acts, n);
  }

  /** The first pass stores b and fails to restart. */
  function Failed(b: seq<DeviceRegistration>): State {
    INITIAL.(changeCounter := 1, triggers := 1, lastTrigger := 1, step := 7, snapshots := map[5 := b],
      applied := Some(b))
  }

  lemma FirstPass(b: seq<DeviceRegistration>)
    requires b != []
    ensures var s := Next(Fetch(Next(INITIAL, Trigger), b), SetConfig(true, true)); Next(s, Restart(false)) == Failed(b)
  {
    EmptyString(b);
    FetchLands(Next(INITIAL, Trigger), b);
  }

  lemma PassIsRun(acts: seq<Action>, n: nat, s: State, devices: seq<DeviceRegistration>)
    requires n + 4 <= |acts| && Run(acts[..n]) == s
    requires acts[n] == LoadCounter && acts[n + 1] == CheckSignal
    requires acts[n + 2] == GetConfig(true) && acts[n + 3] == GetDevices(Some(devices))
    ensures Run(acts[..n + 4]) == Fetch(s, devices)
  {
    Goes(acts, n, s);
    Goes(acts, n + 1, Next(s, LoadCounter));
    Goes(acts, n + 2, Next(Next(s, LoadCounter), CheckSignal));
    Goes(acts, n + 3, Next(Next(Next(s, LoadCounter), CheckSignal), GetConfig(true)));
  }

  lemma StaleStart(b: seq<DeviceRegistration>)
    requires b != []
    ensures Run(StaleActions(b)[..7]) == Failed(b)
  {
    var acts := StaleActions(b);
    assert acts[..0] == [];
    Goes(acts, 0, INITIAL);
    PassIsRun(acts, 1, Next(INITIAL, Trigger), b);
    Goes(acts, 5, Run(acts[..5]));
    Goes(acts, 6, Run(acts[..6]));
    FirstPass(b);
  }

  lemma StaleRun(b: seq<DeviceRegistration>)
    requires b != []
    ensures Run(StaleActions(b)) == Next(Fetch(Failed(b), []), Commit)
  {
    var acts := StaleActions(b);
    StaleStart(b);
    PassIsRun(acts, 7, Failed(b), []);
    Goes(acts, 11, Run(acts[..11]));
    assert acts[..12] == acts;
  }

  /** After this run the loop has caught up and lastDevices renders the latest snapshot, but Syncthing
      still holds b, which was a snapshot taken after the last trigger too. */
  lemma StaleInARun(b: seq<DeviceRegistration>)
    requires b != []
    ensures var acts := StaleActions(b);
            var s := Run(acts);
            && s.stage == Idle && s.lastChangeCounter == s.changeCounter == s.triggers == 1 && s.lastDevices == ""
            && s.applied == Some(b) && Unconfirmed(acts)
            && 5 in s.snapshots && 5 > s.lastTrigger && s.snapshots[5] == b
  {
    StaleRun(b);
    FetchLands(Failed(b), []);
    EmptyString(b);
    AppliedMatchesIff(StaleActions(b));
  }
}
