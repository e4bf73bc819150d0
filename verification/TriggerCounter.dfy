/** The 32-bit trigger counter compared with the number of triggers it stands for. */
module TriggerCounter {
  import opened Options
  import opened Reconciliation

  /** How many triggers there had been when the loop last loaded the counter. */
  function Seen(acts: seq<Action>): nat {
    if acts == [] then 0
    else
      var init, a := acts[..|acts| - 1], acts[|acts| - 1];
      if a.LoadCounter? && Run(init).stage.Idle? then Run(init).triggers else Seen(init)
  }

  /** How many of them the loop had seen when it began its last successful update. */
  function Committed(acts: seq<Action>): nat {
    if acts == [] then 0
    else
      var init, a := acts[..|acts| - 1], acts[|acts| - 1];
      if a.Commit? && Run(init).stage.Updated? then Seen(init) else Committed(init)
  }

  /** The counters are the numbers of triggers modulo 2^32. */
  ghost predicate Modular(s: State, seen: nat, committed: nat) {
    && committed <= seen <= s.triggers
    && s.changeCounter == s.triggers % WIDTH
    && s.lastChangeCounter == committed % WIDTH
    && (!s.stage.Idle? ==> s.stage.current == seen % WIDTH)
  }

  lemma NextIsModular(s: State, a: Action, seen: nat, committed: nat)
    requires Modular(s, seen, committed)
    ensures Modular(Next(s, a), if a.LoadCounter? && s.stage.Idle? then s.triggers else seen,
                    if a.Commit? && s.stage.Updated? then seen else committed)
  {
  }

  lemma {:induction false} CountersAreModular(acts: seq<Action>)
    ensures Modular(Run(acts), Seen(acts), Committed(acts))
  {
    if acts != [] {
      var init := acts[..|acts| - 1];
      CountersAreModular(init);
      NextIsModular(Run(init), acts[|acts| - 1], Seen(init), Committed(init));
    }
  }

  /** The comparison of the loop, on the true numbers of triggers. */
  predicate Ahead(triggers: nat, committed: nat) {
    triggers % WIDTH > committed % WIDTH
  }

  lemma RunOne(acts: seq<Action>, a: Action)
    ensures Run(acts + [a]) == Next(Run(acts), a)
  {
    assert (acts + [a])[..|acts|] == acts;
  }

  /** The next look at the counters, in any run that stands idle, starts an update if and only if no
      signal came and the number of triggers exceeds the committed one modulo 2^32. */
  lemma NoticedIff(acts: seq<Action>)
    requires Run(acts).stage == Idle
    ensures var t := Run(acts + [LoadCounter] + [CheckSignal]);
            && (t.stage == Idle || t.stage.Checked?)
            && (t.stage.Checked? <==>
                Run(acts).signalCounter == 0 && Ahead(Run(acts).triggers, Committed(acts)))
  {
    CountersAreModular(acts);
    RunOne(acts, LoadCounter);
    RunOne(acts + [LoadCounter], CheckSignal);
  }

  lemma OneMoreTrigger(acts: seq<Action>)
    ensures Committed(acts + [Trigger]) == Committed(acts)
    ensures var s, t := Run(acts), Run(acts + [Trigger]);
            t.stage == s.stage && t.signalCounter == s.signalCounter && t.triggers == s.triggers + 1
  {
    assert (acts + [Trigger])[..|acts|] == acts;
  }

  /** So a trigger is taken up at the next look if and only if it does not leave the counter, modulo
      2^32, at or below the committed one. */
  lemma TriggerNoticedIff(acts: seq<Action>)
    requires Run(acts).stage == Idle && Run(acts).signalCounter == 0
    ensures Run(acts + [Trigger] + [LoadCounter] + [CheckSignal]).stage.Checked?
       <==> Ahead(Run(acts).triggers + 1, Committed(acts))
  {
    OneMoreTrigger(acts);
    var more := acts + [Trigger];
    NoticedIff(more);
  }

  /** As long as fewer than 2^32 triggers are uncommitted, that fails exactly when the counter has
      wrapped around since the last commit. */
  lemma UnwrappedIff(triggers: nat, committed: nat)
    requires committed < triggers < committed + WIDTH
    ensures Ahead(triggers, committed) <==> triggers / WIDTH == committed / WIDTH
  {
  }

  // ---------------------------------------------------------------- shutting down

  lemma {:induction false} SignalsStay(acts: seq<Action>, i: nat)
    requires i < |acts| && acts[i] == Signal
    ensures Run(acts).signalCounter > 0
  {
    if i < |acts| - 1 {
      SignalsStay(acts[..|acts| - 1], i);
    }
  }

  /** After a signal no update is begun. */
  lemma SignalStopsUpdates(acts: seq<Action>, i: nat, a: Action)
    requires i < |acts| && acts[i] == Signal && !Run(acts).stage.Checked?
    ensures !Run(acts + [a]).stage.Checked?
  {
    SignalsStay(acts, i);
    RunOne(acts, a);
  }

  // ---------------------------------------------------------------- the failing family

  function Triggers(n: nat): seq<Action> {
    seq(n, _ => Trigger)
  }

  lemma {:induction false} OnlyTriggers(n: nat)
    requires n < WIDTH
    ensures Run(Triggers(n)) == INITIAL.(changeCounter := n, triggers := n, step := n, lastTrigger := n)
  {
    if n > 0 {
      OnlyTriggers(n - 1);
      assert Triggers(n) == Triggers(n - 1) + [Trigger];
      RunOne(Triggers(n - 1), Trigger);
    }
  }

  /** 2^32 - 1 triggers and one successful pass of the loop. */
  function DeafActions(): seq<Action> {
    Triggers(WIDTH - 1) + [LoadCounter] + [CheckSignal] + [GetConfig(true)] + [GetDevices(Some([]))] + [Commit]
  }

  lemma DeafStep(s: State, a: Action)
    requires s.lastChangeCounter == WIDTH - 1 && s.changeCounter < WIDTH
    requires s.stage == Idle || (s.stage.Loaded? && s.stage.current < WIDTH)
    ensures var t := Next(s, a);
            && t.lastChangeCounter == WIDTH - 1 && t.snapshots == s.snapshots
            && (t.stage == Idle || (t.stage.Loaded? && t.stage.current < WIDTH))
  {
  }

  /** After this run no trigger is ever noticed again: whatever follows, the loop starts no update. */
  lemma {:induction false} DeafForEver(later: seq<Action>)
    ensures var s := Run(DeafActions() + later);
            && s.lastChangeCounter == WIDTH - 1 && s.snapshots == Run(DeafActions()).snapshots
            && (s.stage == Idle || (s.stage.Loaded? && s.stage.current < WIDTH))
  {
    if later == [] {
      DeafState();
      assert DeafActions() + later == DeafActions();
    } else {
      var init, a := later[..|later| - 1], later[|later| - 1];
      var before := DeafActions() + init;
      DeafForEver(init);
      CountersAreModular(before);
      assert DeafActions() + later == before + [a];
      RunOne(before, a);
      DeafStep(Run(before), a);
    }
  }

  lemma DeafState()
    ensures var s := Run(DeafActions()); s.stage == Idle && s.lastChangeCounter == WIDTH - 1
  {
    var a0 := Triggers(WIDTH - 1);
    OnlyTriggers(WIDTH - 1);
    RunOne(a0, LoadCounter);
    RunOne(a0 + [LoadCounter], CheckSignal);
    RunOne(a0 + [LoadCounter] + [CheckSignal], GetConfig(true));
    RunOne(a0 + [LoadCounter] + [CheckSignal] + [GetConfig(true)], GetDevices(Some([])));
    RunOne(a0 + [LoadCounter] + [CheckSignal] + [GetConfig(true)] + [GetDevices(Some([]))], Commit);
  }
}
