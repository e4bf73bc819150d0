/** The service object: TriggerUpdate, updateSyncthing and one pass of configLoop as code. */
module Service {
  import opened Options
  import opened Registrations
  import opened Reconciliation

  /** How the outside answers one update: Syncthing's configuration, the backend's devices, the new
      configuration (rejected, lost on the way back, or stored) and the restart. */
  datatype Answers = Answers(
    configOk: bool,
    devices: Option<seq<DeviceRegistration>>,
    setOk: bool,
    setReached: bool,
    restartOk: bool)

  /** Syncthing's configuration and the devices were read. */
  predicate Answered(r: Answers) {
    r.configOk && r.devices.Some?
  }

  /** The devices render as before. */
  predicate Same(r: Answers, lastDevices: string) {
    r.devices.Some? && ListString(r.devices.value) == lastDevices
  }

  predicate Succeeds(r: Answers, lastDevices: string) {
    Answered(r) && (Same(r, lastDevices) || (r.setOk && r.restartOk))
  }

  /** The actions of updateSyncthing, in order; the ones behind a failure have no effect. */
  function UpdateActions(s: State, r: Answers): State {
    Next(Next(Next(Next(Next(s, GetConfig(r.configOk)), GetDevices(r.devices)),
      SetConfig(r.setOk, r.setReached)), Restart(r.restartOk)), FinishUpdate)
  }

  /** The look at the counters that begins a pass. */
  function Looked(s: State): State {
    Next(Next(s, LoadCounter), CheckSignal)
  }

  function PassActions(s: State, r: Answers): State {
    Next(UpdateActions(Looked(s), r), Commit)
  }

  lemma IdleSkipsUpdate(s: State, r: Answers)
    requires s.stage.Idle?
    ensures UpdateActions(s, r) == s.(step := s.step + 5)
  {
  }

  lemma LookedIs(s: State)
    requires s.stage.Idle?
    ensures var looks := s.changeCounter > s.lastChangeCounter && s.signalCounter == 0;
            Looked(s) == s.(step := s.step + 2, stage := if looks then Checked(s.changeCounter) else Idle)
  {
  }

  lemma CommitIs(s: State)
    requires s.stage.Idle? || s.stage.Updated?
    ensures var served := if s.stage.Updated? then s.stage.current else s.lastChangeCounter;
            Next(s, Commit) == s.(step := s.step + 1, stage := Idle, lastChangeCounter := served)
  {
  }

  /** What an update does, as a whole. */
  lemma UpdateOutcome(s: State, r: Answers)
    requires s.stage.Checked?
    ensures var t := UpdateActions(s, r);
            var ok := Succeeds(r, s.lastDevices);
            && t.stage == (if ok then Updated(s.stage.current) else Idle)
            && t.lastDevices == (if ok then ListString(r.devices.value) else s.lastDevices)
            && t.lastChangeCounter == s.lastChangeCounter && t.changeCounter == s.changeCounter
            && t.signalCounter == s.signalCounter
            && t.applied == (if Answered(r) && !Same(r, s.lastDevices) && (r.setOk || r.setReached) then r.devices
                             else s.applied)
            && (!r.configOk ==> t.snapshots == s.snapshots)
  {
  }

  /** A pass counts the triggers it saw as served, and believes in the devices it got, exactly if it looked,
      read Syncthing's configuration and the devices, and either found nothing new or stored it and
      restarted Syncthing. */
  lemma PassOutcome(s: State, r: Answers)
    requires s.stage.Idle?
    ensures var t := PassActions(s, r);
            var ok := s.changeCounter > s.lastChangeCounter && s.signalCounter == 0 && Succeeds(r, s.lastDevices);
            && t.stage.Idle? && t.changeCounter == s.changeCounter && t.signalCounter == s.signalCounter
            && t.lastChangeCounter == (if ok then s.changeCounter else s.lastChangeCounter)
            && t.lastDevices == (if ok then ListString(r.devices.value) else s.lastDevices)
            && (!r.configOk ==> t.snapshots == s.snapshots && t.applied == s.applied)
  {
    LookedIs(s);
    if Looked(s).stage.Idle? {
      IdleSkipsUpdate(Looked(s), r);
    } else {
      UpdateOutcome(Looked(s), r);
    }
    CommitIs(UpdateActions(Looked(s), r));
  }

  class Reconciler {
    var changeCounter: nat
    var signalCounter: nat
    var lastDevices: string
    var lastChangeCounter: nat
    /** The program position and the bookkeeping of the interleaving model. */
    ghost var model: State

    ghost predicate Valid()
      reads this
    {
      && model.changeCounter == changeCounter
      && model.signalCounter == signalCounter
      && model.lastDevices == lastDevices
      && model.lastChangeCounter == lastChangeCounter
    }

    constructor ()
      ensures Valid() && model == INITIAL
    {
      changeCounter, signalCounter, lastDevices, lastChangeCounter := 0, 0, "", 0;
      model := INITIAL;
    }

    /** atomic.AddUint32 */
    method TriggerUpdate()
      requires Valid()
      modifies this
      ensures Valid() && model == Next(old(model), Trigger)
    {
      changeCounter := (changeCounter + 1) % WIDTH;
      model := Next(model, Trigger);
    }

    /** Brings Syncthing's configuration in line with the backend. */
    method UpdateSyncthing(r: Answers) returns (ok: bool)
      requires Valid() && model.stage.Checked?
      modifies this
      ensures Valid() && model == UpdateActions(old(model), r)
      ensures model.stage == if ok then Updated(old(model.stage.current)) else Idle
      ensures ok <==> Succeeds(r, old(lastDevices))
      ensures lastDevices == if ok then ListString(r.devices.value) else old(lastDevices)
      ensures model.applied == if Answered(r) && !Same(r, old(lastDevices)) && (r.setOk || r.setReached)
                               then r.devices else old(model.applied)
      ensures !r.configOk ==> model.snapshots == old(model.snapshots)
      ensures changeCounter == old(changeCounter) && lastChangeCounter == old(lastChangeCounter)
    {
      ghost var before := model;
      model := UpdateActions(model, r);
      if !r.configOk {
        return false;
      }
      if r.devices == None {
        return false;
      }
      var devicesString := FullStringOfList(r.devices.value);
      if devicesString == lastDevices {
        return true;
      }
      if !r.setOk {
        return false;
      }
      if !r.restartOk {
        return false;
      }
      lastDevices := devicesString;
      return true;
    }

    /** One pass of configLoop: the loop's counter catches up with the trigger counter only after a
        successful update. */
    method ConfigPass(r: Answers)
      requires Valid() && model.stage.Idle?
      modifies this
      ensures Valid() && model == PassActions(old(model), r) && model.stage.Idle?
    {
      var currentChangeCounter := changeCounter;
      LookedIs(model);
      ghost var looked := Looked(model);
      model := looked;
      if currentChangeCounter > lastChangeCounter && signalCounter == 0 {
        var ok := UpdateSyncthing(r);
        if ok {
          lastChangeCounter := currentChangeCounter;
        }
      } else {
        IdleSkipsUpdate(looked, r);
        model := UpdateActions(looked, r);
      }
      CommitIs(model);
      model := Next(model, Commit);
    }
  }
}
