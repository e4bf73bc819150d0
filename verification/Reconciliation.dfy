/** configLoop and updateSyncthing racing with TriggerUpdate: one action for each access to shared
    state or to the outside, interleaved in any order. */
module Reconciliation {
  import opened Options
  import opened Registrations

  const WIDTH := 0x1_0000_0000

  /** Where the update loop stands. */
  datatype Stage =
    | Idle
    | Loaded(current: nat)
    | Checked(current: nat)
    | Configured(current: nat)
    | Fetched(current: nat, devices: seq<DeviceRegistration>)
    | Stored(current: nat, devices: seq<DeviceRegistration>)
    | Restarted(current: nat, devices: seq<DeviceRegistration>)
    | Updated(current: nat)

  /** The service's fields and the loop's variable, then the configuration Syncthing holds, then
      bookkeeping: the step number, the number of triggers and the step of the last one, and the
      snapshots returned so far with their steps. */
  datatype State = State(
    changeCounter: nat,
    signalCounter: nat,
    lastDevices: string,
    lastChangeCounter: nat,
    stage: Stage,
    applied: Option<seq<DeviceRegistration>>,
    step: nat,
    triggers: nat,
    lastTrigger: nat,
    snapshots: map<nat, seq<DeviceRegistration>>)

  datatype Action =
    | Trigger
    | Signal
    | LoadCounter
    | CheckSignal
    | GetConfig(ok: bool)
    | GetDevices(result: Option<seq<DeviceRegistration>>)
    | SetConfig(ok: bool, reached: bool)
    | Restart(ok: bool)
    | FinishUpdate
    | Commit

  const INITIAL := State(0, 0, "", 0, Idle, None, 0, 0, 0, map[])

  function Next(s: State, a: Action): State {
    var s := s.(step := s.step + 1);
    match a
    case Trigger =>
      s.(changeCounter := (s.changeCounter + 1) % WIDTH, triggers := s.triggers + 1, lastTrigger := s.step)
    case Signal => s.(signalCounter := s.signalCounter + 1)
    case LoadCounter => if s.stage.Idle? then s.(stage := Loaded(s.changeCounter)) else s
    case CheckSignal =>
      if !s.stage.Loaded? then s
      else if s.stage.current > s.lastChangeCounter && s.signalCounter == 0
      then s.(stage := Checked(s.stage.current))
      else s.(stage := Idle)
    case GetConfig(ok) =>
      if !s.stage.Checked? then s
      else s.(stage := if ok then Configured(s.stage.current) else Idle)
    case GetDevices(result) =>
      if !s.stage.Configured? then s
      else (
        match result
        case None => s.(stage := Idle)
        case Some(devices) =>
          var t := s.(snapshots := s.snapshots[s.step := devices]);
          if ListString(devices) == s.lastDevices then t.(stage := Updated(s.stage.current))
          else t.(stage := Fetched(s.stage.current, devices)))
    case SetConfig(ok, reached) =>
      if !s.stage.Fetched? then s
      else
        var t := if ok || reached then s.(applied := Some(s.stage.devices)) else s;
        t.(stage := if ok then Stored(s.stage.current, s.stage.devices) else Idle)
    case Restart(ok) =>
      if !s.stage.Stored? then s
      else s.(stage := if ok then Restarted(s.stage.current, s.stage.devices) else Idle)
    case FinishUpdate =>
      if !s.stage.Restarted? then s
      else s.(lastDevices := ListString(s.stage.devices), stage := Updated(s.stage.current))
    case Commit =>
      if !s.stage.Updated? then s
      else s.(lastChangeCounter := s.stage.current, stage := Idle)
  }

  function Run(acts: seq<Action>): State {
    if acts == [] then INITIAL else Next(Run(acts[..|acts| - 1]), acts[|acts| - 1])
  }
}
