/** The Kubernetes backend's cache: Watch polls the pods until their rendering changes, Get returns
    what was cached. */
module KubernetesBackend {
  import opened Options
  import opened Registrations

  /** The cache; the empty list stands for nil, which is what listing no registration yields. */
  datatype State = State(lastState: string, last: seq<DeviceRegistration>)

  /** One poll of Watch or one call of Get, with the answer of listing the pods; None is an error. */
  datatype Call =
    | Poll(answer: Option<seq<DeviceRegistration>>)
    | Get(answer: Option<seq<DeviceRegistration>>)

  const INITIAL := State("", [])

  /** Watch returns after this poll. */
  predicate Signals(s: State, c: Call) {
    c.Poll? && c.answer.Some? && ListString(c.answer.value) != s.lastState
  }

  /** What Get returns. */
  function Loaded(s: State, answer: Option<seq<DeviceRegistration>>): Option<seq<DeviceRegistration>> {
    if s.last != [] then Some(s.last) else answer
  }

  function Next(s: State, c: Call): State {
    match c
    case Poll(answer) => if Signals(s, c) then State(ListString(answer.value), answer.value) else s
    case Get(answer) => if Loaded(s, answer).Some? then s.(last := Loaded(s, answer).value) else s
  }

  function Run(calls: seq<Call>): State {
    if calls == [] then INITIAL else Next(Run(calls[..|calls| - 1]), calls[|calls| - 1])
  }

  /** The devices at the last change Watch signalled, none at first. */
  function LastSignalled(calls: seq<Call>): seq<DeviceRegistration> {
    if calls == [] then []
    else
      var init, c := calls[..|calls| - 1], calls[|calls| - 1];
      if Signals(Run(init), c) then c.answer.value else LastSignalled(init)
  }

  lemma EmptyRendering(list: seq<DeviceRegistration>)
    ensures ListString(list) == "" <==> list == []
  {
  }

  /** lastState renders the last change, and the cache holds it unless it is empty; then the cache
      holds whatever a Get found. */
  lemma {:induction false} CacheFollowsWatch(calls: seq<Call>)
    ensures var s := Run(calls);
            && s.lastState == ListString(LastSignalled(calls))
            && (LastSignalled(calls) != [] ==> s.last == LastSignalled(calls))
  {
    if calls != [] {
      CacheFollowsWatch(calls[..|calls| - 1]);
    }
  }

  /** Watch is exact: after any history it signals a poll's answer if and only if that holds other
      registrations than the last signalled one. */
  lemma WatchIsExact(calls: seq<Call>, devices: seq<DeviceRegistration>, shape: Shape)
    requires Renderable(shape, devices) && Renderable(shape, LastSignalled(calls))
    ensures Signals(Run(calls), Poll(Some(devices))) <==> multiset(devices) != multiset(LastSignalled(calls))
  {
    CacheFollowsWatch(calls);
    ChangeDetectionIsExact(shape, devices, LastSignalled(calls));
  }

  /** When Watch sees no difference to the devices there are, Get answers with their rendering,
      unless it cached devices at a time when none had been signalled. */
  lemma GetIsCurrentIff(calls: seq<Call>, devices: seq<DeviceRegistration>)
    requires !Signals(Run(calls), Poll(Some(devices)))
    ensures var s := Run(calls);
            ListString(Loaded(s, Some(devices)).value) == ListString(devices) <==> s.lastState != "" || s.last == []
  {
    CacheFollowsWatch(calls);
    EmptyRendering(devices);
    EmptyRendering(Run(calls).last);
    EmptyRendering(LastSignalled(calls));
  }

  /** Such a cache is stuck: if the devices go away before Watch sees them, every later Get returns
      them, however often Watch polls. */
  lemma {:induction false} StuckCache(found: seq<DeviceRegistration>, later: seq<Call>)
    requires found != [] && forall i :: 0 <= i < |later| && later[i].Poll? ==> later[i].answer in {None, Some([])}
    ensures Run([Get(Some(found))] + later) == State("", found)
    ensures Loaded(Run([Get(Some(found))] + later), Some([])) == Some(found)
  {
    var calls := [Get(Some(found))] + later;
    if later == [] {
      assert calls[..0] == [];
    } else {
      StuckCache(found, later[..|later| - 1]);
      assert calls[..|calls| - 1] == [Get(Some(found))] + later[..|later| - 1];
    }
  }

  /** The devices were the answer of a listing that succeeded. */
  predicate WasListed(calls: seq<Call>, devices: seq<DeviceRegistration>) {
    exists i :: 0 <= i < |calls| && calls[i].answer == Some(devices)
  }

  lemma {:induction false} CacheWasListed(calls: seq<Call>)
    ensures Run(calls).last == [] || WasListed(calls, Run(calls).last)
  {
    if calls != [] {
      var init, c := calls[..|calls| - 1], calls[|calls| - 1];
      CacheWasListed(init);
      if Run(calls).last != [] {
        var i :| 0 <= i < |calls| && calls[i].answer == Some(Run(calls).last) by {
          if Run(calls).last == Run(init).last {
            var j :| 0 <= j < |init| && init[j].answer == Some(Run(init).last);
            assert calls[j].answer == Some(Run(calls).last);
          } else {
            assert calls[|calls| - 1].answer == Some(Run(calls).last);
          }
        }
      }
    }
  }

  /** Get makes nothing up: after any history it fails exactly if nothing is cached and the listing
      fails, which changes nothing, and what it returns is the answer of a listing that succeeded, this
      one or an earlier one. */
  lemma GetIsGenuine(calls: seq<Call>, answer: Option<seq<DeviceRegistration>>)
    ensures var s := Run(calls);
            var regs := Loaded(s, answer);
            && (regs == None <==> s.last == [] && answer == None)
            && (regs == None ==> Run(calls + [Get(answer)]) == s)
            && (regs.Some? ==> WasListed(calls + [Get(answer)], regs.value))
  {
    var more := calls + [Get(answer)];
    assert more[..|calls|] == calls && more[|calls|] == Get(answer);
    CacheWasListed(calls);
    if Run(calls).last != [] {
      var i :| 0 <= i < |calls| && calls[i].answer == Some(Run(calls).last);
      assert more[i] == calls[i];
    }
  }

  class K8sBackend {
    var lastState: string
    var last: seq<DeviceRegistration>

    ghost function Abs(): State
      reads this
    {
      State(lastState, last)
    }

    constructor ()
      ensures Abs() == INITIAL
    {
      lastState, last := "", [];
    }

    /** One turn of the loop in Watch. */
    method PollOnce(answer: Option<seq<DeviceRegistration>>) returns (changed: bool)
      modifies this
      ensures changed <==> Signals(old(Abs()), Poll(answer))
      ensures Abs() == Next(old(Abs()), Poll(answer))
    {
      if answer.Some? {
        var state := FullStringOfList(answer.value);
        if state != lastState {
          lastState := state;
          last := answer.value;
          return true;
        }
      }
      return false;
    }

    /** Watch, on the answers of its polls; without a change it goes on polling. */
    method Watch(answers: seq<Option<seq<DeviceRegistration>>>) returns (changed: bool, polls: nat)
      modifies this
      ensures polls <= |answers| && (if changed then polls > 0 else polls == |answers|)
      ensures forall i :: 0 <= i < polls && !(changed && i == polls - 1) ==> !Signals(old(Abs()), Poll(answers[i]))
      ensures changed ==> Signals(old(Abs()), Poll(answers[polls - 1]))
      ensures Abs() == if changed then Next(old(Abs()), Poll(answers[polls - 1])) else old(Abs())
    {
      polls := 0;
      while polls < |answers|
        invariant polls <= |answers| && Abs() == old(Abs())
        invariant forall i :: 0 <= i < polls ==> !Signals(old(Abs()), Poll(answers[i]))
      {
        changed := PollOnce(answers[polls]);
        polls := polls + 1;
        if changed {
          return;
        }
      }
      changed := false;
    }

    method Load(answer: Option<seq<DeviceRegistration>>) returns (regs: Option<seq<DeviceRegistration>>)
      modifies this
      ensures regs == Loaded(old(Abs()), answer) && Abs() == Next(old(Abs()), Get(answer))
      ensures regs == None <==> old(last) == [] && answer == None
      ensures regs == None ==> Abs() == old(Abs())
    {
      if |last| != 0 {
        return Some(last);
      }
      if answer == None {
        return None;
      }
      last := answer.value;
      return answer;
    }
  }
}
