/** The announcement lease: a key with a time to live, refreshed by a background loop. Times are
    milliseconds. */
module Lease {

  const TTL := 60000
  const REFRESH := TTL / 2
  const RETRY := 1000

  /** A key in etcd: its value and when it expires. */
  datatype Key = Key(address: string, expires: int)

  /** The announce fields of the etcd backend, the wake-up times of the loops started so far, and
      the keys in etcd. */
  datatype State = State(
    started: bool,
    deviceID: string,
    address: string,
    wakes: seq<int>,
    keys: map<string, Key>,
    clock: int)

  /** The outcome of a call to etcd: it succeeds, it fails although it took effect, or it fails and has
      no effect. */
  datatype Outcome = Ok | Lost | Failed

  /** Each action runs under the announce mutex, so actions do not overlap. */
  datatype Action =
    | Announce(now: int, deviceID: string, address: string)
    | UnAnnounce(now: int, outcome: Outcome)
    | Wake(now: int, loop: nat, outcome: Outcome)

  const INITIAL := State(false, "", "", [], map[], 0)

  predicate Announced(s: State) {
    s.deviceID != "" && s.address != ""
  }

  function Next(s: State, a: Action): State {
    var s := s.(clock := a.now);
    match a
    case Announce(now, deviceID, address) =>
      var t := s.(deviceID := deviceID, address := address);
      if Announced(t) && !s.started then t.(started := true, wakes := s.wakes + [now]) else t
    case UnAnnounce(now, outcome) =>
      s.(deviceID := "", address := "",
         keys := if s.deviceID != "" && outcome != Failed then s.keys - {s.deviceID} else s.keys)
    case Wake(now, loop, outcome) =>
      if loop >= |s.wakes| then s
      else if !Announced(s) then s.(wakes := s.wakes[loop := now + REFRESH])
      else
        s.(wakes := s.wakes[loop := now + if outcome == Ok then REFRESH else RETRY],
           keys := if outcome != Failed then s.keys[s.deviceID := Key(s.address, now + TTL)] else s.keys)
  }

  /** Time does not run backwards, no loop oversleeps by more than late, and a loop acts only when
      its sleep is over. */
  ghost predicate Timely(s: State, a: Action, late: nat) {
    && s.clock <= a.now
    && (forall i :: 0 <= i < |s.wakes| ==> a.now <= s.wakes[i] + late)
    && (a.Wake? ==> a.loop < |s.wakes| && s.wakes[a.loop] <= a.now)
  }

  ghost predicate IsRun(acts: seq<Action>, ss: seq<State>, late: nat) {
    && |ss| == |acts| + 1
    && ss[0] == INITIAL
    && forall n :: 0 <= n < |acts| ==> Timely(ss[n], acts[n], late) && ss[n + 1] == Next(ss[n], acts[n])
  }

  /** At most one refresh loop is ever started, and one is running whenever something is announced. */
  ghost predicate OneLoop(s: State) {
    |s.wakes| == (if s.started then 1 else 0) && (Announced(s) ==> s.started)
  }

  lemma {:induction false} AtMostOneLoop(acts: seq<Action>, ss: seq<State>, late: nat, n: nat)
    requires IsRun(acts, ss, late) && n < |ss|
    ensures OneLoop(ss[n])
  {
    if n > 0 {
      AtMostOneLoop(acts, ss, late, n - 1);
    }
  }

  predicate Announces(a: Action) {
    a.Announce? && a.deviceID != "" && a.address != ""
  }

  /** The loop runs from the first announcement on. */
  lemma {:induction false} StartedIff(acts: seq<Action>, ss: seq<State>, late: nat, n: nat)
    requires IsRun(acts, ss, late) && n < |ss|
    ensures ss[n].started <==> exists m :: 0 <= m < n && Announces(acts[m])
  {
    if n > 0 {
      StartedIff(acts, ss, late, n - 1);
      assert ss[n] == Next(ss[n - 1], acts[n - 1]);
      assert (exists m :: 0 <= m < n && Announces(acts[m])) <==>
             (exists m :: 0 <= m < n - 1 && Announces(acts[m])) || Announces(acts[n - 1]);
    }
  }

  /** The loop does not turn before time t. */
  ghost predicate Sleeps(s: State, t: int) {
    s.started && |s.wakes| == 1 && s.wakes[0] >= t
  }

  lemma SleepsOn(s: State, a: Action, t: int)
    requires Sleeps(s, t) && !a.Wake?
    ensures Sleeps(Next(s, a), t)
  {
  }

  lemma {:induction false} SleepsUntil(acts: seq<Action>, ss: seq<State>, late: nat, i: nat, j: nat, t: int)
    requires IsRun(acts, ss, late) && i <= j < |ss| && Sleeps(ss[i], t)
    requires forall n :: i <= n < j ==> !acts[n].Wake?
    ensures Sleeps(ss[j], t)
    decreases j
  {
    if i < j {
      SleepsUntil(acts, ss, late, i, j - 1, t);
      SleepsOn(ss[j - 1], acts[j - 1], t);
    }
  }

  /** Etcd is not pestered: the loop turns no sooner than half a time to live after a turn that succeeded
      or had nothing to announce, and than a second after one that failed. */
  lemma TurnsApart(acts: seq<Action>, ss: seq<State>, late: nat, i: nat, j: nat)
    requires IsRun(acts, ss, late) && i < j < |acts| && acts[i].Wake? && acts[j].Wake?
    requires forall n :: i < n < j ==> !acts[n].Wake?
    ensures acts[j].now >= acts[i].now + if acts[i].outcome == Ok || !Announced(ss[i]) then 30000 else 1000
  {
    AtMostOneLoop(acts, ss, late, i);
    assert Timely(ss[i], acts[i], late) && Timely(ss[j], acts[j], late);
    var sleep := if acts[i].outcome == Ok || !Announced(ss[i]) then 30000 else 1000;
    SleepsUntil(acts, ss, late, i + 1, j, acts[i].now + sleep);
  }

  predicate Alive(s: State, key: string, now: int) {
    key in s.keys && now < s.keys[key].expires
  }

  /** How many refreshes in a row failed right before step n. */
  function Streak(acts: seq<Action>, n: nat): nat
    requires n <= |acts|
  {
    if n == 0 then 0
    else if !acts[n - 1].Wake? then Streak(acts, n - 1)
    else if acts[n - 1].outcome == Ok then 0
    else Streak(acts, n - 1) + 1
  }

  /** The last refresh that took effect was at time t; the last f refreshes failed. */
  ghost predicate Refreshed(s: State, key: string, t: int, f: nat, late: nat) {
    && s.deviceID == key && Announced(s) && OneLoop(s)
    && key in s.keys && s.keys[key].expires == t + TTL
    && s.wakes[0] <= t + REFRESH + f * RETRY + f * late
  }

  /** Action a leaves the announced device alone. */
  ghost predicate KeepsDevice(s: State, a: Action) {
    && !a.UnAnnounce?
    && (a.Announce? ==> a.deviceID == s.deviceID && a.address != "")
  }

  lemma RefreshStep(s: State, a: Action, key: string, t: int, f: nat, late: nat) returns (t': int, f': nat)
    requires Refreshed(s, key, t, f, late) && Timely(s, a, late) && KeepsDevice(s, a)
    ensures f' == if !a.Wake? then f else if a.outcome == Ok then 0 else f + 1
    ensures Refreshed(Next(s, a), key, t', f', late)
  {
    t', f' := t, f;
    assert (f + 1) * late == f * late + late;
    if a.Wake? {
      f' := if a.outcome == Ok then 0 else f + 1;
      t' := if a.outcome == Failed then t else a.now;
      assert f' * late >= 0;
    }
  }

  /** A stretch of a run that starts with an accepted refresh of key and leaves the device alone. */
  ghost predicate Tended(acts: seq<Action>, ss: seq<State>, late: nat, i: nat, j: nat, key: string) {
    && IsRun(acts, ss, late) && 0 < i <= j < |ss|
    && acts[i - 1].Wake? && acts[i - 1].outcome == Ok && Announced(ss[i - 1]) && ss[i - 1].deviceID == key
    && forall n :: i <= n < j ==> KeepsDevice(ss[n], acts[n])
  }

  lemma {:induction false} TendedIsRefreshed(acts: seq<Action>, ss: seq<State>, late: nat, i: nat, j: nat, key: string)
    returns (t: int)
    requires Tended(acts, ss, late, i, j, key)
    ensures Refreshed(ss[j], key, t, Streak(acts, j), late)
    decreases j - i
  {
    if i == j {
      AtMostOneLoop(acts, ss, late, i - 1);
      t := acts[i - 1].now;
    } else {
      t := TendedIsRefreshed(acts, ss, late, i, j - 1, key);
      var f;
      t, f := RefreshStep(ss[j - 1], acts[j - 1], key, t, Streak(acts, j - 1), late);
    }
  }

  lemma ProductMonotone(a: nat, b: nat, c: nat)
    requires a <= b
    ensures a * c <= b * c
  {
  }

  /** The lease is kept: from an accepted refresh on, as long as the device stays announced, its key
      is alive up to every further step, provided at most k refreshes in a row fail, where k
      retries and the oversleeping fit into the second half of the time to live. */
  lemma LeaseIsKept(acts: seq<Action>, ss: seq<State>, late: nat, i: nat, j: nat, key: string, k: nat)
    requires Tended(acts, ss, late, i, j, key) && j < |acts|
    requires Streak(acts, j) <= k && REFRESH + k * RETRY + (k + 1) * late < TTL
    ensures Alive(ss[j], key, acts[j].now)
  {
    var t := TendedIsRefreshed(acts, ss, late, i, j, key);
    NextActionInTime(ss[j], acts[j], key, t, Streak(acts, j), k, late);
  }

  lemma NextActionInTime(s: State, a: Action, key: string, t: int, f: nat, k: nat, late: nat)
    requires Refreshed(s, key, t, f, late) && Timely(s, a, late)
    requires f <= k && REFRESH + k * RETRY + (k + 1) * late < TTL
    ensures Alive(s, key, a.now)
  {
    ProductMonotone(f + 1, k + 1, late);
    assert (f + 1) * late == f * late + late;
    assert a.now <= s.wakes[0] + late;
  }

  /** With a loop that wakes exactly on time 29 failures in a row are survived. */
  lemma TwentyNineFailuresAreSurvived(acts: seq<Action>, ss: seq<State>, i: nat, j: nat, key: string)
    requires Tended(acts, ss, 0, i, j, key) && j < |acts| && Streak(acts, j) <= 29
    ensures Alive(ss[j], key, acts[j].now)
  {
    LeaseIsKept(acts, ss, 0, i, j, key, 29);
  }

  /** The loop's next n refreshes, on time and all failing. */
  function Failing(s: State, n: nat): State
    requires |s.wakes| == 1
    ensures |Failing(s, n).wakes| == 1
  {
    if n == 0 then s
    else
      var t := Failing(s, n - 1);
      Next(t, Wake(t.wakes[0], 0, Failed))
  }

  /** The bound is sharp: after n failures in a row the key is still alive at the next refresh
      exactly if n retries fit into the second half of the time to live. */
  lemma {:induction false} SurvivesIff(s: State, key: string, t: int, n: nat)
    requires Refreshed(s, key, t, 0, 0) && s.wakes[0] == t + REFRESH
    ensures var u := Failing(s, n);
            && u.wakes[0] == t + REFRESH + n * RETRY && u.keys == s.keys
            && u.deviceID == s.deviceID && u.address == s.address
            && (Alive(u, key, u.wakes[0]) <==> REFRESH + n * RETRY < TTL)
  {
    if n > 0 {
      SurvivesIff(s, key, t, n - 1);
    }
  }

  // ---------------------------------------------------------------- from Announce on

  /** When the loop wakes next after an Announce at time now: at once if it is started by it. */
  function FirstTurn(s: State, now: int): int {
    if s.started && |s.wakes| > 0 then s.wakes[0] else now
  }

  /** A device was announced, no refresh took effect since, and f failed. */
  ghost predicate Unrefreshed(s: State, key: string, first: int, f: nat, late: nat) {
    && s.deviceID == key && Announced(s) && OneLoop(s)
    && s.wakes[0] <= first + f * RETRY + f * late
  }

  /** How many refreshes in a row failed right before step n, not looking back beyond step i. */
  function FailedSince(acts: seq<Action>, i: nat, n: nat): nat
    requires i <= n <= |acts|
  {
    if n == i then 0
    else if !acts[n - 1].Wake? then FailedSince(acts, i, n - 1)
    else if acts[n - 1].outcome == Ok then 0
    else FailedSince(acts, i, n - 1) + 1
  }

  /** Since then it has been refreshed, last at time t, or refreshing it is being tried. */
  ghost predicate Tried(s: State, key: string, first: int, refreshed: bool, t: int, f: nat, late: nat) {
    if refreshed then Refreshed(s, key, t, f, late) else Unrefreshed(s, key, first, f, late)
  }

  lemma TriedStep(s: State, a: Action, key: string, first: int, refreshed: bool, t: int, f: nat, late: nat)
    returns (refreshed': bool, t': int)
    requires Tried(s, key, first, refreshed, t, f, late) && Timely(s, a, late) && KeepsDevice(s, a)
    ensures var f' := if !a.Wake? then f else if a.outcome == Ok then 0 else f + 1;
            Tried(Next(s, a), key, first, refreshed', t', f', late)
    ensures !a.Wake? ==> refreshed' == refreshed
  {
    if refreshed {
      var f';
      t', f' := RefreshStep(s, a, key, t, f, late);
      refreshed' := true;
    } else {
      assert (f + 1) * late == f * late + late;
      assert f * late >= 0;
      refreshed', t' := a.Wake? && a.outcome != Failed, a.now;
    }
  }

  /** After an Announce at step i that leaves something announced, the device alone since. */
  ghost predicate AnnouncedAt(acts: seq<Action>, ss: seq<State>, late: nat, i: nat, j: nat) {
    && IsRun(acts, ss, late) && i < j < |ss|
    && Announces(acts[i])
    && forall n :: i < n < j ==> KeepsDevice(ss[n], acts[n])
  }

  ghost predicate WokeSince(acts: seq<Action>, i: nat, j: nat) {
    exists n :: i < n < j && n < |acts| && acts[n].Wake?
  }

  lemma AnnouncedStep(acts: seq<Action>, ss: seq<State>, late: nat, i: nat, j: nat)
    requires AnnouncedAt(acts, ss, late, i, j)
    ensures j == i + 1 ==>
              Tried(ss[j], acts[i].deviceID, FirstTurn(ss[i], acts[i].now), false, 0, 0, late)
    ensures j > i + 1 ==>
              && AnnouncedAt(acts, ss, late, i, j - 1) && ss[j] == Next(ss[j - 1], acts[j - 1])
              && Timely(ss[j - 1], acts[j - 1], late) && KeepsDevice(ss[j - 1], acts[j - 1])
  {
    AtMostOneLoop(acts, ss, late, i);
  }

  /** From then on it has been refreshed, or is being tried, and not refreshed without a wake-up. */
  lemma {:induction false} TriedSince(acts: seq<Action>, ss: seq<State>, late: nat, i: nat, j: nat)
    returns (refreshed: bool, t: int)
    requires AnnouncedAt(acts, ss, late, i, j)
    ensures Tried(ss[j], acts[i].deviceID, FirstTurn(ss[i], acts[i].now), refreshed, t,
                  FailedSince(acts, i + 1, j), late)
    ensures !WokeSince(acts, i, j) ==> !refreshed && FailedSince(acts, i + 1, j) == 0
    decreases j - i
  {
    AnnouncedStep(acts, ss, late, i, j);
    if j == i + 1 {
      refreshed, t := false, 0;
    } else {
      refreshed, t := TriedSince(acts, ss, late, i, j - 1);
      WokeLater(acts, i, j);
      refreshed, t := TriedStep(ss[j - 1], acts[j - 1], acts[i].deviceID, FirstTurn(ss[i], acts[i].now), refreshed, t,
                                FailedSince(acts, i + 1, j - 1), late);
    }
  }

  lemma WokeLater(acts: seq<Action>, i: nat, j: nat)
    requires i + 1 < j <= |acts|
    ensures WokeSince(acts, i, j) <==> WokeSince(acts, i, j - 1) || acts[j - 1].Wake?
  {
  }

  /** The loop takes up an announcement in time: any action later than its first turn, and what it may
      oversleep, is preceded by a turn of the loop. */
  lemma TakenUpInTime(acts: seq<Action>, ss: seq<State>, late: nat, i: nat, j: nat)
    requires AnnouncedAt(acts, ss, late, i, j) && j < |acts|
    requires acts[j].now > FirstTurn(ss[i], acts[i].now) + late
    ensures WokeSince(acts, i, j)
  {
    var refreshed, t := TriedSince(acts, ss, late, i, j);
    assert Timely(ss[j], acts[j], late);
  }

  /** An announcement leads to a key: if at most k refreshes failed in a row since, the key of the
      device is alive at every action that comes k retries, and the oversleeping, after the first turn
      of the loop. */
  lemma AnnouncedInTime(acts: seq<Action>, ss: seq<State>, late: nat, i: nat, j: nat, k: nat)
    requires AnnouncedAt(acts, ss, late, i, j) && j < |acts|
    requires FailedSince(acts, i + 1, j) <= k && REFRESH + k * RETRY + (k + 1) * late < TTL
    requires acts[j].now > FirstTurn(ss[i], acts[i].now) + k * RETRY + (k + 1) * late
    ensures Alive(ss[j], acts[i].deviceID, acts[j].now)
  {
    var refreshed, t := TriedSince(acts, ss, late, i, j);
    var f := FailedSince(acts, i + 1, j);
    assert Timely(ss[j], acts[j], late);
    if refreshed {
      NextActionInTime(ss[j], acts[j], acts[i].deviceID, t, f, k, late);
    } else {
      TriedInTime(ss[j], acts[j], acts[i].deviceID, FirstTurn(ss[i], acts[i].now), f, k, late);
    }
  }

  lemma TriedInTime(s: State, a: Action, key: string, first: int, f: nat, k: nat, late: nat)
    requires Unrefreshed(s, key, first, f, late) && Timely(s, a, late) && f <= k
    ensures a.now <= first + k * RETRY + (k + 1) * late
  {
    ProductMonotone(f, k, late);
    assert (k + 1) * late == k * late + late;
    assert a.now <= s.wakes[0] + late;
  }

  /** The first turn is at once if the loop was not running, and else within half a time to live. */
  lemma {:induction false} FirstTurnIsSoon(acts: seq<Action>, ss: seq<State>, late: nat, i: nat)
    requires IsRun(acts, ss, late) && i < |acts|
    ensures !ss[i].started ==> FirstTurn(ss[i], acts[i].now) == acts[i].now
    ensures FirstTurn(ss[i], acts[i].now) <= acts[i].now + REFRESH
  {
    WakesSoon(acts, ss, late, i);
    assert Timely(ss[i], acts[i], late);
  }

  lemma {:induction false} WakesSoon(acts: seq<Action>, ss: seq<State>, late: nat, n: nat)
    requires IsRun(acts, ss, late) && n < |ss|
    ensures forall m :: 0 <= m < |ss[n].wakes| ==> ss[n].wakes[m] <= ss[n].clock + REFRESH
  {
    if n > 0 {
      WakesSoon(acts, ss, late, n - 1);
      assert Timely(ss[n - 1], acts[n - 1], late);
    }
  }

  /** Keys show the address announced: a refresh that takes effect leaves the key of the device with the
      present address, and it stays so until something else is announced or nothing. */
  lemma {:induction false} KeyShowsAddress(acts: seq<Action>, ss: seq<State>, late: nat, i: nat, j: nat)
    requires IsRun(acts, ss, late) && 0 < i <= j < |ss|
    requires acts[i - 1].Wake? && acts[i - 1].outcome != Failed && Announced(ss[i - 1])
    requires forall n :: i <= n < j ==>
               KeepsDevice(ss[n], acts[n]) && (acts[n].Announce? ==> acts[n].address == ss[i - 1].address)
    ensures var s := ss[i - 1];
            && ss[j].deviceID == s.deviceID && ss[j].address == s.address
            && s.deviceID in ss[j].keys && ss[j].keys[s.deviceID].address == s.address
    decreases j - i
  {
    assert Timely(ss[i - 1], acts[i - 1], late);
    if i < j {
      KeyShowsAddress(acts, ss, late, i, j - 1);
    }
  }

  // ---------------------------------------------------------------- after UnAnnounce

  lemma {:induction false} ExpiryBound(acts: seq<Action>, ss: seq<State>, late: nat, n: nat)
    requires IsRun(acts, ss, late) && n < |ss|
    ensures forall key :: key in ss[n].keys ==> ss[n].keys[key].expires <= ss[n].clock + TTL
  {
    if n > 0 {
      ExpiryBound(acts, ss, late, n - 1);
      assert Timely(ss[n - 1], acts[n - 1], late);
    }
  }

  /** So the key of the device shows what was announced last, once a refresh took effect since. */
  lemma {:induction false} KeyShowsAnnouncement(acts: seq<Action>, ss: seq<State>, late: nat, i: nat, m: nat, j: nat)
    requires AnnouncedAt(acts, ss, late, i, j) && i < m < j && acts[m].Wake? && acts[m].outcome != Failed
    requires forall n :: i < n < j ==> acts[n].Announce? ==> acts[n].address == acts[i].address
    ensures var key := acts[i].deviceID; key in ss[j].keys && ss[j].keys[key].address == acts[i].address
  {
    StaysAnnounced(acts, ss, late, i, m);
    KeyShowsAddress(acts, ss, late, m + 1, j);
  }

  lemma {:induction false} StaysAnnounced(acts: seq<Action>, ss: seq<State>, late: nat, i: nat, j: nat)
    requires AnnouncedAt(acts, ss, late, i, j)
    requires forall n :: i < n < j ==> acts[n].Announce? ==> acts[n].address == acts[i].address
    ensures ss[j].deviceID == acts[i].deviceID && ss[j].address == acts[i].address
    decreases j
  {
    if i + 1 < j {
      StaysAnnounced(acts, ss, late, i, j - 1);
    }
  }

  /** Nothing is announced after this action. */
  predicate Silences(a: Action) {
    a.UnAnnounce? || (a.Announce? && (a.deviceID == "" || a.address == ""))
  }

  /** Then no step sets a key. */
  lemma {:induction false} NothingSet(acts: seq<Action>, ss: seq<State>, late: nat, i: nat, j: nat)
    requires IsRun(acts, ss, late) && 0 < i <= j < |ss| && Silences(acts[i - 1])
    requires forall n :: i <= n < j ==> acts[n].Wake? || Silences(acts[n])
    ensures !Announced(ss[j])
    ensures forall key :: key in ss[j].keys ==> key in ss[i].keys && ss[j].keys[key] == ss[i].keys[key]
    decreases j - i
  {
    if i < j {
      NothingSet(acts, ss, late, i, j - 1);
    }
  }

  /** No step recreates a key once the device is unannounced. */
  lemma {:induction false} NothingRecreated(acts: seq<Action>, ss: seq<State>, late: nat, i: nat, j: nat)
    requires IsRun(acts, ss, late) && 0 < i <= j < |ss| && acts[i - 1].UnAnnounce?
    requires forall n :: i <= n < j ==> !acts[n].Announce?
    ensures ss[j].keys == ss[i].keys && !Announced(ss[j]) && ss[j].deviceID == ""
    decreases j - i
  {
    if i < j {
      NothingRecreated(acts, ss, late, i, j - 1);
    }
  }

  /** After UnAnnounce with no later Announce, no key outlives one time to live, even if deleting it
      failed; if the delete succeeded the device's key is gone at once. */
  lemma UnannouncedIsGone(acts: seq<Action>, ss: seq<State>, late: nat, i: nat, j: nat, key: string, now: int)
    requires IsRun(acts, ss, late) && 0 < i <= j < |ss| && acts[i - 1].UnAnnounce?
    requires forall n :: i <= n < j ==> !acts[n].Announce?
    ensures now >= acts[i - 1].now + TTL ==> !Alive(ss[j], key, now)
    ensures acts[i - 1].outcome != Failed && key == ss[i - 1].deviceID != "" ==> !Alive(ss[j], key, now)
  {
    NothingRecreated(acts, ss, late, i, j);
    ExpiryBound(acts, ss, late, i);
  }

  // ---------------------------------------------------------------- the code

  /** The etcd backend's side of the lease; keys and clock stand for etcd and the time. */
  class EtcdBackend {
    var announceStarted: bool
    var announceDeviceID: string
    var announceAddress: string
    var wakes: seq<int>
    var keys: map<string, Key>
    var clock: int

    ghost function Abs(): State
      reads this
    {
      State(announceStarted, announceDeviceID, announceAddress, wakes, keys, clock)
    }

    constructor ()
      ensures Abs() == INITIAL
    {
      announceStarted, announceDeviceID, announceAddress := false, "", "";
      wakes, keys, clock := [], map[], 0;
    }

    method PublishDevice(now: int, deviceID: string, address: string)
      modifies this
      ensures Abs() == Next(old(Abs()), Announce(now, deviceID, address))
    {
      clock := now;
      announceDeviceID := deviceID;
      announceAddress := address;
      if deviceID == "" || address == "" {
        return;
      }
      if !announceStarted {
        wakes := wakes + [now];
        announceStarted := true;
      }
    }

    method WithdrawDevice(now: int, outcome: Outcome)
      modifies this
      ensures Abs() == Next(old(Abs()), UnAnnounce(now, outcome))
    {
      clock := now;
      var deviceID := announceDeviceID;
      announceDeviceID := "";
      announceAddress := "";
      if deviceID != "" && outcome != Failed {
        keys := keys - {deviceID};
      }
    }

    /** Sets the key with its time to live; the result is whether an error came back. */
    method UpdateAnnounce(now: int, outcome: Outcome) returns (failed: bool)
      modifies this`keys
      ensures failed <==> Announced(old(Abs())) && outcome != Ok
      ensures keys == if Announced(old(Abs())) && outcome != Failed
                      then old(keys)[announceDeviceID := Key(announceAddress, now + TTL)] else old(keys)
    {
      if announceDeviceID == "" || announceAddress == "" {
        return false;
      }
      if outcome != Failed {
        keys := keys[announceDeviceID := Key(announceAddress, now + TTL)];
      }
      return outcome != Ok;
    }

    /** One turn of announceLoop. */
    method LoopTurn(now: int, loop: nat, outcome: Outcome)
      requires loop < |wakes|
      modifies this
      ensures Abs() == Next(old(Abs()), Wake(now, loop, outcome))
    {
      clock := now;
      var failed := UpdateAnnounce(now, outcome);
      if failed {
        wakes := wakes[loop := now + RETRY];
      } else {
        wakes := wakes[loop := now + REFRESH];
      }
    }
  }
}
