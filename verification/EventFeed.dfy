/** watchSTEvents: the long poll that feeds Syncthing's events to the watcher. */
module EventFeed {

  datatype Kind = RemoteIndexUpdated | ItemStarted(item: string) | ItemFinished(item: string) | Other

  datatype ServerEvent = ServerEvent(id: int, kind: Kind)

  datatype STEvent = STEvent(path: string, finished: bool)

  /** One turn: the watcher is closed already, or GetEvents gives an error, after which the watcher may
      be closed, the error of a connection closed by this side, a null body, or a list of events. */
  datatype Answer = Closed | Failed(closed: bool) | Disconnected | Null | Events(events: seq<ServerEvent>)

  function Forwarded(events: seq<ServerEvent>): seq<STEvent> {
    if events == [] then []
    else
      var rest := Forwarded(events[..|events| - 1]);
      match events[|events| - 1].kind
      case RemoteIndexUpdated => rest + [STEvent("", false)]
      case ItemStarted(item) => rest + [STEvent(item, false)]
      case ItemFinished(item) => rest + [STEvent(item, true)]
      case Other => rest
  }

  /** The last ID seen, what went into the channel, in all and since the last error, and how the loop
      ended, if it did. */
  datatype State = State(lastSeenID: int, sent: seq<STEvent>, sinceError: seq<STEvent>, panicked: bool, returned: bool)

  const INITIAL := State(0, [], [], false, false)

  function Next(s: State, a: Answer): State {
    if s.returned then s else
    match a
    case Closed => s.(returned := true)
    case Failed(closed) => if closed then s.(returned := true) else s.(lastSeenID := 0, sinceError := [])
    case Disconnected => s
    case Null => s
    case Events(events) =>
      if events == [] then s.(panicked := true)
      else s.(lastSeenID := events[|events| - 1].id, sent := s.sent + Forwarded(events),
              sinceError := s.sinceError + Forwarded(events))
  }

  /** The watcher is found closed. */
  predicate Ends(a: Answer) {
    a == Closed || a == Failed(true)
  }

  /** What an event in the channel says about an entry of the log. */
  predicate Says(e: STEvent, kind: Kind) {
    && kind != Other && (e.finished <==> kind.ItemFinished?)
    && (kind == RemoteIndexUpdated ==> e.path == "")
    && (kind.ItemStarted? || kind.ItemFinished? ==> e.path == kind.item)
  }

  /** at lists, in order, the positions of the entries that the events st speak of: all but those of
      no interest. */
  ghost predicate Transcribes(st: seq<STEvent>, events: seq<ServerEvent>, at: seq<nat>) {
    && |at| == |st|
    && (forall i, j :: 0 <= i < j < |at| ==> at[i] < at[j])
    && (forall i :: 0 <= i < |at| ==> at[i] < |events| && Says(st[i], events[at[i]].kind))
    && forall n: nat :: n < |events| ==> (n in at <==> events[n].kind != Other)
  }

  lemma SkipOne(st: seq<STEvent>, events: seq<ServerEvent>, at: seq<nat>, x: ServerEvent)
    requires Transcribes(st, events, at) && x.kind == Other
    ensures Transcribes(st, events + [x], at)
  {
    forall n: nat | n < |events + [x]| ensures n in at <==> (events + [x])[n].kind != Other {
      if n == |events| {
        assert n !in at;
      } else {
        assert (events + [x])[n] == events[n];
      }
    }
  }

  lemma AddOne(st: seq<STEvent>, events: seq<ServerEvent>, at: seq<nat>, x: ServerEvent, e: STEvent)
    requires Transcribes(st, events, at) && Says(e, x.kind)
    ensures Transcribes(st + [e], events + [x], at + [|events|])
  {
    var at' := at + [|events|];
    forall n: nat | n < |events + [x]| ensures n in at' <==> (events + [x])[n].kind != Other {
      assert n in at' <==> n in at || n == |events|;
    }
    forall i | 0 <= i < |at'| ensures at'[i] < |events + [x]| && Says((st + [e])[i], (events + [x])[at'[i]].kind) {
      if i < |at| {
        assert at'[i] == at[i] < |events|;
      }
    }
  }

  lemma ForwardedOneMore(events: seq<ServerEvent>, x: ServerEvent)
    ensures Forwarded(events) <= Forwarded(events + [x])
    ensures var more := Forwarded(events + [x])[|Forwarded(events)|..];
            if x.kind == Other then more == [] else |more| == 1 && Says(more[0], x.kind)
  {
    assert (events + [x])[..|events|] == events;
  }

  /** What is forwarded corresponds one to one, in order, to the entries of interest. */
  lemma {:induction false} ForwardedTranscribes(events: seq<ServerEvent>) returns (at: seq<nat>)
    ensures Transcribes(Forwarded(events), events, at)
  {
    if events == [] {
      at := [];
    } else {
      var init, x := events[..|events| - 1], events[|events| - 1];
      at := ForwardedTranscribes(init);
      assert events == init + [x];
      ForwardedOneMore(init, x);
      if x.kind == Other {
        SkipOne(Forwarded(init), init, at, x);
        assert Forwarded(events) == Forwarded(init);
      } else {
        var e := Forwarded(events)[|Forwarded(init)|];
        AddOne(Forwarded(init), init, at, x, e);
        at := at + [|init|];
        assert Forwarded(events) == Forwarded(init) + [e];
      }
    }
  }

  class Feed {
    var lastSeenID: int
    var stInput: seq<STEvent>
    ghost var model: State

    ghost predicate Valid()
      reads this
    {
      model.lastSeenID == lastSeenID && model.sent == stInput && !model.panicked && !model.returned
    }

    constructor ()
      ensures Valid() && model == INITIAL
    {
      lastSeenID, stInput, model := 0, [], INITIAL;
    }

    /** One turn of the loop, and whether there is another. An empty list of events indexes out of
        range. */
    method Poll(a: Answer) returns (goesOn: bool)
      requires Valid()
      modifies this
      ensures model == Next(old(model), a) && stInput == model.sent
      ensures goesOn <==> !model.panicked && !model.returned
      ensures (model.panicked <==> a == Events([])) && (model.returned <==> Ends(a))
      ensures goesOn ==> Valid()
    {
      model := Next(model, a);
      if a.Closed? {
        return false;
      }
      if a.Failed? {
        if a.closed {
          return false;
        }
        lastSeenID := 0;
        return true;
      }
      if a.Disconnected? {
        return true;
      }
      if a.Null? {
        return true;
      }
      ghost var before := stInput;
      for i := 0 to |a.events|
        invariant stInput == before + Forwarded(a.events[..i])
        invariant model == Next(old(model), a) && model.panicked == (a.events == [])
      {
        assert a.events[..i + 1][..i] == a.events[..i];
        match a.events[i].kind
        case RemoteIndexUpdated => stInput := stInput + [STEvent("", false)];
        case ItemStarted(item) => stInput := stInput + [STEvent(item, false)];
        case ItemFinished(item) => stInput := stInput + [STEvent(item, true)];
        case Other =>
      }
      assert a.events[..|a.events|] == a.events;
      if |a.events| == 0 {
        return false;
      }
      lastSeenID := a.events[|a.events| - 1].id;
      return true;
    }
  }

  // ---------------------------------------------------------------- against an event log

  ghost predicate Ordered(log: seq<ServerEvent>) {
    forall i, j :: 0 <= i < j < |log| ==> log[i].id < log[j].id
  }

  /** The server appends to its log, whose IDs are positive, and answers a request for events since
      an ID with the next events after it, at least one. */
  ghost predicate Served(log: seq<ServerEvent>, since: int, a: Answer) {
    && Ordered(log) && (forall i :: 0 <= i < |log| ==> log[i].id > 0)
    && (a.Events? ==> exists m, n :: IsBatch(log, since, a.events, m, n))
  }

  ghost predicate IsBatch(log: seq<ServerEvent>, since: int, events: seq<ServerEvent>, m: nat, n: nat) {
    && m < n <= |log| && events == log[m..n]
    && (forall k :: 0 <= k < m ==> log[k].id <= since) && since < log[m].id
  }

  ghost predicate IsRun(answers: seq<Answer>, logs: seq<seq<ServerEvent>>, ss: seq<State>) {
    && |logs| == |answers| && |ss| == |answers| + 1 && ss[0] == INITIAL
    && (forall i, j :: 0 <= i < j < |logs| ==> logs[i] <= logs[j])
    && forall n :: 0 <= n < |answers| ==>
          Served(logs[n], ss[n].lastSeenID, answers[n]) && ss[n + 1] == Next(ss[n], answers[n])
  }

  lemma {:induction false} ForwardedOfSum(a: seq<ServerEvent>, b: seq<ServerEvent>)
    ensures Forwarded(a + b) == Forwarded(a) + Forwarded(b)
  {
    if b == [] {
      assert a + b == a;
    } else {
      assert (a + b)[..|a + b| - 1] == a + b[..|b| - 1];
      ForwardedOfSum(a, b[..|b| - 1]);
    }
  }

  /** Since the last error exactly the first n entries of the log were fetched. */
  ghost predicate UpTo(log: seq<ServerEvent>, s: State, n: nat) {
    && n <= |log| && s.sinceError == Forwarded(log[..n])
    && s.lastSeenID == (if n == 0 then 0 else log[n - 1].id)
  }

  lemma FetchContinues(log: seq<ServerEvent>, s: State, a: Answer, n: nat) returns (n': nat)
    requires Served(log, s.lastSeenID, a) && UpTo(log, s, n)
    ensures UpTo(log, Next(s, a), n') && (a.Events? && !s.returned ==> n' > n)
    ensures !s.panicked ==> !Next(s, a).panicked
  {
    if s.returned {
      return n;
    }
    match a {
      case Closed => n' := n;
      case Failed(closed) =>
        n' := if closed then n else 0;
        assert log[..0] == [];
      case Disconnected => n' := n;
      case Null => n' := n;
      case Events(events) =>
        var m: nat, k: nat :| IsBatch(log, s.lastSeenID, events, m, k);
        BatchStartsAt(log, s, events, n, m, k);
        BatchContinues(log, s, events, n, k);
        n' := k;
    }
  }

  lemma BatchContinues(log: seq<ServerEvent>, s: State, events: seq<ServerEvent>, n: nat, k: nat)
    requires UpTo(log, s, n) && n < k <= |log| && events == log[n..k] && !s.returned
    ensures UpTo(log, Next(s, Events(events)), k)
  {
    assert log[..k] == log[..n] + log[n..k];
    ForwardedOfSum(log[..n], log[n..k]);
    assert events[|events| - 1] == log[k - 1];
  }

  lemma BatchStartsAt(log: seq<ServerEvent>, s: State, events: seq<ServerEvent>, n: nat, m: nat, k: nat)
    requires Ordered(log) && (forall i :: 0 <= i < |log| ==> log[i].id > 0) && UpTo(log, s, n)
    requires IsBatch(log, s.lastSeenID, events, m, k)
    ensures m == n
  {
    assert forall j :: 0 <= j < n ==> log[j].id <= s.lastSeenID;
    if n < |log| {
      assert s.lastSeenID < log[n].id;
    }
  }

  /** Exactly once: since the last error, or from the start, the events forwarded are exactly the
      relevant ones of an initial piece of the log, in order, without gap or repetition. */
  lemma {:induction false} ForwardsExactlyOnce(answers: seq<Answer>, logs: seq<seq<ServerEvent>>,
          ss: seq<State>, i: nat) returns (n: nat)
    requires IsRun(answers, logs, ss) && 0 < i <= |answers|
    ensures UpTo(logs[i - 1], ss[i], n) && !ss[i].panicked
  {
    if i == 1 {
      n := FetchContinues(logs[0], ss[0], answers[0], 0);
    } else {
      n := ForwardsExactlyOnce(answers, logs, ss, i - 1);
      assert logs[i - 2] <= logs[i - 1];
      assert logs[i - 1][..n] == logs[i - 2][..n];
      n := FetchContinues(logs[i - 1], ss[i - 1], answers[i - 1], n);
    }
  }

  /** In terms of the log: since the last error each entry of interest up to some point was announced in
      the channel, once and in order, and nothing else was. */
  lemma ChannelTranscribesLog(answers: seq<Answer>, logs: seq<seq<ServerEvent>>, ss: seq<State>, i: nat)
    returns (n: nat, at: seq<nat>)
    requires IsRun(answers, logs, ss) && 0 < i <= |answers|
    ensures n <= |logs[i - 1]| && Transcribes(ss[i].sinceError, logs[i - 1][..n], at)
    ensures ss[i].lastSeenID == if n == 0 then 0 else logs[i - 1][n - 1].id
  {
    n := ForwardsExactlyOnce(answers, logs, ss, i);
    at := ForwardedTranscribes(logs[i - 1][..n]);
  }

  /** Only a closed watcher ends the loop. */
  lemma {:induction false} ReturnedIff(answers: seq<Answer>, logs: seq<seq<ServerEvent>>, ss: seq<State>, i: nat)
    requires IsRun(answers, logs, ss) && i <= |answers|
    ensures ss[i].returned <==> exists k :: 0 <= k < i && Ends(answers[k])
  {
    if i > 0 {
      ReturnedIff(answers, logs, ss, i - 1);
      assert ss[i] == Next(ss[i - 1], answers[i - 1]);
      assert (exists k :: 0 <= k < i && Ends(answers[k])) <==>
             (exists k :: 0 <= k < i - 1 && Ends(answers[k])) || Ends(answers[i - 1]);
    }
  }

  /** And until then every answer is used up: the channel has the log up to the last event of it. */
  lemma NothingIsLeftOut(answers: seq<Answer>, logs: seq<seq<ServerEvent>>, ss: seq<State>, i: nat)
    returns (n: nat, at: seq<nat>)
    requires IsRun(answers, logs, ss) && 0 < i <= |answers| && answers[i - 1].Events?
    requires forall k :: 0 <= k < i ==> !Ends(answers[k])
    ensures 0 < n <= |logs[i - 1]| && Transcribes(ss[i].sinceError, logs[i - 1][..n], at)
    ensures var events := answers[i - 1].events; events != [] && logs[i - 1][n - 1] == events[|events| - 1]
  {
    ReturnedIff(answers, logs, ss, i - 1);
    n, at := ChannelTranscribesLog(answers, logs, ss, i);
    SeenIsLast(logs[i - 1], ss[i - 1], answers[i - 1], n);
  }

  lemma SeenIsLast(log: seq<ServerEvent>, s: State, a: Answer, n: nat)
    requires !s.returned && a.Events? && Served(log, s.lastSeenID, a) && n <= |log|
    requires Next(s, a).lastSeenID == if n == 0 then 0 else log[n - 1].id
    ensures n > 0 && a.events != [] && log[n - 1] == a.events[|a.events| - 1]
  {
    var m: nat, k: nat :| IsBatch(log, s.lastSeenID, a.events, m, k);
    assert a.events[|a.events| - 1] == log[k - 1];
    assert log[k - 1].id > 0;
  }

  /** Without errors that is everything that was ever forwarded. */
  lemma {:induction false} ErrorFreeFeed(answers: seq<Answer>, logs: seq<seq<ServerEvent>>, ss: seq<State>, i: nat)
    requires IsRun(answers, logs, ss) && i <= |answers| && forall k :: 0 <= k < i ==> !answers[k].Failed?
    ensures ss[i].sent == ss[i].sinceError
  {
    if i > 0 {
      ErrorFreeFeed(answers, logs, ss, i - 1);
    }
  }

  /** An error makes the feed start over: the next answer repeats the log from its first entry. */
  lemma ErrorReplays(log: seq<ServerEvent>, s: State, a: Answer)
    requires !s.returned && a.Events? && Served(log, Next(s, Failed(false)).lastSeenID, a)
    ensures a.events[0] == log[0]
    ensures Next(Next(s, Failed(false)), a).sent == s.sent + Forwarded(a.events)
  {
  }
}
