/** From Syncthing's event log to the tracked paths. */
module Announcements {
  import EventFeed
  import opened Accumulation
  import opened Runs
  import opened Independence

  /** The events that came through the channel, in order. */
  function Received(es: seq<Event>): seq<EventFeed.STEvent> {
    if es == [] then []
    else
      var rest, e := Received(es[..|es| - 1]), es[|es| - 1];
      if e.StEvent? then rest + [EventFeed.STEvent(e.path, e.finished)] else rest
  }

  /** What an entry of the log does to the tracked paths when it arrives: an index update hurries the
      loop, a started item is tracked as Syncthing's if there is room, a finished one is not tracked, and
      all other paths are as before. */
  lemma EntryArrives(cfg: Config, s: State, now: int, kind: EventFeed.Kind, e: EventFeed.STEvent, q: string)
    requires EventFeed.Says(e, kind) && (e.path == "" <==> kind == EventFeed.RemoteIndexUpdated)
    ensures var t := Step(cfg, s, StEvent(now, e.path, e.finished));
            match kind
            case RemoteIndexUpdated => t.inProgress == s.inProgress && t.currInterval == cfg.debounceTimeout
            case ItemStarted(p) =>
              EntryOf(t, q) == if q == p && |s.inProgress| <= cfg.maxFiles then FromSyncthing(now) else EntryOf(s, q)
            case ItemFinished(p) => EntryOf(t, q) == if q == p then Untracked else EntryOf(s, q)
            case Other => false
  {
  }

  /** Every announcement that arrives is an entry of the log, in its place. */
  lemma {:induction false} ArrivalIsEntry(es: seq<Event>, m: nat) returns (i: nat)
    requires m < |es| && es[m].StEvent?
    ensures i < |Received(es)| && i == |Received(es[..m])|
    ensures Received(es)[i] == EventFeed.STEvent(es[m].path, es[m].finished)
  {
    if m == |es| - 1 {
      i := |Received(es[..m])|;
    } else {
      var init := es[..|es| - 1];
      i := ArrivalIsEntry(init, m);
      assert init[..m] == es[..m];
    }
  }

  /** From the log to the reports: if an entry of a started item arrives at step m, and its path is seen
      on disk once before that expires, the write is never reported. */
  lemma LoggedWriteIsNeverReported(cfg: Config, start: int, es: seq<Event>, ss: seq<State>, m: nat, j: nat, seen: int,
                                   p: string, log: seq<EventFeed.ServerEvent>, st: seq<EventFeed.STEvent>, at: seq<nat>,
                                   i: nat)
    requires ProperRun(cfg, start, es, ss) && p != ""
    requires EventFeed.Transcribes(st, log, at) && Received(es) <= st
    requires i < |at| && log[at[i]].kind == EventFeed.ItemStarted(p)
    requires m < |es| && es[m].StEvent? && |Received(es[..m])| == i
    requires SeenOnce(cfg, es, ss, m, j, es[m].now, seen, p)
    ensures forall n :: m < n <= |es| ==> !Pending(ss[n], p)
  {
    var k := ArrivalIsEntry(es, m);
    assert st[i] == EventFeed.STEvent(es[m].path, es[m].finished);
    EchoIsNeverReported(cfg, start, es, ss, m, j, es[m].now, seen, p);
  }
}
