/** The watchpoint of a node as the map it is, changed in place. */
module WatchpointMaps {
  import opened Watchpoints
  import opened TriePaths
  import opened Stopping

  class WatchpointMap {
    var events: Watchpoint

    constructor (events: Watchpoint)
      ensures this.events == events
    {
      this.events := events;
    }

    /** watchpoint.Add */
    method AddEvents(c: Chan, e: Event) returns (diff: Diff)
      requires c != Nil
      modifies this`events
      ensures events == AddTo(old(events), c, e) && diff == AddDiff(old(events), e)
    {
      events := events[c := Get(events, c) + e];
      var before := Get(events, Nil);
      var after := before + e;
      events := events[Nil := after - OMIT];
      diff := StripDiff(before, after);
    }

    /** watchpoint.Del */
    method DelEvents(c: Chan, e: Event) returns (diff: Diff)
      requires c != Nil
      modifies this`events
      ensures events == DelFrom(old(events), c, e) && diff == DelDiff(old(events), c, e)
    {
      var before := Get(events, Nil);
      TakeEvents(c, e);
      DelParts(old(events), c, e, events);
      var after := {};
      if |events| != 0 {
        after := Recalculate(events);
        events := events[Nil := after - OMIT];
      }
      diff := StripDiff(before, after);
    }

    method TakeEvents(c: Chan, e: Event)
      requires c != Nil
      modifies this`events
      ensures events == Remaining(old(events), c, e)
    {
      events := events[c := Get(events, c) - e];
      if events[c] == {} {
        events := events - {c};
      }
      events := events - {Nil};
    }

    /** watchDelMin of the tree */
    method DelMinEvents(min: Event, c: Chan, e: Event) returns (diff: Diff)
      requires c != Nil && c != Rec
      modifies this`events
      ensures Deletion(events, diff) == DelMin(min, old(events), c, e)
    {
      var had := Get(events, Rec);
      var registered := Rec in events;
      if registered {
        events := events[Rec := min];
      }
      diff := DelEvents(c, e);
      if registered {
        had := had - (diff.before - diff.after);
        if had <= INTERNAL {
          events := events - {Rec};
          if Nil in events && |events| == 1 && events[Nil] == {} {
            SingleKey(events, Nil);
            events := events - {Nil};
          }
        } else {
          var unused := AddEvents(Rec, had + CREATE);
          if diff != NONE {
            if diff.after + CREATE == diff.before {
              diff := NONE;
            } else {
              diff := Diff(diff.before, diff.after + CREATE);
            }
          }
        }
      }
    }

    /** The error branch of watch: Add, a refused OS call, Del of the new events. */
    method AddAndDel(c: Chan, e: Event)
      requires NodeInv(events) && c.User? && e !! INTERNAL && AddDiff(events, e) != NONE
      modifies this`events
      ensures NodeInv(events) && TakenBack(old(events), events, c, e)
    {
      UndoRestoresTotal(events, c, e);
      UndoKeeps(events, c, e);
      var diff := AddEvents(c, e);
      diff := DelEvents(c, diff.after - diff.before);
    }

    /** watchDelMin with all events, as Stop calls it. */
    method DelAll(min: Event, c: Chan) returns (diff: Diff)
      requires NodeInv(events) && Demand(min) && c.User?
      modifies this`events
      ensures NodeInv(events) && Tells(diff, Total(old(events)), Total(events)) && StoppedNode(old(events), events, c)
      ensures min == {} && Users(old(events)) <= {c} ==> events == map[]
      ensures Total(old(events)) == {} ==> diff == NONE
      ensures Heeds(old(events), events, min, c)
    {
      DelMinSound(min, events, c);
      DelMinNeeds(min, events, c);
      forall k: Chan, e | k.User? && k != c && e <= Get(events, k) && e - INTERNAL <= Get(events, Rec)
        ensures e - INTERNAL <= Get(DelMin(min, events, c, ALL).wp, Rec)
      {
        DelMinKeepsCovered(min, events, c, k, e);
      }
      diff := DelMinEvents(min, c, ALL);
    }
  }

  method DelAllFrom(was: Watchpoint, min: Event, c: Chan) returns (now: Watchpoint, diff: Diff)
    requires NodeInv(was) && Demand(min) && c.User?
    ensures NodeInv(now) && Tells(diff, Total(was), Total(now)) && StoppedNode(was, now, c)
    ensures min == {} && Users(was) <= {c} ==> now == map[]
    ensures Total(was) == {} ==> diff == NONE
    ensures Heeds(was, now, min, c)
  {
    var wp := new WatchpointMap(was);
    diff := wp.DelAll(min, c);
    now := wp.events;
  }
}
