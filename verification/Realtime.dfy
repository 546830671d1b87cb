/**
 The realtime pipeline end to end: trigger, hub, handler, SDK queue and the consumer's fold
 (migrations/tenant/0001_init.up.sql:127-183, internal/controlplane/realtime/hub.go:146-259,
 internal/controlplane/realtime/handler.go:79-133, sdk/ts/src/subscribe.ts:89-128,
 examples/realtime-todos/web/index.html:140-148).
 */
module Realtime {
  import opened Wrappers
  import Hub
  import Ts = TsSubscription
  import Replay = ChangeReplay
  import Tx = Transactions

  /** The published events a filter lets through, in order. */
  function Matching(steps: seq<Hub.Step>, filter: Hub.Filter): seq<Hub.Event> {
    if steps == [] then []
    else
      var last := steps[|steps| - 1];
      Matching(steps[..|steps| - 1], filter) + if last.Publish? && filter.Matches(last.ev) then [last.ev] else []
  }

  lemma {:induction false} MatchingSplit(a: seq<Hub.Step>, b: seq<Hub.Step>, filter: Hub.Filter)
    ensures Matching(a + b, filter) == Matching(a, filter) + Matching(b, filter)
    decreases |b|
  {
    if b == [] {
      assert a + b == a;
    } else {
      var rest, last := b[..|b| - 1], b[|b| - 1];
      assert (a + b)[..|a + b| - 1] == a + rest;
      MatchingSplit(a, rest, filter);
    }
  }

  /** The steps of a hub that somebody joins after `before` and has not left by the end of `after`. */
  function Joining(before: seq<Hub.Step>, filter: Hub.Filter, after: seq<Hub.Step>): seq<Hub.Step> {
    before + [Hub.Subscribe(filter)] + after
  }

  predicate Stays(id: nat, after: seq<Hub.Step>) { Hub.Unsubscribe(id) !in after }

  /** Whoever joins and stays is owed exactly what matches from then on. */
  lemma {:induction false} OwedSinceJoining(before: seq<Hub.Step>, filter: Hub.Filter, after: seq<Hub.Step>)
    requires Stays(Hub.Subscriptions(before), after)
    ensures var id, steps := Hub.Subscriptions(before), Joining(before, filter, after);
            && Hub.Owed(steps, id) == Matching(after, filter)
            && Hub.Registered(steps, id) == Some(filter)
            && Hub.Subscriptions(steps) > id
    decreases |after|
  {
    var id, steps := Hub.Subscriptions(before), Joining(before, filter, after);
    if after == [] {
      assert steps[..|steps| - 1] == before;
      Hub.TableReflectsRegistrations(before, id);
      Hub.NobodyYet(before, id);
    } else {
      var rest, last := after[..|after| - 1], after[|after| - 1];
      assert after == rest + [last];
      assert last in after;
      assert steps[..|steps| - 1] == Joining(before, filter, rest);
      OwedSinceJoining(before, filter, rest);
    }
  }

  function LogIds(events: seq<Hub.Event>): seq<int> {
    seq(|events|, i requires 0 <= i < |events| => events[i].logId)
  }

  /** Without drops, what has been sent to the client and what is still buffered for it are the
      events published from its joining on, each once and in order. */
  lemma SentFromJoining(before: seq<Hub.Step>, filter: Hub.Filter, after: seq<Hub.Step>)
    requires var id, steps := Hub.Subscriptions(before), Joining(before, filter, after);
             Stays(id, after) && |Hub.Kept(steps, id)| == |Hub.Owed(steps, id)|
    ensures var id, steps := Hub.Subscriptions(before), Joining(before, filter, after);
            && id < |Hub.Run(steps).subs| && |Matching(before, filter)| <= |Matching(steps, filter)|
            && var sub := Hub.Run(steps).subs[id];
               LogIds(sub.received + sub.buffer) == LogIds(Matching(steps, filter))[|Matching(before, filter)|..]
  {
    var id, steps := Hub.Subscriptions(before), Joining(before, filter, after);
    hide Hub.Run, Hub.Owed, Hub.Kept, Hub.Registered, Hub.Subscriptions, Hub.InOrder, Matching;
    OwedSinceJoining(before, filter, after);
    Hub.TableReflectsRegistrations(steps, id);
    Hub.DeliveredInOrder(steps, id);
    MatchesBeforeAndAfter(before, filter, after);
  }

  lemma MatchesBeforeAndAfter(before: seq<Hub.Step>, filter: Hub.Filter, after: seq<Hub.Step>)
    ensures Matching(Joining(before, filter, after), filter) == Matching(before, filter) + Matching(after, filter)
  {
    var joined := before + [Hub.Subscribe(filter)];
    MatchingSplit(joined, after, filter);
    assert joined[..|before|] == before;
    assert Matching(joined, filter) == Matching(before, filter);
  }

  /** A consumer that has asked at least as often as events arrived holds all of them, in order. */
  lemma ConsumerHasAll(calls: seq<Ts.Step>)
    requires forall i :: 0 <= i < |calls| ==> !calls[i].Close?
    requires Ts.Calls(calls) >= |Ts.Delivered(calls)|
    ensures Ts.Values(Ts.Run(Ts.INITIAL, calls).answers) == Ts.Delivered(calls)
  {
    Ts.OpenRunPairs(Ts.INITIAL, [], calls);
    Ts.EveryRun(Ts.INITIAL, calls);
    assert [] + Ts.Delivered(calls) == Ts.Delivered(calls);
  }

  /** A client that joined after `before` has stayed, its buffer never overflowed, everything sent
      has arrived, and its iterator was asked for all of it. */
  predicate AllArrived(before: seq<Hub.Step>, filter: Hub.Filter, after: seq<Hub.Step>, calls: seq<Ts.Step>) {
    var id, steps := Hub.Subscriptions(before), Joining(before, filter, after);
    && Stays(id, after)
    && |Hub.Kept(steps, id)| == |Hub.Owed(steps, id)|
    && id < |Hub.Run(steps).subs|
    && Hub.Run(steps).subs[id].buffer == []
    && Ts.Delivered(calls) == LogIds(Hub.Run(steps).subs[id].received)
    && (forall i :: 0 <= i < |calls| ==> !calls[i].Close?)
    && Ts.Calls(calls) >= |Ts.Delivered(calls)|
  }

  /** What the consumer has been handed. */
  function Seen(calls: seq<Ts.Step>): seq<int> { Ts.Values(Ts.Run(Ts.INITIAL, calls).answers) }

  /** Then it has been handed what was published from its joining on, in order. */
  lemma SeenIsPublished(before: seq<Hub.Step>, filter: Hub.Filter, after: seq<Hub.Step>, calls: seq<Ts.Step>)
    requires AllArrived(before, filter, after, calls)
    ensures var steps := Joining(before, filter, after);
            && |Matching(before, filter)| <= |Matching(steps, filter)|
            && Seen(calls) == LogIds(Matching(steps, filter))[|Matching(before, filter)|..]
  {
    var id, steps := Hub.Subscriptions(before), Joining(before, filter, after);
    hide Hub.Run, Hub.Owed, Hub.Kept, Hub.Subscriptions, Matching, Ts.Run, Ts.Values;
    SentFromJoining(before, filter, after);
    var received := Hub.Run(steps).subs[id].received;
    assert received + [] == received;
    ConsumerHasAll(calls);
  }

  /** End to end.  A client joins, takes a snapshot of the table that has everything published
      before it joined, and folds every event its iterator hands it into that snapshot.  If the hub
      published the events about each row in their order and the latest about every row, and
      everything arrived, then however publishing, sending, arriving and asking interleaved, the
      client's view is the table. */
  lemma ConsumerConverges(t: Replay.Table, changes: seq<Replay.Change>, k: nat,
                          before: seq<Hub.Step>, filter: Hub.Filter, after: seq<Hub.Step>, calls: seq<Ts.Step>)
    requires Replay.Valid(t, changes) && k <= |changes| && AllArrived(before, filter, after, calls)
    requires var published := LogIds(Matching(Joining(before, filter, after), filter));
             && Replay.Publication(Replay.Log(t, changes), published)
             && (forall i :: 0 <= i < |Matching(before, filter)| && i < |published| ==> published[i] < k)
    ensures (forall i :: 0 <= i < |Seen(calls)| ==> 0 <= Seen(calls)[i] < |Replay.Log(t, changes)|)
    ensures Replay.Replay(Replay.Snapshot(Replay.TableAfter(t, changes, k)),
                          Replay.Rows(Replay.Log(t, changes), Seen(calls)))
         == Replay.Snapshot(Replay.After(t, changes))
  {
    hide AllArrived, Seen, Matching, Replay.Publication;
    var published := LogIds(Matching(Joining(before, filter, after), filter));
    SeenIsPublished(before, filter, after, calls);
    SeenInRange(Replay.Log(t, changes), published, |Matching(before, filter)|);
    Replay.PublicationConverges(t, changes, k, published, |Matching(before, filter)|);
  }

  lemma SeenInRange(log: seq<Replay.Entry>, ids: seq<int>, j: nat)
    requires Replay.Publication(log, ids) && j <= |ids|
    ensures forall i :: 0 <= i < |ids[j..]| ==> 0 <= ids[j..][i] < |log|
  {
  }

  // --- With the order of publication derived from transactions -----------------------------------

  /** The log rows behind some notifications. */
  function LookedUp(log: map<int, Replay.Entry>, ids: seq<int>): seq<Replay.Entry>
    requires forall i :: 0 <= i < |ids| ==> ids[i] in log
  {
    seq(|ids|, i requires 0 <= i < |ids| => log[ids[i]])
  }

  /** The notifications from the j-th on, folded into a snapshot of what was committed at some moment
      when at least j had gone out, give what is committed now. */
  lemma NotificationsConverge(t: Replay.Table, early: seq<Tx.Step>, late: seq<Tx.Step>, j: nat)
    requires Tx.Possible(Tx.Start(t), early) && Tx.Possible(Tx.Run(Tx.Start(t), early), late)
    requires j <= |Tx.Run(Tx.Start(t), early).published|
    ensures var s := Tx.Run(Tx.Start(t), early);
            var e := Tx.Run(s, late);
            && j <= |e.published| && (forall i :: 0 <= i < |e.published[j..]| ==> e.published[j..][i] in e.log)
            && Replay.Replay(Replay.Snapshot(s.table), LookedUp(e.log, e.published[j..])) == Replay.Snapshot(e.table)
  {
    var s := Tx.Run(Tx.Start(t), early);
    var e := Tx.Run(s, late);
    hide Tx.Run, Tx.Possible;
    Tx.EveryRun(t, Tx.Start(t), early);
    Tx.EveryRun(t, s, late);
    Tx.CommittedGrows(s, late);
    Replay.EventsAreTail(t, e.committed, j);
    assert LookedUp(e.log, e.published[j..]) == Replay.Events(t, e.committed, j);
    var k := |s.committed|;
    assert e.committed[..k] == s.committed;
    Replay.ReplayConverges(t, e.committed, j, k);
  }

  /** End to end, from the transactions on.  Clients write and commit, interleaved in any way; the hub
      passes on the notifications in the order of the commits; a client that joined before takes its
      snapshot of the committed table and folds what its iterator hands it.  Its view ends at the
      committed table. */
  lemma CommitsConverge(t: Replay.Table, early: seq<Tx.Step>, late: seq<Tx.Step>,
                        before: seq<Hub.Step>, filter: Hub.Filter, after: seq<Hub.Step>, calls: seq<Ts.Step>)
    requires Tx.Possible(Tx.Start(t), early) && Tx.Possible(Tx.Run(Tx.Start(t), early), late)
    requires AllArrived(before, filter, after, calls)
    requires var s := Tx.Run(Tx.Start(t), early);
             && LogIds(Matching(Joining(before, filter, after), filter)) == Tx.Run(s, late).published
             && |Matching(before, filter)| <= |s.published|
    ensures var s := Tx.Run(Tx.Start(t), early);
            var e := Tx.Run(s, late);
            && (forall i :: 0 <= i < |Seen(calls)| ==> Seen(calls)[i] in e.log)
            && Replay.Replay(Replay.Snapshot(s.table), LookedUp(e.log, Seen(calls))) == Replay.Snapshot(e.table)
  {
    hide AllArrived, Seen, Matching, Tx.Run, Tx.Possible;
    SeenIsPublished(before, filter, after, calls);
    NotificationsConverge(t, early, late, |Matching(before, filter)|);
  }
}
