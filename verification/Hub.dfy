/**
 The realtime hub: filtered fan-out to bounded buffers that never block the publisher
 (internal/controlplane/realtime/hub.go:46-72, 146-163, 244-259) and the handler that
 drains one buffer per connection (internal/controlplane/realtime/handler.go:74-133).
 */
module Hub {
  import opened Wrappers

  datatype Event = Event(logId: int, schema: string, table: string, userId: string)

  datatype Filter = Filter(schema: string, table: string, userId: string)
  {
    /** An empty table or user means "all"; the schema always has to agree. */
    predicate Matches(ev: Event) {
      if schema != ev.schema then false
      else if table != "" && table != ev.table then false
      else if userId != "" && userId != ev.userId then false
      else true
    }
  }

  const CAPACITY: nat := 64

  /** A subscriber, numbered by the order of subscription.  `buffer` is its channel and
      `received` what the handler has taken from it so far. */
  datatype Sub = Sub(filter: Filter, live: bool, buffer: seq<Event>, received: seq<Event>)

  datatype State = State(subs: seq<Sub>, dropCount: nat)

  datatype Step =
    | Subscribe(filter: Filter)
    | Unsubscribe(id: nat)
    | Publish(ev: Event)
    | Receive(id: nat)

  predicate Wants(s: Sub, ev: Event) { s.live && s.filter.Matches(ev) }
  predicate Full(s: Sub) { |s.buffer| >= CAPACITY }

  /** A non-blocking send to one subscriber. */
  function Offer(s: Sub, ev: Event): Sub {
    if Wants(s, ev) && !Full(s) then s.(buffer := s.buffer + [ev]) else s
  }

  /** The handler takes the oldest buffered event. */
  function Taken(s: Sub): Sub
    requires s.buffer != []
  {
    s.(buffer := s.buffer[1..], received := s.received + [s.buffer[0]])
  }

  function OfferAll(subs: seq<Sub>, ev: Event): (r: seq<Sub>)
    ensures |r| == |subs|
  {
    seq(|subs|, i requires 0 <= i < |subs| => Offer(subs[i], ev))
  }

  /** How many of the subscribers miss the event. */
  function Misses(subs: seq<Sub>, ev: Event): nat {
    if subs == [] then 0
    else Misses(subs[..|subs| - 1], ev) + (var s := subs[|subs| - 1]; if Wants(s, ev) && Full(s) then 1 else 0)
  }

  function Do(s: State, step: Step): State {
    match step
    case Subscribe(filter) => s.(subs := s.subs + [Sub(filter, true, [], [])])
    case Unsubscribe(id) =>
      if id < |s.subs| then s.(subs := s.subs[id := s.subs[id].(live := false)]) else s
    case Publish(ev) => State(OfferAll(s.subs, ev), s.dropCount + Misses(s.subs, ev))
    case Receive(id) =>
      if id < |s.subs| && s.subs[id].buffer != [] then
        var c := s.subs[id];
        s.(subs := s.subs[id := Taken(c)])
      else s
  }

  lemma NobodyMisses(ev: Event)
    ensures Misses([], ev) == 0
  {
  }

  lemma OneMoreMisses(subs: seq<Sub>, i: nat, ev: Event)
    requires i < |subs|
    ensures Misses(subs[..i + 1], ev) == Misses(subs[..i], ev) + if Wants(subs[i], ev) && Full(subs[i]) then 1 else 0
  {
    assert subs[..i + 1][..i] == subs[..i];
  }

  class Hub {
    var subs: seq<Sub>
    var dropCount: nat

    constructor ()
      ensures State(subs, dropCount) == State([], 0)
    {
      subs, dropCount := [], 0;
    }

    method Subscribe(filter: Filter) returns (id: nat)
      modifies this
      ensures State(subs, dropCount) == Do(State(old(subs), old(dropCount)), Step.Subscribe(filter))
      ensures id == |old(subs)|
    {
      id := |subs|;
      subs := subs + [Sub(filter, true, [], [])];
    }

    method Unsubscribe(id: nat)
      requires id < |subs|
      modifies this
      ensures State(subs, dropCount) == Do(State(old(subs), old(dropCount)), Step.Unsubscribe(id))
    {
      subs := subs[id := subs[id].(live := false)];
    }

    method Fanout(ev: Event)
      modifies this
      ensures State(subs, dropCount) == Do(State(old(subs), old(dropCount)), Publish(ev))
    {
      hide Misses, Filter.Matches;
      ghost var before := subs;
      NobodyMisses(ev);
      for i := 0 to |subs|
        invariant |subs| == |before|
        invariant forall j :: 0 <= j < i ==> subs[j] == Offer(before[j], ev)
        invariant forall j :: i <= j < |subs| ==> subs[j] == before[j]
        invariant dropCount == old(dropCount) + Misses(before[..i], ev)
      {
        OneMoreMisses(before, i, ev);
        var sub := subs[i];
        if !sub.live || !sub.filter.Matches(ev) {
          continue;
        }
        if |sub.buffer| < CAPACITY {
          subs := subs[i := sub.(buffer := sub.buffer + [ev])];
        } else {
          dropCount := dropCount + 1;
        }
      }
      assert before[..|before|] == before;
    }

    method Receive(id: nat) returns (ev: Option<Event>)
      requires id < |subs|
      modifies this
      ensures State(subs, dropCount) == Do(State(old(subs), old(dropCount)), Step.Receive(id))
      ensures ev == if old(subs)[id].buffer == [] then None else Some(old(subs)[id].buffer[0])
    {
      var c := subs[id];
      if c.buffer == [] { return None; }
      subs := subs[id := c.(buffer := c.buffer[1..], received := c.received + [c.buffer[0]])];
      return Some(c.buffer[0]);
    }
  }

  // --- Runs, and what each subscriber was owed -----------------------------------------------

  function Run(steps: seq<Step>): State {
    if steps == [] then State([], 0) else Do(Run(steps[..|steps| - 1]), steps[|steps| - 1])
  }

  function Subscriptions(steps: seq<Step>): nat {
    if steps == [] then 0
    else Subscriptions(steps[..|steps| - 1]) + if steps[|steps| - 1].Subscribe? then 1 else 0
  }

  /** The filter under which the `id`-th subscription is registered after the steps, if it is;
      read off the steps alone. */
  function Registered(steps: seq<Step>, id: nat): Option<Filter> {
    if steps == [] then None
    else
      var before, last := steps[..|steps| - 1], steps[|steps| - 1];
      if last.Subscribe? && Subscriptions(before) == id then Some(last.filter)
      else if last == Unsubscribe(id) then None
      else Registered(before, id)
  }

  /** The events published while `id` was registered that its filter matches, in order. */
  function Owed(steps: seq<Step>, id: nat): seq<Event> {
    if steps == [] then []
    else
      var before, last := steps[..|steps| - 1], steps[|steps| - 1];
      var filter := Registered(before, id);
      Owed(before, id) + if last.Publish? && filter.Some? && filter.value.Matches(last.ev) then [last.ev] else []
  }

  /** The positions in `Owed` of the events that found room. */
  function Kept(steps: seq<Step>, id: nat): seq<nat> {
    if steps == [] then []
    else
      var before, last := steps[..|steps| - 1], steps[|steps| - 1];
      var subs := Run(before).subs;
      Kept(before, id) +
      if last.Publish? && id < |subs| && Wants(subs[id], last.ev) && !Full(subs[id]) then [|Owed(before, id)|] else []
  }

  predicate Increasing(ps: seq<nat>, bound: nat) {
    (forall i, j :: 0 <= i < j < |ps| ==> ps[i] < ps[j]) && (forall i :: 0 <= i < |ps| ==> ps[i] < bound)
  }

  function Pick(events: seq<Event>, ps: seq<nat>): seq<Event>
    requires forall i :: 0 <= i < |ps| ==> ps[i] < |events|
  {
    seq(|ps|, i requires 0 <= i < |ps| => events[ps[i]])
  }

  predicate Reflects(s: Sub, filter: Option<Filter>) {
    s.live == filter.Some? && (s.live ==> filter.value == s.filter)
  }

  /** The hub's table is the registrations the steps made: one entry a subscription, live
      exactly while registered, under the filter it was made with. */
  lemma {:induction false} TableReflectsRegistrations(steps: seq<Step>, id: nat)
    ensures |Run(steps).subs| == Subscriptions(steps)
    ensures id < |Run(steps).subs| ==> Reflects(Run(steps).subs[id], Registered(steps, id))
    ensures id >= |Run(steps).subs| ==> Registered(steps, id) == None
    decreases |steps|
  {
    if steps != [] {
      TableReflectsRegistrations(steps[..|steps| - 1], id);
    }
  }

  lemma {:induction false} NobodyYet(steps: seq<Step>, id: nat)
    requires id >= |Run(steps).subs|
    ensures Owed(steps, id) == [] && Kept(steps, id) == []
    decreases |steps|
  {
    if steps != [] {
      NobodyYet(steps[..|steps| - 1], id);
      TableReflectsRegistrations(steps[..|steps| - 1], id);
    }
  }

  /** What holds between a subscriber, what it was owed and what of that found room. */
  predicate InOrder(s: Sub, owed: seq<Event>, kept: seq<nat>) {
    && Increasing(kept, |owed|)
    && s.received + s.buffer == Pick(owed, kept)
    && |s.buffer| <= CAPACITY
    && (forall i :: 0 <= i < |owed| ==> s.filter.Matches(owed[i]))
  }

  /** Over every run: what a subscriber has received followed by what is buffered for it is an
      in-order, duplicate-free part of what it was owed, the buffer is bounded, and without
      drops nothing is missing. */
  lemma {:induction false} DeliveredInOrder(steps: seq<Step>, id: nat)
    requires id < |Run(steps).subs|
    ensures InOrder(Run(steps).subs[id], Owed(steps, id), Kept(steps, id))
    ensures |Kept(steps, id)| == |Owed(steps, id)| ==>
              Run(steps).subs[id].received + Run(steps).subs[id].buffer == Owed(steps, id)
    decreases |steps|
  {
    hide Run, Owed, Kept, Wants, Full, Offer, Filter.Matches, InOrder, Taken;
    SomethingHappened(steps, id);
    if id >= |Run(steps[..|steps| - 1]).subs| {
      JustArrived(steps, id);
    } else {
      var before, last := steps[..|steps| - 1], steps[|steps| - 1];
      DeliveredInOrder(before, id);
      LastStep(steps, id);
      var a := Run(before).subs[id];
      if last.Publish? {
        OfferKeepsOrder(a, last.ev, Owed(before, id), Kept(before, id));
      } else {
        TakeKeepsOrder(a, Run(steps).subs[id].live, Owed(before, id), Kept(before, id));
      }
    }
    NoDropsIsAll(Run(steps).subs[id], Owed(steps, id), Kept(steps, id));
  }

  lemma TakeKeepsOrder(s: Sub, live: bool, owed: seq<Event>, kept: seq<nat>)
    requires InOrder(s, owed, kept)
    ensures InOrder(s.(live := live), owed, kept)
    ensures s.buffer != [] ==> InOrder(Taken(s), owed, kept)
  {
    if s.buffer != [] {
      assert Taken(s).received + Taken(s).buffer == s.received + s.buffer;
    }
  }

  lemma NoDropsIsAll(s: Sub, owed: seq<Event>, kept: seq<nat>)
    requires InOrder(s, owed, kept)
    ensures |kept| == |owed| ==> s.received + s.buffer == owed
  {
    IncreasingFillsUp(kept, |owed|);
  }

  lemma SomethingHappened(steps: seq<Step>, id: nat)
    requires id < |Run(steps).subs|
    ensures steps != []
  {
  }

  lemma Arrivals(steps: seq<Step>)
    requires steps != []
    ensures var subs, last := Run(steps[..|steps| - 1]).subs, steps[|steps| - 1];
            && |Run(steps).subs| == |subs| + (if last.Subscribe? then 1 else 0)
            && (last.Subscribe? ==> Run(steps).subs == subs + [Sub(last.filter, true, [], [])])
            && (last.Subscribe? ==> Run(steps).dropCount == Run(steps[..|steps| - 1]).dropCount)
  {
    hide Run, Do;
    Unroll(steps);
    SubscribeAppends(Run(steps[..|steps| - 1]), steps[|steps| - 1]);
  }

  lemma SubscribeAppends(s: State, step: Step)
    ensures |Do(s, step).subs| == |s.subs| + (if step.Subscribe? then 1 else 0)
    ensures step.Subscribe? ==> Do(s, step) == s.(subs := s.subs + [Sub(step.filter, true, [], [])])
  {
  }

  lemma Unroll(steps: seq<Step>)
    requires steps != []
    ensures Run(steps) == Do(Run(steps[..|steps| - 1]), steps[|steps| - 1])
  {
    hide Do;
  }

  lemma JustArrived(steps: seq<Step>, id: nat)
    requires steps != [] && |Run(steps[..|steps| - 1]).subs| <= id < |Run(steps).subs|
    ensures InOrder(Run(steps).subs[id], Owed(steps, id), Kept(steps, id))
  {
    hide Run;
    Arrivals(steps);
    NobodyOwed(steps, id);
    hide Owed, Kept;
    assert Pick([], []) == [];
  }

  /** What the last step of a run means for one subscriber. */
  lemma LastStep(steps: seq<Step>, id: nat)
    requires steps != [] && id < |Run(steps[..|steps| - 1]).subs|
    ensures id < |Run(steps).subs|
    ensures var before, last := steps[..|steps| - 1], steps[|steps| - 1];
            var a, b := Run(before).subs[id], Run(steps).subs[id];
            var wanted := last.Publish? && Wants(a, last.ev);
            && Owed(steps, id) == (if wanted then Owed(before, id) + [last.ev] else Owed(before, id))
            && Kept(steps, id) == (if wanted && !Full(a) then Kept(before, id) + [|Owed(before, id)|]
                                   else Kept(before, id))
            && (last.Publish? ==> b == Offer(a, last.ev))
            && (last == Receive(id) && a.buffer != [] ==> b == Taken(a))
            && (!last.Publish? && (last != Receive(id) || a.buffer == []) ==> b == a.(live := b.live))
  {
    TableReflectsRegistrations(steps[..|steps| - 1], id);
  }

  lemma OfferKeepsOrder(s: Sub, ev: Event, owed: seq<Event>, kept: seq<nat>)
    requires InOrder(s, owed, kept)
    ensures Wants(s, ev) && !Full(s) ==> InOrder(Offer(s, ev), owed + [ev], kept + [|owed|])
    ensures Wants(s, ev) && Full(s) ==> InOrder(Offer(s, ev), owed + [ev], kept)
    ensures !Wants(s, ev) ==> InOrder(Offer(s, ev), owed, kept)
  {
    if !Full(s) {
      assert Pick(owed + [ev], kept + [|owed|]) == Pick(owed, kept) + [ev];
      assert s.received + (s.buffer + [ev]) == (s.received + s.buffer) + [ev];
    }
    assert Pick(owed + [ev], kept) == Pick(owed, kept);
  }

  /** A full set of increasing positions is all of them. */
  lemma {:induction false} IncreasingFillsUp(ps: seq<nat>, bound: nat)
    requires Increasing(ps, bound)
    ensures |ps| <= bound
    ensures |ps| == bound ==> forall i :: 0 <= i < |ps| ==> ps[i] == i
    decreases |ps|
  {
    if ps != [] {
      IncreasingFillsUp(ps[..|ps| - 1], ps[|ps| - 1]);
    }
  }

  /** No subscriber ever sees another tenant's events. */
  lemma OwnSchemaOnly(steps: seq<Step>, id: nat)
    requires id < |Run(steps).subs|
    ensures var sub := Run(steps).subs[id];
            forall i :: 0 <= i < |sub.received| ==> sub.received[i].schema == sub.filter.schema
  {
    DeliveredInOrder(steps, id);
    var sub := Run(steps).subs[id];
    forall i | 0 <= i < |sub.received| ensures sub.received[i].schema == sub.filter.schema {
      assert (sub.received + sub.buffer)[i] == sub.received[i];
    }
  }

  /** What a client asked for when it subscribed, in the event's own fields. */
  predicate Asked(filter: Filter, schema: string, table: string, userId: string) {
    && schema == filter.schema
    && (filter.table == "" || filter.table == table)
    && (filter.userId == "" || filter.userId == userId)
  }

  /** Over every run, whatever a subscriber has received or has waiting is in its schema, in its table
      if it named one, and its user's if it named one; and no more than 64 events wait. */
  lemma OnlyWhatWasAsked(steps: seq<Step>, id: nat)
    requires id < |Run(steps).subs|
    ensures var sub := Run(steps).subs[id];
            && |sub.buffer| <= 64
            && forall ev :: ev in sub.received + sub.buffer ==> Asked(sub.filter, ev.schema, ev.table, ev.userId)
  {
    DeliveredInOrder(steps, id);
    hide Run, Owed, Kept;
    var sub := Run(steps).subs[id];
    forall ev | ev in sub.received + sub.buffer ensures Asked(sub.filter, ev.schema, ev.table, ev.userId) {
      var i :| 0 <= i < |sub.received + sub.buffer| && (sub.received + sub.buffer)[i] == ev;
      assert ev == Owed(steps, id)[Kept(steps, id)[i]];
    }
  }

  /** And the converse: an event that a registered subscriber asked for is put at the end of what waits
      for it, or, if 64 events do, counted as dropped; any other event leaves it alone. */
  lemma PublishReaches(steps: seq<Step>, ev: Event, id: nat)
    requires id < |Run(steps).subs|
    ensures var filter := Registered(steps, id);
            var s, t := Run(steps), Run(steps + [Publish(ev)]);
            var asked := filter.Some? && Asked(filter.value, ev.schema, ev.table, ev.userId);
            && |t.subs| == |s.subs|
            && (asked && |s.subs[id].buffer| < 64 ==>
                  t.subs[id] == s.subs[id].(buffer := s.subs[id].buffer + [ev]))
            && (asked && |s.subs[id].buffer| >= 64 ==> t.subs[id] == s.subs[id] && t.dropCount > s.dropCount)
            && (!asked ==> t.subs[id] == s.subs[id])
  {
    var more := steps + [Publish(ev)];
    assert more[..|more| - 1] == steps;
    Unroll(more);
    TableReflectsRegistrations(steps, id);
    hide Run, Registered;
    if Wants(Run(steps).subs[id], ev) && Full(Run(steps).subs[id]) { MissedIsCounted(Run(steps).subs, ev, id); }
  }

  lemma {:induction false} MissedIsCounted(subs: seq<Sub>, ev: Event, id: nat)
    requires id < |subs| && Wants(subs[id], ev) && Full(subs[id])
    ensures Misses(subs, ev) > 0
    decreases |subs|
  {
    if id < |subs| - 1 { MissedIsCounted(subs[..|subs| - 1], ev, id); }
  }

  // --- Drops are accounted for ------------------------------------------------------------------

  function TotalOwed(steps: seq<Step>, n: nat): nat {
    if n == 0 then 0 else TotalOwed(steps, n - 1) + |Owed(steps, n - 1)|
  }

  function TotalKept(steps: seq<Step>, n: nat): nat {
    if n == 0 then 0 else TotalKept(steps, n - 1) + |Kept(steps, n - 1)|
  }

  /** Over every run, events enqueued plus the drop counter equal all matches. */
  lemma {:induction false} DropsAccountedFor(steps: seq<Step>)
    ensures TotalKept(steps, |Run(steps).subs|) + Run(steps).dropCount == TotalOwed(steps, |Run(steps).subs|)
    decreases |steps|
  {
    if steps == [] {
      assert Run(steps) == State([], 0);
      assert TotalKept(steps, 0) == TotalOwed(steps, 0) == 0;
    } else {
      hide Run, Owed, Kept, Misses, Do;
      Unroll(steps);
      DropCountAfter(Run(steps[..|steps| - 1]), steps[|steps| - 1]);
      var before, last := steps[..|steps| - 1], steps[|steps| - 1];
      DropsAccountedFor(before);
      var n := |Run(before).subs|;
      TotalsAfter(steps, n);
      Arrivals(steps);
      assert Run(before).subs[..n] == Run(before).subs;
      if last.Subscribe? {
        NobodyYet(before, n);
        NobodyOwed(steps, n);
      }
    }
  }

  lemma DropCountAfter(s: State, step: Step)
    ensures Do(s, step).dropCount == s.dropCount + if step.Publish? then Misses(s.subs, step.ev) else 0
  {
  }

  lemma NobodyOwed(steps: seq<Step>, n: nat)
    requires steps != [] && steps[|steps| - 1].Subscribe? && n == |Run(steps[..|steps| - 1]).subs|
    ensures Owed(steps, n) == [] && Kept(steps, n) == []
  {
    NobodyYet(steps[..|steps| - 1], n);
  }

  lemma {:induction false} TotalsAfter(steps: seq<Step>, n: nat)
    requires steps != [] && n <= |Run(steps[..|steps| - 1]).subs|
    ensures var before, last := steps[..|steps| - 1], steps[|steps| - 1];
            var missed := if last.Publish? then Misses(Run(before).subs[..n], last.ev) else 0;
            TotalOwed(steps, n) - TotalKept(steps, n) == TotalOwed(before, n) - TotalKept(before, n) + missed
    decreases n
  {
    hide Owed, Kept, Run, Wants, Full, Offer;
    if n > 0 {
      TotalsAfter(steps, n - 1);
      LastStep(steps, n - 1);
      var subs := Run(steps[..|steps| - 1]).subs;
      assert subs[..n][..n - 1] == subs[..n - 1];
    }
  }
}
