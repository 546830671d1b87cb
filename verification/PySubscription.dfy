/**
 The Python subscription's queue with its end marker (sdk/py/pwrap/subscribe.py:127-202).
 The background reader puts events, and one marker in its `finally`; `close` cancels that reader,
 waits for it and puts a marker of its own; a consumer that takes a marker puts it back.
 */
module PySubscription {
  type Event = int

  datatype Item = Event(ev: Event) | DONE

  /** The background reader: connected or retrying; cancelled but not yet unwound; over. */
  datatype Loop = Running | Cancelled | Over

  /** What one finished `__anext__` gave its caller. */
  datatype Outcome = Value(ev: Event) | Stop | ClosedByServer

  datatype State = State(queue: seq<Item>, loop: Loop, error: bool, out: seq<Outcome>)

  const INITIAL := State([], Running, false, [])

  datatype Step =
    | Receive(ev: Event)        // an event frame arrives
    | LoopEnds(rejected: bool)  // the server closes, cleanly or with 1008
    | Cancel                    // `close` cancels the reader
    | Unwind                    // the cancelled reader runs its `finally`
    | ClosePuts                 // `close` puts its own marker
    | Take                      // a waiting `__anext__` gets its item, if there is one

  function Do(s: State, step: Step): State {
    match step
    case Receive(ev) => if s.loop == Running then s.(queue := s.queue + [Event(ev)]) else s
    case LoopEnds(rejected) =>
      if s.loop == Running then s.(loop := Over, error := rejected, queue := s.queue + [DONE]) else s
    case Cancel => if s.loop == Running then s.(loop := Cancelled) else s
    case Unwind => if s.loop == Cancelled then s.(loop := Over, queue := s.queue + [DONE]) else s
    case ClosePuts => if s.loop != Running then s.(queue := s.queue + [DONE]) else s
    case Take => Taken(s)
  }

  function Taken(s: State): State {
    if s.queue == [] then s
    else if s.queue[0] == DONE then s.(queue := s.queue[1..] + [DONE], out := s.out + [End(s)])
    else s.(queue := s.queue[1..], out := s.out + [Value(s.queue[0].ev)])
  }

  function End(s: State): Outcome { if s.error then ClosedByServer else Stop }

  class Subscription {
    var queue: seq<Item>
    var loop: Loop
    var error: bool
    var out: seq<Outcome>

    ghost function Now(): State
      reads this
    {
      State(queue, loop, error, out)
    }

    constructor ()
      ensures Now() == INITIAL
    {
      queue, loop, error, out := [], Running, false, [];
    }

    /** Marks the subscription closed; may be called more than once. */
    method Close()
      modifies this
      ensures Now() == Run(old(Now()), [Cancel, Unwind, ClosePuts])
    {
      assert [Cancel, Unwind, ClosePuts][1..] == [Unwind, ClosePuts];
      assert [Unwind, ClosePuts][1..] == [ClosePuts];
      ghost var before := Now();
      if loop == Running { loop := Cancelled; }
      if loop == Cancelled {
        loop := Over;
        queue := queue + [DONE];
      }
      queue := queue + [DONE];
      assert Run(Do(Do(before, Cancel), Unwind), [ClosePuts]) == Now();
    }

    /** `None` where the call would have to wait. */
    method Next() returns (waits: bool, outcome: Outcome)
      modifies this
      ensures Now() == Do(old(Now()), Take)
      ensures waits == (old(queue) == [])
      ensures !waits ==> out == old(out) + [outcome]
    {
      if queue == [] { return true, Stop; }
      waits := false;
      var item := queue[0];
      queue := queue[1..];
      if item == DONE {
        queue := queue + [DONE];
        outcome := if error then ClosedByServer else Stop;
      } else {
        outcome := Value(item.ev);
      }
      out := out + [outcome];
    }
  }

  // --- Runs -------------------------------------------------------------------------------

  function Run(s: State, steps: seq<Step>): State
    decreases |steps|
  {
    if steps == [] then s else Run(Do(s, steps[0]), steps[1..])
  }

  /** The events that arrive while the reader runs, read off the steps alone. */
  function Arrived(steps: seq<Step>): seq<Event> {
    if steps == [] || steps[0].LoopEnds? || steps[0].Cancel? then []
    else (if steps[0].Receive? then [steps[0].ev] else []) + Arrived(steps[1..])
  }

  function Values(events: seq<Event>): seq<Outcome> {
    seq(|events|, i requires 0 <= i < |events| => Value(events[i]))
  }

  function Items(events: seq<Event>): seq<Item> {
    seq(|events|, i requires 0 <= i < |events| => Event(events[i]))
  }

  /** The state in terms of the events that came in: the first `taken` of them handed out in
      order and then `ends` times the same end; the rest queued, in order, before `marks` markers. */
  predicate Shape(s: State, events: seq<Event>, taken: nat, ends: nat, marks: nat) {
    && taken <= |events|
    && s.out == Values(events[..taken]) + seq(ends, _ => End(s))
    && s.queue == Items(events[taken..]) + seq(marks, _ => DONE)
    && (s.loop == Running ==> marks == 0)
    && (s.loop == Over ==> marks > 0)
    && (s.error ==> s.loop == Over)
    && (ends > 0 ==> taken == |events| && marks > 0)
  }

  ghost predicate Good(s: State, events: seq<Event>) {
    exists taken, ends, marks :: Shape(s, events, taken, ends, marks)
  }

  lemma Marked(s: State, step: Step, events: seq<Event>, taken: nat, ends: nat, marks: nat)
    requires Shape(s, events, taken, ends, marks) && !step.Take? && !step.Receive?
    ensures exists m: nat :: m >= marks && Shape(Do(s, step), events, taken, ends, m)
  {
    var t := Do(s, step);
    var marks' := marks + if t.queue != s.queue then 1 else 0;
    assert seq(marks + 1, _ => DONE) == seq(marks, _ => DONE) + [DONE];
    assert seq(ends, _ => End(t)) == seq(ends, _ => End(s));
    assert Shape(t, events, taken, ends, marks');
  }

  lemma Received(s: State, ev: Event, events: seq<Event>, taken: nat, ends: nat, marks: nat)
    requires Shape(s, events, taken, ends, marks) && s.loop == Running
    ensures Shape(Do(s, Receive(ev)), events + [ev], taken, ends, marks)
  {
    assert (events + [ev])[..taken] == events[..taken];
    assert Items((events + [ev])[taken..]) == Items(events[taken..]) + [Event(ev)];
  }

  lemma TakenFrom(s: State, events: seq<Event>, taken: nat, ends: nat, marks: nat)
    requires Shape(s, events, taken, ends, marks)
    ensures taken < |events| ==> Shape(Taken(s), events, taken + 1, ends, marks)
    ensures taken == |events| && marks > 0 ==> Shape(Taken(s), events, taken, ends + 1, marks)
    ensures taken == |events| && marks == 0 ==> s.queue == []
  {
    if taken < |events| {
      assert s.queue[0] == Event(events[taken]);
      assert Values(events[..taken + 1]) == Values(events[..taken]) + [Value(events[taken])];
      assert Items(events[taken..])[1..] == Items(events[taken + 1..]);
    } else {
      assert seq(ends + 1, _ => End(s)) == seq(ends, _ => End(s)) + [End(s)];
      if marks > 0 {
        assert s.queue[0] == DONE;
        assert s.queue[1..] + [DONE] == s.queue;
      }
    }
  }

  predicate Alive(s: State) { s.loop == Running }

  /** Over every run: events come out in the order they arrived, none is lost, every one of them
      before the first end, and all ends are alike (`Shape`). */
  lemma {:induction false} EveryRun(s: State, steps: seq<Step>, events: seq<Event>)
    requires Good(s, events)
    ensures Good(Run(s, steps), events + if Alive(s) then Arrived(steps) else [])
    decreases |steps|
  {
    hide Good, Do, Run, Arrived;
    if steps == [] {
      assert Run(s, steps) == s && Arrived(steps) == [] by { Unrolled(s); }
      assert events + [] == events;
    } else {
      OneStep(s, steps[0], events);
      Unroll(s, steps);
      EveryRun(Do(s, steps[0]), steps[1..], events + News(s, steps[0]));
      var rest := if Alive(Do(s, steps[0])) then Arrived(steps[1..]) else [];
      assert (events + News(s, steps[0])) + rest == events + (News(s, steps[0]) + rest);
    }
  }

  function News(s: State, step: Step): seq<Event> {
    if step.Receive? && Alive(s) then [step.ev] else []
  }

  lemma OneStep(s: State, step: Step, events: seq<Event>)
    requires Good(s, events)
    ensures Good(Do(s, step), events + News(s, step))
  {
    var taken, ends, marks :| Shape(s, events, taken, ends, marks);
    assert events + [] == events;
    if step.Take? {
      TakenFrom(s, events, taken, ends, marks);
    } else if step.Receive? {
      if Alive(s) { Received(s, step.ev, events, taken, ends, marks); }
    } else {
      Marked(s, step, events, taken, ends, marks);
    }
  }

  lemma Unrolled(s: State)
    ensures Run(s, []) == s && Arrived([]) == []
  {
  }

  lemma Unroll(s: State, steps: seq<Step>)
    requires steps != []
    ensures Run(s, steps) == Run(Do(s, steps[0]), steps[1..])
    ensures (if Alive(s) then Arrived(steps) else []) ==
            News(s, steps[0]) + if Alive(Do(s, steps[0])) then Arrived(steps[1..]) else []
  {
  }

  lemma FromTheStart(steps: seq<Step>)
    ensures Good(Run(INITIAL, steps), Arrived(steps))
  {
    assert Shape(INITIAL, [], 0, 0, 0);
    EveryRun(INITIAL, steps, []);
    hide Good;
    assert [] + Arrived(steps) == Arrived(steps);
  }

  /** Only markers are left, and nothing else can be put. */
  predicate Drained(s: State) {
    s.queue != [] && !Alive(s) && forall i :: 0 <= i < |s.queue| ==> s.queue[i] == DONE
  }

  lemma {:induction false} StaysDrained(s: State, steps: seq<Step>)
    requires Drained(s)
    ensures Drained(Run(s, steps)) && End(Run(s, steps)) == End(s)
    decreases |steps|
  {
    if steps != [] { StaysDrained(Do(s, steps[0]), steps[1..]); }
  }

  /** Once iteration has ended, every later call ends too, at once and in the same way. */
  lemma EndedForGood(before: seq<Step>, after: seq<Step>)
    requires var out := Run(INITIAL, before).out; out != [] && !out[|out| - 1].Value?
    ensures var t, out := Run(Run(INITIAL, before), after), Run(INITIAL, before).out;
            t.queue != [] && Taken(t).out == t.out + [out[|out| - 1]]
  {
    var s := Run(INITIAL, before);
    FromTheStart(before);
    var taken, ends, marks :| Shape(s, Arrived(before), taken, ends, marks);
    assert Drained(s) && s.out[|s.out| - 1] == End(s);
    StaysDrained(s, after);
  }

  function Takes(k: nat): (steps: seq<Step>)
    ensures |steps| == k
  {
    seq(k, _ => Take)
  }

  lemma {:induction false} TakeMany(s: State, events: seq<Event>, taken: nat, ends: nat, marks: nat, k: nat)
    requires Shape(s, events, taken, ends, marks) && marks > 0
    ensures var t := Run(s, Takes(k));
            if taken + k <= |events| then Shape(t, events, taken + k, ends, marks)
            else Shape(t, events, |events|, ends + (taken + k - |events|), marks)
    decreases k
  {
    assert taken <= |events|;
    hide Shape, Run, Takes;
    TakesUnroll(s, k);
    if k > 0 {
      TakenFrom(s, events, taken, ends, marks);
      if taken < |events| {
        TakeMany(Taken(s), events, taken + 1, ends, marks, k - 1);
      } else {
        TakeMany(Taken(s), events, taken, ends + 1, marks, k - 1);
      }
    }
  }

  lemma TakesUnroll(s: State, k: nat)
    ensures Run(s, Takes(k)) == if k == 0 then s else Run(Taken(s), Takes(k - 1))
  {
    if k > 0 {
      assert Takes(k)[0] == Take && Takes(k)[1..] == Takes(k - 1);
      assert Do(s, Take) == Taken(s);
    }
  }

  /** After `close`, or once the reader is over, a consumer that keeps calling gets every event
      that arrived, in order, and then the end: after as many calls as there are queued items
      it has them all and has been told so. */
  lemma OverDeliversAll(steps: seq<Step>, k: nat)
    requires Run(INITIAL, steps).loop == Over && k >= |Run(INITIAL, steps).queue|
    ensures var out, all := Run(Run(INITIAL, steps), Takes(k)).out, Values(Arrived(steps));
            |all| < |out| && out[..|all|] == all && !out[|all|].Value?
  {
    var s, events := Run(INITIAL, steps), Arrived(steps);
    FromTheStart(steps);
    var taken, ends, marks :| Shape(s, events, taken, ends, marks);
    TakeMany(s, events, taken, ends, marks, k);
    assert events[..|events|] == events;
  }

  // --- Which end ------------------------------------------------------------------------------------

  /** The server turned the subscription away before anybody closed it, read off the steps. */
  predicate TurnedAway(steps: seq<Step>) {
    steps != [] &&
    match steps[0]
    case LoopEnds(rejected) => rejected
    case Cancel => false
    case _ => TurnedAway(steps[1..])
  }

  lemma {:induction false} ErrorIsRejection(s: State, steps: seq<Step>)
    requires Alive(s) ==> !s.error
    ensures Run(s, steps).error == if Alive(s) then TurnedAway(steps) else s.error
    decreases |steps|
  {
    if steps != [] { ErrorIsRejection(Do(s, steps[0]), steps[1..]); }
  }

  /** Iteration ends with SubscriptionClosed exactly if the server turned the subscription away (1008)
      before it was closed, and with StopAsyncIteration otherwise. */
  lemma EndsAsClosed(steps: seq<Step>, i: nat)
    requires i < |Run(INITIAL, steps).out| && !Run(INITIAL, steps).out[i].Value?
    ensures Run(INITIAL, steps).out[i] == if TurnedAway(steps) then ClosedByServer else Stop
  {
    var s := Run(INITIAL, steps);
    FromTheStart(steps);
    var taken, ends, marks :| Shape(s, Arrived(steps), taken, ends, marks);
    ErrorIsRejection(INITIAL, steps);
  }
}
