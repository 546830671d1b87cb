/**
 The TypeScript subscription's hand-over of events to `next()` calls
 (sdk/ts/src/subscribe.ts:89-128).  A promise is a number; `answers` records what each was
 resolved with.
 */
module TsSubscription {
  type Event = int

  datatype Answer = Pending | Value(ev: Event) | Done

  datatype State = State(queue: seq<Event>, waiters: seq<nat>, closed: bool, answers: seq<Answer>)

  datatype Step = Deliver(ev: Event) | Next | Close

  const INITIAL := State([], [], false, [])

  // --- The steps --------------------------------------------------------------------------

  function Settle(answers: seq<Answer>, waiters: seq<nat>, answer: Answer): (r: seq<Answer>)
    ensures |r| == |answers|
  {
    seq(|answers|, i requires 0 <= i < |answers| => if i in waiters then answer else answers[i])
  }

  function Do(s: State, step: Step): State {
    match step
    case Deliver(ev) =>
      if s.waiters != [] then
        s.(waiters := s.waiters[1..], answers := Settle(s.answers, s.waiters[..1], Value(ev)))
      else s.(queue := s.queue + [ev])
    case Next =>
      if s.queue != [] then s.(queue := s.queue[1..], answers := s.answers + [Value(s.queue[0])])
      else if s.closed then s.(answers := s.answers + [Done])
      else s.(waiters := s.waiters + [|s.answers|], answers := s.answers + [Pending])
    case Close =>
      if s.closed then s
      else s.(closed := true, waiters := [], answers := Settle(s.answers, s.waiters, Done))
  }

  class Subscription {
    var queue: seq<Event>
    var waiters: seq<nat>
    var closed: bool
    var answers: seq<Answer>

    ghost function Now(): State
      reads this
    {
      State(queue, waiters, closed, answers)
    }

    constructor ()
      ensures Now() == INITIAL
    {
      queue, waiters, closed, answers := [], [], false, [];
    }

    method Deliver(ev: Event)
      requires Good(Now())
      modifies this
      ensures Now() == Do(old(Now()), Step.Deliver(ev))
    {
      if |waiters| > 0 {
        var w := waiters[0];
        waiters := waiters[1..];
        answers := answers[w := Value(ev)];
        return;
      }
      queue := queue + [ev];
    }

    method Next() returns (promise: nat)
      modifies this
      ensures Now() == Do(old(Now()), Step.Next)
      ensures promise == |old(answers)|
    {
      promise := |answers|;
      if |queue| > 0 {
        answers := answers + [Value(queue[0])];
        queue := queue[1..];
      } else if closed {
        answers := answers + [Done];
      } else {
        answers := answers + [Pending];
        waiters := waiters + [promise];
      }
    }

    method Close()
      requires Good(Now())
      modifies this
      ensures Now() == Do(old(Now()), Step.Close)
    {
      if closed { return; }
      closed := true;
      ghost var before := old(Now());
      ghost var served: nat := 0;
      while |waiters| > 0
        invariant served <= |before.waiters| && waiters == before.waiters[served..]
        invariant answers == Settle(before.answers, before.waiters[..served], Done)
        invariant queue == before.queue && closed
      {
        var w := waiters[0];
        waiters := waiters[1..];
        assert before.waiters[..served + 1] == before.waiters[..served] + [w];
        served := served + 1;
        answers := answers[w := Done];
      }
      assert before.waiters[..served] == before.waiters;
    }
  }

  // --- What every step keeps --------------------------------------------------------------

  /** The waiters are the latest promises, oldest first, and exactly the pending ones; they
      exclude queued events and a closed subscription. */
  predicate Good(s: State) {
    && (s.queue == [] || s.waiters == [])
    && (s.closed ==> s.waiters == [])
    && |s.waiters| <= |s.answers|
    && (forall k :: 0 <= k < |s.waiters| ==> s.waiters[k] == |s.answers| - |s.waiters| + k)
    && (forall i :: 0 <= i < |s.answers| ==> (s.answers[i] == Pending <==> i >= |s.answers| - |s.waiters|))
  }

  lemma Waiting(s: State)
    requires Good(s)
    ensures forall i: nat :: i in s.waiters <==> |s.answers| - |s.waiters| <= i < |s.answers|
    ensures s.waiters != [] ==> s.waiters[..1] == [|s.answers| - |s.waiters|]
  {
    var n := |s.answers| - |s.waiters|;
    forall i: nat | n <= i < |s.answers| ensures i in s.waiters {
      assert s.waiters[i - n] == i;
    }
  }

  lemma StepKeepsGood(s: State, step: Step)
    requires Good(s)
    ensures Good(Do(s, step))
  {
    Waiting(s);
  }

  /** A promise, once resolved, keeps its answer whatever happens later. */
  lemma ResolvedOnce(s: State, step: Step)
    requires Good(s)
    ensures |Do(s, step).answers| == |s.answers| + if step.Next? then 1 else 0
    ensures forall i :: 0 <= i < |s.answers| && s.answers[i] != Pending ==> Do(s, step).answers[i] == s.answers[i]
  {
    Waiting(s);
  }

  // --- Runs -------------------------------------------------------------------------------

  function Run(s: State, steps: seq<Step>): State
    decreases |steps|
  {
    if steps == [] then s else Run(Do(s, steps[0]), steps[1..])
  }

  function Delivered(steps: seq<Step>): seq<Event> {
    if steps == [] then []
    else (if steps[0].Deliver? then [steps[0].ev] else []) + Delivered(steps[1..])
  }

  /** The events among the answers, in the order of the calls. */
  function Values(answers: seq<Answer>): seq<Event> {
    if answers == [] then []
    else (if answers[0].Value? then [answers[0].ev] else []) + Values(answers[1..])
  }

  lemma {:induction false} ValuesAppend(a: seq<Answer>, b: seq<Answer>)
    ensures Values(a + b) == Values(a) + Values(b)
  {
    hide Values;
    if a == [] {
      LastValue(Done);
      assert a + b == b;
    } else {
      ValuesAppend(a[1..], b);
      ValuesHead(a[0], a[1..]);
      ValuesHead(a[0], a[1..] + b);
      assert a == [a[0]] + a[1..] && a + b == [a[0]] + (a[1..] + b);
    }
  }

  lemma ValuesHead(answer: Answer, rest: seq<Answer>)
    ensures Values([answer] + rest) == (if answer.Value? then [answer.ev] else []) + Values(rest)
  {
    assert ([answer] + rest)[1..] == rest;
  }

  lemma {:induction false} NoValues(answers: seq<Answer>)
    requires Valueless(answers)
    ensures Values(answers) == []
  {
    if answers != [] { NoValues(answers[1..]); }
  }

  /** One step moves events along without losing, doubling or reordering any. */
  lemma StepConserves(s: State, step: Step)
    requires Good(s)
    ensures Values(Do(s, step).answers) + Do(s, step).queue == Values(s.answers) + s.queue + Delivered([step])
  {
    OneDelivered(step);
    match step
    case Next => NextConserves(s);
    case Deliver(ev) => DeliverConserves(s, ev);
    case Close => CloseConserves(s);
  }

  lemma NextConserves(s: State)
    ensures Values(Do(s, Next).answers) + Do(s, Next).queue == Values(s.answers) + s.queue
  {
    hide Values;
    var answer := Do(s, Next).answers[|s.answers|];
    ValuesAppend(s.answers, [answer]);
    LastValue(answer);
  }

  lemma DeliverConserves(s: State, ev: Event)
    requires Good(s)
    ensures Values(Do(s, Deliver(ev)).answers) + Do(s, Deliver(ev)).queue == Values(s.answers) + s.queue + [ev]
  {
    assert s.queue == [] || s.waiters == [];
    hide Values, Settle, Good;
    if s.waiters != [] {
      SettleFirst(s, Value(ev), 1);
      assert seq(1, _ => Value(ev)) == [Value(ev)];
      LastValue(Value(ev));
    }
  }

  lemma CloseConserves(s: State)
    requires Good(s)
    ensures Values(Do(s, Close).answers) == Values(s.answers) && Do(s, Close).queue == s.queue
  {
    hide Values, Settle, Good;
    if !s.closed {
      assert s.waiters[..|s.waiters|] == s.waiters;
      SettleFirst(s, Done, |s.waiters|);
      NoValues(seq(|s.waiters|, _ => Done));
    }
  }

  /** Settling the first `k` waiters hands out just what they are given. */
  lemma SettleFirst(s: State, answer: Answer, k: nat)
    requires Good(s) && k <= |s.waiters|
    ensures Values(Settle(s.answers, s.waiters[..k], answer)) == Values(s.answers) + Values(seq(k, _ => answer))
  {
    hide Values;
    var n := |s.answers| - |s.waiters|;
    var a, b := s.answers, Settle(s.answers, s.waiters[..k], answer);
    forall i: nat | i < |a| ensures b[i] == if n <= i < n + k then answer else a[i] {
      assert n <= i < n + k ==> s.waiters[..k][i - n] == i;
    }
    assert a == a[..n] + a[n..];
    assert b == a[..n] + seq(k, _ => answer) + a[n + k..];
    SettleTail(a[..n], a[n..], seq(k, _ => answer), a[n + k..]);
  }

  lemma OneDelivered(step: Step)
    ensures Delivered([step]) == if step.Deliver? then [step.ev] else []
  {
  }

  lemma LastValue(answer: Answer)
    ensures Values([answer]) == if answer.Value? then [answer.ev] else []
    ensures Values([]) == []
  {
  }

  predicate Valueless(answers: seq<Answer>) {
    forall i :: 0 <= i < |answers| ==> !answers[i].Value?
  }

  /** Writing `mid` at the start of a pending tail adds just the events of `mid`. */
  lemma SettleTail(head: seq<Answer>, tail: seq<Answer>, mid: seq<Answer>, rest: seq<Answer>)
    requires Valueless(tail) && Valueless(rest)
    ensures Values(head + mid + rest) == Values(head + tail) + Values(mid)
  {
    ValuesAppend(head, tail);
    NoValues(tail);
    ValuesAppend(head + mid, rest);
    ValuesAppend(head, mid);
    NoValues(rest);
    hide Values;
    assert Values(head) + [] == Values(head);
  }

  /** Over every run of deliveries, `next` calls and closes, from any good state: the state stays
      good, answers given are final, and the events handed out in call order followed by the
      queue are exactly what was delivered. */
  lemma {:induction false} EveryRun(s: State, steps: seq<Step>)
    requires Good(s)
    ensures var t := Run(s, steps);
            && Good(t)
            && |s.answers| <= |t.answers|
            && (forall i :: 0 <= i < |s.answers| && s.answers[i] != Pending ==> t.answers[i] == s.answers[i])
            && Values(t.answers) + t.queue == Values(s.answers) + s.queue + Delivered(steps)
            && (s.closed ==> t.closed)
    decreases |steps|
  {
    if steps == [] {
      assert Run(s, steps) == s && Delivered(steps) == [];
    } else {
      hide Good, Do, Run, Values, Delivered;
      var m := Do(s, steps[0]);
      StepKeepsGood(s, steps[0]);
      StepConserves(s, steps[0]);
      ResolvedOnce(s, steps[0]);
      StaysClosed(s, steps[0]);
      EveryRun(m, steps[1..]);
      OneMore(s, steps);
    }
  }

  lemma OneMore(s: State, steps: seq<Step>)
    requires steps != []
    ensures Run(s, steps) == Run(Do(s, steps[0]), steps[1..])
    ensures Delivered(steps) == Delivered([steps[0]]) + Delivered(steps[1..])
    ensures Calls(steps) == Calls([steps[0]]) + Calls(steps[1..])
    ensures Calls([steps[0]]) == if steps[0].Next? then 1 else 0
  {
  }

  lemma StaysClosed(s: State, step: Step)
    ensures s.closed || step.Close? ==> Do(s, step).closed
  {
  }

  // --- The answers, named outright ----------------------------------------------------------

  function Calls(steps: seq<Step>): nat {
    if steps == [] then 0 else (if steps[0].Next? then 1 else 0) + Calls(steps[1..])
  }

  /** While open, the k-th call gets the k-th event, however calls and deliveries interleave. */
  predicate Paired(s: State, events: seq<Event>) {
    && (forall i :: 0 <= i < |s.answers| ==>
          s.answers[i] == if i < |events| then Value(events[i]) else if s.closed then Done else Pending)
    && (if |s.answers| <= |events| then s.queue == events[|s.answers|..] && s.waiters == [] else s.queue == [])
  }

  lemma {:induction false} OpenRunPairs(s: State, events: seq<Event>, steps: seq<Step>)
    requires Good(s) && !s.closed && Paired(s, events)
    requires forall i :: 0 <= i < |steps| ==> !steps[i].Close?
    ensures var t := Run(s, steps);
            Good(t) && !t.closed && Paired(t, events + Delivered(steps)) && |t.answers| == |s.answers| + Calls(steps)
    decreases |steps|
  {
    if steps == [] {
      assert Delivered(steps) == [] && Calls(steps) == 0;
      assert events + [] == events;
    } else {
      OneMore(s, steps);
      var m := Do(s, steps[0]);
      StepKeepsGood(s, steps[0]);
      OpenStepPairs(s, events, steps[0]);
      hide Good, Do, Paired, Run, Delivered, Calls;
      OpenRunPairs(m, events + Delivered([steps[0]]), steps[1..]);
      assert events + Delivered(steps) == (events + Delivered([steps[0]])) + Delivered(steps[1..]);
    }
  }

  lemma OpenStepPairs(s: State, events: seq<Event>, step: Step)
    requires Good(s) && !s.closed && Paired(s, events) && !step.Close?
    ensures var t := Do(s, step);
            !t.closed && Paired(t, events + Delivered([step])) && |t.answers| == |s.answers| + Calls([step])
  {
    assert Delivered([step]) == if step.Deliver? then [step.ev] else [];
    assert Calls([step]) == if step.Next? then 1 else 0;
    PendingMeansMore(s, events);
    Waiting(s);
  }

  lemma PendingMeansMore(s: State, events: seq<Event>)
    requires Good(s) && !s.closed && Paired(s, events)
    ensures s.waiters != [] ==> |s.answers| - |s.waiters| == |events|
    ensures s.waiters == [] ==> |s.answers| <= |events|
  {
    var n := |s.answers| - |s.waiters|;
    if s.waiters != [] {
      assert s.answers[n] == Pending;
    }
    if |events| < |s.answers| {
      assert s.answers[|events|] == Pending;
    }
  }

  lemma CloseKeepsPairing(s: State, events: seq<Event>)
    requires Good(s) && !s.closed && Paired(s, events)
    ensures Paired(Do(s, Close), events) && Do(s, Close).closed && Good(Do(s, Close))
    ensures |Do(s, Close).answers| == |s.answers|
  {
    StepKeepsGood(s, Close);
    PendingMeansMore(s, events);
    Waiting(s);
  }

  lemma {:induction false} ClosedCallsDrain(s: State, events: seq<Event>, steps: seq<Step>)
    requires Good(s) && s.closed && Paired(s, events)
    requires forall i :: 0 <= i < |steps| ==> !steps[i].Deliver?
    ensures var t := Run(s, steps);
            Good(t) && t.closed && Paired(t, events) && |t.answers| == |s.answers| + Calls(steps)
    decreases |steps|
  {
    if steps != [] {
      StepKeepsGood(s, steps[0]);
      ClosedStepPairs(s, events, steps[0]);
      hide Good, Do, Paired, Run, Delivered, Calls;
      OneMore(s, steps);
      ClosedCallsDrain(Do(s, steps[0]), events, steps[1..]);
    }
  }

  lemma ClosedStepPairs(s: State, events: seq<Event>, step: Step)
    requires Good(s) && s.closed && Paired(s, events) && !step.Deliver?
    ensures var t := Do(s, step);
            t.closed && Paired(t, events) && |t.answers| == |s.answers| + if step.Next? then 1 else 0
  {
  }

  /** The whole life of a subscription that gets no event after it is closed: the k-th call of
      `next`, made before or after the close, gets the k-th event delivered, and a call for
      which there is no event gets "done"; nothing is lost and nothing stays pending. */
  lemma WholeLife(open: seq<Step>, after: seq<Step>)
    requires forall i :: 0 <= i < |open| ==> !open[i].Close?
    requires forall i :: 0 <= i < |after| ==> !after[i].Deliver?
    ensures var t := Run(Do(Run(INITIAL, open), Close), after);
            && |t.answers| == Calls(open) + Calls(after)
            && (forall i :: 0 <= i < |t.answers| ==>
                  t.answers[i] == if i < |Delivered(open)| then Value(Delivered(open)[i]) else Done)
  {
    OpenRunPairs(INITIAL, [], open);
    assert [] + Delivered(open) == Delivered(open);
    CloseKeepsPairing(Run(INITIAL, open), Delivered(open));
    ClosedCallsDrain(Do(Run(INITIAL, open), Close), Delivered(open), after);
  }

  // --- When "done" is final -----------------------------------------------------------------

  /** A call comes after a late event. */
  predicate LateCall(steps: seq<Step>) {
    exists i, j :: 0 <= i < j < |steps| && steps[i].Deliver? && steps[j].Next?
  }

  lemma LateCallFirst(steps: seq<Step>)
    requires steps != []
    ensures LateCall(steps) <==> LateCall(steps[1..]) || (steps[0].Deliver? && Next in steps[1..])
  {
    if i, j :| 0 <= i < j < |steps| && steps[i].Deliver? && steps[j].Next? {
      assert steps[1..][j - 1] == Next;
      assert i > 0 ==> steps[1..][i - 1] == steps[i];
    }
    if i, j :| 0 <= i < j < |steps[1..]| && steps[1..][i].Deliver? && steps[1..][j].Next? {
      assert steps[i + 1].Deliver? && steps[j + 1].Next?;
    }
    if steps[0].Deliver? && Next in steps[1..] {
      var j :| 0 <= j < |steps[1..]| && steps[1..][j] == Next;
      assert steps[j + 1].Next?;
    }
  }

  predicate AllDone(answers: seq<Answer>, from: nat) {
    forall i :: from <= i < |answers| ==> answers[i] == Done
  }

  lemma {:induction false} AllDoneIff(s: State, steps: seq<Step>)
    requires Good(s) && s.closed
    ensures AllDone(Run(s, steps).answers, |s.answers|) <==> !LateCall(steps) && (s.queue != [] ==> Next !in steps)
    decreases |steps|
  {
    if steps == [] {
      assert Run(s, steps) == s;
    } else {
      var step, m, rest := steps[0], Do(s, steps[0]), steps[1..];
      assert steps == [step] + rest;
      StepKeepsGood(s, step);
      LateCallFirst(steps);
      OneMore(s, steps);
      EveryRun(m, rest);
      AllDoneIff(m, rest);
      hide Run, LateCall;
      if step.Next? {
        var first := m.answers[|s.answers|];
        assert Run(m, rest).answers[|s.answers|] == first;
        assert first == Done <==> s.queue == [];
      }
    }
  }

  /** From a closed and drained subscription every further call is answered "done" if and only if
      no call comes after an event that still arrived. */
  lemma DoneIsFinalIff(s: State, steps: seq<Step>)
    requires Good(s) && s.closed && s.queue == []
    ensures (forall i :: |s.answers| <= i < |Run(s, steps).answers| ==> Run(s, steps).answers[i] == Done)
            <==> !(exists i, j :: 0 <= i < j < |steps| && steps[i].Deliver? && steps[j].Next?)
  {
    AllDoneIff(s, steps);
  }

  /** The shortest run in which it is not: a frame that arrives after the close is queued, and
      the next call returns it. */
  lemma DoneIsNotAlwaysLast(ev: Event)
    ensures Run(INITIAL, [Close, Next, Deliver(ev), Next]).answers == [Done, Value(ev)]
  {
    var last := [Next];
    var late := [Deliver(ev)] + last;
    var calls := [Next] + late;
    var all := [Close] + calls;
    assert all == [Close, Next, Deliver(ev), Next];
    assert all[1..] == calls && calls[1..] == late && late[1..] == last && last[1..] == [];
    var a := Do(INITIAL, Close);
    var b := Do(a, Next);
    var c := Do(b, Deliver(ev));
    assert Run(c, last) == Do(c, Next);
    assert Run(b, late) == Run(c, last);
    assert Run(a, calls) == Run(b, late);
    assert Run(INITIAL, all) == Run(a, calls);
  }
}
