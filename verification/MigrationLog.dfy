/**
 The migration log: Apply with its pending row and its statements, crashes, the sweep of stale
 rows, and the two readers of the result (internal/controlplane/migrations/runner.go:52-220,
 internal/controlplane/migrations/sweep.go:11-31, internal/controlplane/projects/service.go:266-279).
 A row's id is its position; `started_at` grows with it.
 */
module MigrationLog {
  import opened Wrappers

  type ProjectId = int
  type Version = v: string | v != "" witness "0001_init"

  datatype Migration = Migration(project: ProjectId, version: Version, checksum: int)

  datatype Outcome = Pending | Applied | Failed

  datatype Row = Row(migration: Migration, state: Outcome, started: int)

  // --- The statements of one apply -----------------------------------------------------------

  /** What a statement of an apply leaves behind once it has run. */
  datatype Effect =
    | Vector | PgGraphql | Postgis                   // CREATE EXTENSION IF NOT EXISTS
    | GraphqlUsage | GraphqlExecute                  // GRANT ... ON SCHEMA graphql TO PUBLIC
    | Baseline(migration: Migration)                 // in the project's schema
    | River(project: ProjectId)

  const STATEMENTS: nat := 7

  /** The order of applyAll. */
  function Program(m: Migration): (p: seq<Effect>)
    ensures |p| == STATEMENTS
  {
    [Vector, PgGraphql, Postgis, GraphqlUsage, GraphqlExecute, Baseline(m), River(m.project)]
  }

  /** What has to be there already: the graphql schema for the grants on it, the extensions'
      types for the baseline. */
  function Needs(e: Effect): set<Effect> {
    match e
    case GraphqlUsage => {PgGraphql}
    case GraphqlExecute => {PgGraphql}
    case Baseline(_) => {Vector, PgGraphql, Postgis}
    case _ => {}
  }

  function Send(ran: set<Effect>, e: Effect, fault: Fault): (set<Effect>, bool) {
    if fault == Lost || !(Needs(e) <= ran) then (ran, false) else (ran + {e}, fault == Delivered)
  }

  /** The first n statements of the apply have run. */
  predicate Ran(ran: set<Effect>, m: Migration, n: nat)
    requires n <= STATEMENTS
  {
    forall i :: 0 <= i < n ==> Program(m)[i] in ran
  }

  /** Each statement finds what it needs because of the ones before it. */
  lemma OrderSuffices(ran: set<Effect>, m: Migration, n: nat)
    requires n < STATEMENTS && Ran(ran, m, n)
    ensures Needs(Program(m)[n]) <= ran
  {
    assert n > 0 ==> Program(m)[0] in ran;
    assert n > 1 ==> Program(m)[1] in ran;
    assert n > 2 ==> Program(m)[2] in ran;
  }

  // --- The log and the applies under way ---------------------------------------------------------

  /** An apply under way: about to send its n-th statement, or through with them. */
  datatype Job = Working(next: nat) | Ended(ok: bool)

  /** `ran` is what statements have left in the database; `jobs` are the applies under way, by row. */
  datatype State = State(log: seq<Row>, ran: set<Effect>, jobs: map<nat, Job>)

  const INITIAL := State([], {}, map[])
  const STALE := 300

  datatype Step =
    | Begin(migration: Migration, readable: bool, now: int)  // look, then insert a pending row
    | Execute(row: nat, fault: Fault)                        // the next statement
    | Finish(row: nat)                                       // record the result
    | Crash(survivors: set<nat>)                             // a process dies with its applies
    | Sweep(now: int)

  /** The check for an applied row; an error while reading counts as "not applied". */
  predicate Found(log: seq<Row>, m: Migration, readable: bool) {
    readable && exists i :: 0 <= i < |log| && log[i].migration == m && log[i].state == Applied
  }

  predicate Stale(row: Row, now: int) { row.state == Pending && row.started < now - STALE }

  function SweepRow(row: Row, now: int): Row {
    if Stale(row, now) then row.(state := Failed) else row
  }

  function SweepLog(log: seq<Row>, now: int): (r: seq<Row>)
    ensures |r| == |log|
  {
    seq(|log|, i requires 0 <= i < |log| => SweepRow(log[i], now))
  }

  /** The first error ends an apply. */
  function After(n: nat, ok: bool): Job {
    if !ok then Ended(false) else if n + 1 == STATEMENTS then Ended(true) else Working(n + 1)
  }

  function Do(s: State, step: Step): State {
    match step
    case Begin(m, readable, now) =>
      if Found(s.log, m, readable) then s
      else s.(log := s.log + [Row(m, Pending, now)], jobs := s.jobs[|s.log| := Working(0)])
    case Execute(row, fault) =>
      if row in s.jobs && s.jobs[row].Working? && s.jobs[row].next < STATEMENTS && row < |s.log| then
        var n := s.jobs[row].next;
        var (ran, ok) := Send(s.ran, Program(s.log[row].migration)[n], fault);
        s.(ran := ran, jobs := s.jobs[row := After(n, ok)])
      else s
    case Finish(row) =>
      if row in s.jobs && s.jobs[row].Ended? && row < |s.log| then
        s.(log := s.log[row := s.log[row].(state := if s.jobs[row].ok then Applied else Failed)],
           jobs := s.jobs - {row})
      else s
    case Crash(survivors) => s.(jobs := (map r | r in s.jobs && r in survivors :: s.jobs[r]))
    case Sweep(now) => s.(log := SweepLog(s.log, now))
  }

  predicate Ordered(log: seq<Row>) { forall i, j :: 0 <= i < j < |log| ==> log[i].started < log[j].started }

  /** How many statements a job vouches for. */
  function Vouched(job: Job): nat {
    match job
    case Working(n) => if n < STATEMENTS then n else 0
    case Ended(ok) => if ok then STATEMENTS else 0
  }

  /** An applied row stands for all the statements of its apply, a job for those before its next. */
  predicate Good(s: State) {
    && Ordered(s.log)
    && (forall i :: 0 <= i < |s.log| && s.log[i].state == Applied ==> Ran(s.ran, s.log[i].migration, STATEMENTS))
    && (forall r :: r in s.jobs ==>
          && r < |s.log| && s.log[r].state != Applied
          && (s.jobs[r].Working? ==> s.jobs[r].next < STATEMENTS)
          && Ran(s.ran, s.log[r].migration, Vouched(s.jobs[r])))
  }

  /** The clock moves on between inserts. */
  predicate InTime(s: State, step: Step) {
    step.Begin? && s.log != [] ==> s.log[|s.log| - 1].started < step.now
  }

  /** What later steps never take back: rows stay, and an applied row stays applied. */
  predicate Extends(s: State, t: State) {
    && |s.log| <= |t.log|
    && s.ran <= t.ran
    && forall i :: 0 <= i < |s.log| ==>
         t.log[i].migration == s.log[i].migration && t.log[i].started == s.log[i].started &&
         (s.log[i].state == Applied ==> t.log[i].state == Applied)
  }

  lemma StepKeepsGood(s: State, step: Step)
    requires Good(s) && InTime(s, step)
    ensures Good(Do(s, step)) && Extends(s, Do(s, step))
  {
    match step
    case Begin(_, _, _) => BeginKeepsGood(s, step);
    case Execute(_, _) => ExecuteKeepsGood(s, step);
    case Finish(_) => FinishKeepsGood(s, step);
    case Crash(_) =>
    case Sweep(now) => SweepKeepsGood(s, now);
  }

  lemma BeginKeepsGood(s: State, step: Step)
    requires Good(s) && InTime(s, step) && step.Begin?
    ensures Good(Do(s, step)) && Extends(s, Do(s, step))
  {
    hide Found;
  }

  lemma ExecuteKeepsGood(s: State, step: Step)
    requires Good(s) && step.Execute?
    ensures Good(Do(s, step)) && Extends(s, Do(s, step))
  {
    var t, row := Do(s, step), step.row;
    assert s.ran <= t.ran;
    forall i | 0 <= i < |s.log| && s.log[i].state == Applied ensures Ran(t.ran, s.log[i].migration, STATEMENTS) {
      RanStays(s.ran, t.ran, s.log[i].migration, STATEMENTS);
    }
    forall r | r in t.jobs ensures Ran(t.ran, s.log[r].migration, Vouched(t.jobs[r])) {
      RanStays(s.ran, t.ran, s.log[r].migration, Vouched(s.jobs[r]));
      if r == row && t.jobs[r] != s.jobs[r] {
        RanMore(s.ran, t.ran, s.log[r].migration, s.jobs[r].next, step.fault);
      }
    }
    hide Ran, Send, Vouched;
  }

  lemma RanStays(a: set<Effect>, b: set<Effect>, m: Migration, n: nat)
    requires n <= STATEMENTS && Ran(a, m, n) && a <= b
    ensures Ran(b, m, n)
  {
    forall i | 0 <= i < n ensures Program(m)[i] in b { assert Program(m)[i] in a; }
  }

  lemma RanMore(a: set<Effect>, b: set<Effect>, m: Migration, n: nat, fault: Fault)
    requires n < STATEMENTS && Ran(a, m, n) && b == Send(a, Program(m)[n], fault).0
    ensures Send(a, Program(m)[n], fault).1 ==> Ran(b, m, n + 1)
    ensures Ran(b, m, Vouched(After(n, Send(a, Program(m)[n], fault).1)))
  {
    RanStays(a, b, m, n);
    var ok := Send(a, Program(m)[n], fault).1;
    if ok {
      forall i | 0 <= i < n + 1 ensures Program(m)[i] in b {
        if i < n { assert Program(m)[i] in a; }
      }
    }
  }

  lemma FinishKeepsGood(s: State, step: Step)
    requires Good(s) && step.Finish?
    ensures Good(Do(s, step)) && Extends(s, Do(s, step))
  {
  }

  lemma SweepKeepsGood(s: State, now: int)
    requires Good(s)
    ensures Good(Do(s, Sweep(now))) && Extends(s, Do(s, Sweep(now)))
  {
  }

  function Run(s: State, steps: seq<Step>): State
    decreases |steps|
  {
    if steps == [] then s else Run(Do(s, steps[0]), steps[1..])
  }

  predicate AllInTime(s: State, steps: seq<Step>)
    decreases |steps|
  {
    steps == [] || (InTime(s, steps[0]) && AllInTime(Do(s, steps[0]), steps[1..]))
  }

  /** Over every interleaving of the statements of any number of applies with crashes and sweeps,
      also sweeps of rows still being worked on: an applied row means that all the statements of
      its apply have run (`Good`), and it stays applied. */
  lemma {:induction false} EveryRun(s: State, steps: seq<Step>)
    requires Good(s) && AllInTime(s, steps)
    ensures Good(Run(s, steps)) && Extends(s, Run(s, steps))
    ensures var t := Run(s, steps);
            forall i :: 0 <= i < |t.log| && t.log[i].state == Applied ==>
              var m := t.log[i].migration;
              {Vector, PgGraphql, Postgis, GraphqlUsage, GraphqlExecute, Baseline(m), River(m.project)} <= t.ran
    decreases |steps|
  {
    if steps == [] {
      assert Run(s, steps) == s;
      forall i | 0 <= i < |s.log| && s.log[i].state == Applied
        ensures var m := s.log[i].migration;
                {Vector, PgGraphql, Postgis, GraphqlUsage, GraphqlExecute, Baseline(m), River(m.project)} <= s.ran
      {
        WholeApply(s.ran, s.log[i].migration);
      }
    } else {
      StepKeepsGood(s, steps[0]);
      hide Good, InTime, Do;
      EveryRun(Do(s, steps[0]), steps[1..]);
    }
  }

  /** What all the statements of an apply leave behind. */
  lemma WholeApply(ran: set<Effect>, m: Migration)
    ensures Ran(ran, m, STATEMENTS) <==>
            {Vector, PgGraphql, Postgis, GraphqlUsage, GraphqlExecute, Baseline(m), River(m.project)} <= ran
  {
    var p := Program(m);
    assert p[0] == Vector && p[1] == PgGraphql && p[2] == Postgis && p[3] == GraphqlUsage;
    assert p[4] == GraphqlExecute && p[5] == Baseline(m) && p[6] == River(m.project);
    if Ran(ran, m, STATEMENTS) {
      assert p[0] in ran && p[1] in ran && p[2] in ran && p[3] in ran && p[4] in ran && p[5] in ran && p[6] in ran;
    }
  }

  /** Extensions come before grants, grants before any baseline, and a project's baseline before
      River in that project. */
  ghost predicate InOrder(ran: set<Effect>) {
    && (PgGraphql in ran ==> Vector in ran)
    && (Postgis in ran ==> PgGraphql in ran)
    && (GraphqlUsage in ran ==> Postgis in ran)
    && (GraphqlExecute in ran ==> GraphqlUsage in ran)
    && (forall m :: Baseline(m) in ran ==> GraphqlExecute in ran)
    && (forall p :: River(p) in ran ==> exists m :: Baseline(m) in ran && m.project == p)
  }

  lemma SendKeepsOrder(ran: set<Effect>, m: Migration, n: nat, fault: Fault)
    requires n < STATEMENTS && Ran(ran, m, n) && InOrder(ran)
    ensures InOrder(Send(ran, Program(m)[n], fault).0)
  {
    var p, after := Program(m), Send(ran, Program(m)[n], fault).0;
    assert n > 0 ==> p[n - 1] in ran;
    forall q | River(q) in after ensures exists x :: Baseline(x) in after && x.project == q {
      if River(q) in ran {
        var x :| Baseline(x) in ran && x.project == q;
        assert Baseline(x) in after;
      } else {
        assert n == 6 && p[5] == Baseline(m) && Baseline(m) in after && q == m.project;
      }
    }
  }

  /** Whatever is cut off where, over every run nothing is found without what applyAll sends first. */
  lemma {:induction false} EveryRunInOrder(s: State, steps: seq<Step>)
    requires Good(s) && InOrder(s.ran) && AllInTime(s, steps)
    ensures InOrder(Run(s, steps).ran)
    decreases |steps|
  {
    if steps == [] {
      assert Run(s, steps) == s;
    } else {
      StepKeepsGood(s, steps[0]);
      assert InOrder(Do(s, steps[0]).ran) by { StepInOrder(s, steps[0]); }
      hide Good, InTime, Do, InOrder;
      EveryRunInOrder(Do(s, steps[0]), steps[1..]);
    }
  }

  lemma StepInOrder(s: State, step: Step)
    requires Good(s) && InOrder(s.ran)
    ensures InOrder(Do(s, step).ran)
  {
    hide InOrder, Send, Found;
    if step.Execute? && step.row in s.jobs && s.jobs[step.row].Working? {
      SendKeepsOrder(s.ran, s.log[step.row].migration, s.jobs[step.row].next, step.fault);
    }
  }

  /** Applying again after any further run inserts exactly if the look at the log fails: for a
      migration that is applied, a readable log makes Apply a no-op. */
  lemma AppliedStaysNoOpIffReadable(s: State, steps: seq<Step>, i: nat, readable: bool, now: int)
    requires Good(s) && AllInTime(s, steps) && i < |s.log| && s.log[i].state == Applied
    ensures Do(Run(s, steps), Begin(s.log[i].migration, readable, now)) == Run(s, steps) <==> readable
  {
    EveryRun(s, steps);
    assert Run(s, steps).log[i].state == Applied;
  }

  /** A sweep touches only what is pending and older than the limit, and leaves no such row;
      a sweep that overtakes a slow apply does not change that apply's result. */
  lemma SweepClearsStale(s: State, now: int, r: nat)
    requires Good(s) && r < |s.log|
    ensures var t := Do(s, Sweep(now));
            && (t.log[r] != s.log[r] <==> s.log[r].state == Pending && s.log[r].started < now - 300)
            && (t.log[r].state == Pending ==> t.log[r].started >= now - 300)
            && (r in s.jobs && s.jobs[r].Ended? ==> Do(t, Finish(r)).log[r] == Do(s, Finish(r)).log[r])
            && Do(t, Sweep(now)) == t
  {
  }

  function Deliveries(row: nat, n: nat): seq<Step> {
    if n == 0 then [] else [Execute(row, Delivered)] + Deliveries(row, n - 1)
  }

  /** An apply whose remaining statements are all acknowledged gets through: none is refused. */
  lemma {:induction false} AllDelivered(s: State, row: nat)
    requires Good(s) && row in s.jobs && s.jobs[row].Working?
    ensures var t := Run(s, Deliveries(row, STATEMENTS - s.jobs[row].next));
            && t.log == s.log && Good(t) && row in t.jobs && t.jobs == s.jobs[row := Ended(true)]
    decreases STATEMENTS - s.jobs[row].next
  {
    hide Good, Do, Send, Run, Deliveries;
    var n := s.jobs[row].next;
    var t := Do(s, Execute(row, Delivered));
    DeliveredStep(s, row);
    OneMoreDelivery(s, row, STATEMENTS - n);
    if n + 1 < STATEMENTS {
      AllDelivered(t, row);
      assert s.jobs[row := After(n, true)][row := Ended(true)] == s.jobs[row := Ended(true)];
    }
  }

  lemma OneMoreDelivery(s: State, row: nat, n: nat)
    requires n > 0
    ensures Run(s, Deliveries(row, n)) == Run(Do(s, Execute(row, Delivered)), Deliveries(row, n - 1))
    ensures n == 1 ==> Run(s, Deliveries(row, n)) == Do(s, Execute(row, Delivered))
  {
    hide Do;
    assert Deliveries(row, n)[1..] == Deliveries(row, n - 1);
    assert Run(Do(s, Execute(row, Delivered)), []) == Do(s, Execute(row, Delivered));
  }

  lemma DeliveredStep(s: State, row: nat)
    requires Good(s) && row in s.jobs && s.jobs[row].Working?
    ensures var t := Do(s, Execute(row, Delivered));
            && t.log == s.log && Good(t) && s.jobs[row].next < STATEMENTS
            && t.jobs == s.jobs[row := After(s.jobs[row].next, true)]
  {
    NextCanRun(s, row);
    ExecuteKeepsGood(s, Execute(row, Delivered));
  }

  /** An apply that takes longer than the sweep's limit is marked failed while it works, and still
      ends applied, rightly, when its statements are through. */
  lemma SweptWhileWorking(s: State, row: nat, now: int)
    requires Good(s) && row in s.jobs && s.jobs[row].Working? && Stale(s.log[row], now)
    ensures var swept := Do(s, Sweep(now));
            var t := Do(Run(swept, Deliveries(row, STATEMENTS - s.jobs[row].next)), Finish(row));
            && swept.log[row].state == Failed && row < |t.log|
            && t.log[row].state == Applied && Ran(t.ran, t.log[row].migration, STATEMENTS)
  {
    var swept := Do(s, Sweep(now));
    hide Good, Do, Run, Stale, Deliveries, Ran;
    SweptRowFails(s, row, now);
    AllDelivered(swept, row);
    FinishApplies(Run(swept, Deliveries(row, STATEMENTS - s.jobs[row].next)), row);
  }

  lemma SweptRowFails(s: State, row: nat, now: int)
    requires Good(s) && row in s.jobs && Stale(s.log[row], now)
    ensures var swept := Do(s, Sweep(now));
            && Good(swept) && swept.jobs == s.jobs && (s.jobs[row].Working? ==> s.jobs[row].next < STATEMENTS)
            && row < |swept.log| && swept.log[row].state == Failed
  {
    SweepKeepsGood(s, now);
  }

  lemma FinishApplies(s: State, row: nat)
    requires Good(s) && row in s.jobs && s.jobs[row] == Ended(true)
    ensures var t := Do(s, Finish(row));
            row < |t.log| && t.log[row].state == Applied && Ran(t.ran, t.log[row].migration, STATEMENTS)
  {
  }

  // --- The two readers ------------------------------------------------------------------------

  const LIMIT: nat := 50

  /** The project's rows, newest first. */
  function History(log: seq<Row>, p: ProjectId): seq<Row> {
    if log == [] then []
    else
      var last := log[|log| - 1];
      (if last.migration.project == p then [last] else []) + History(log[..|log| - 1], p)
  }

  /** `History` is ORDER BY started_at DESC: just the project's rows, strictly descending. */
  lemma {:induction false} HistoryIsNewestFirst(log: seq<Row>, p: ProjectId)
    requires Ordered(log)
    ensures forall row :: row in History(log, p) <==> row in log && row.migration.project == p
    ensures forall i, j :: 0 <= i < j < |History(log, p)| ==> History(log, p)[i].started > History(log, p)[j].started
    decreases |log|
  {
    if log != [] {
      var rest, last := log[..|log| - 1], log[|log| - 1];
      assert log == rest + [last];
      HistoryIsNewestFirst(rest, p);
      forall row | row in rest ensures row.started < last.started {
        var i :| 0 <= i < |rest| && rest[i] == row;
        assert log[i] == row;
      }
      var older := History(rest, p);
      forall j | 0 <= j < |older| ensures older[j].started < last.started {
        assert older[j] in older;
      }
    }
  }

  /** The version of the first applied row, "" if there is none. */
  function Latest(history: seq<Row>): string {
    if history == [] then ""
    else if history[0].state == Applied then history[0].migration.version
    else Latest(history[1..])
  }

  function Newest(history: seq<Row>): seq<Row> {
    if |history| <= LIMIT then history else history[..LIMIT]
  }

  function Executions(row: nat, net: nat -> Fault, n: nat): seq<Step> {
    if n == 0 then [] else Executions(row, net, n - 1) + [Execute(row, net(n - 1))]
  }

  /** One call of Apply; its process may die after some of the statements. */
  function ApplySteps(m: Migration, readable: bool, now: int, row: nat, others: set<nat>,
                      net: nat -> Fault, dies: Option<nat>): seq<Step> {
    [Begin(m, readable, now)] +
    (Executions(row, net, if dies.Some? && dies.value < STATEMENTS then dies.value else STATEMENTS) +
     [if dies.Some? then Crash(others) else Finish(row)])
  }

  lemma {:induction false} RunSplit(s: State, a: seq<Step>, b: seq<Step>)
    ensures Run(s, a + b) == Run(Run(s, a), b)
    decreases |a|
  {
    hide Do;
    if a == [] {
      assert a + b == b && Run(s, a) == s;
    } else {
      assert (a + b)[1..] == a[1..] + b;
      RunSplit(Do(s, a[0]), a[1..], b);
    }
  }

  lemma RunOne(s: State, step: Step)
    ensures Run(s, [step]) == Do(s, step)
  {
    hide Do;
    assert [step][1..] == [];
    assert Run(Do(s, step), []) == Do(s, step);
  }

  /** The steps of a call, the last taken apart from the rest. */
  lemma RunApply(s: State, begin: Step, executions: seq<Step>, end: Step)
    ensures Run(s, [begin] + (executions + [end])) == Do(Run(Do(s, begin), executions), end)
  {
    hide Do, Run;
    RunSplit(s, [begin], executions + [end]);
    RunOne(s, begin);
    RunSplit(Do(s, begin), executions, [end]);
    RunOne(Run(Do(s, begin), executions), end);
  }

  lemma {:induction false} RunOneMore(s: State, row: nat, net: nat -> Fault, n: nat)
    ensures Run(s, Executions(row, net, n + 1)) == Do(Run(s, Executions(row, net, n)), Execute(row, net(n)))
  {
    hide Do, Run;
    RunSplit(s, Executions(row, net, n), [Execute(row, net(n))]);
    RunOne(Run(s, Executions(row, net, n)), Execute(row, net(n)));
  }

  lemma {:induction false} NothingToExecute(s: State, row: nat, net: nat -> Fault, n: nat)
    requires row !in s.jobs
    ensures Run(s, Executions(row, net, n)) == s
  {
    if n > 0 {
      NothingToExecute(s, row, net, n - 1);
      RunOneMore(s, row, net, n - 1);
    } else {
      assert Run(s, []) == s;
    }
  }

  /** If an applied row is found, the rest of the call does nothing. */
  lemma FoundChangesNothing(s: State, m: Migration, now: int, net: nat -> Fault, dies: Option<nat>)
    requires Good(s) && Found(s.log, m, true)
    ensures Run(s, ApplySteps(m, true, now, |s.log|, s.jobs.Keys, net, dies)) == s
  {
    var n := if dies.Some? && dies.value < STATEMENTS then dies.value else STATEMENTS;
    var end := if dies.Some? then Crash(s.jobs.Keys) else Finish(|s.log|);
    RunApply(s, Begin(m, true, now), Executions(|s.log|, net, n), end);
    NothingToExecute(s, |s.log|, net, n);
    NoSuchJob(s, |s.log|);
  }

  lemma NoSuchJob(s: State, row: nat)
    requires Good(s) && row == |s.log|
    ensures row !in s.jobs
    ensures Do(s, Crash(s.jobs.Keys)) == s
  {
    assert (map r | r in s.jobs && r in s.jobs.Keys :: s.jobs[r]) == s.jobs;
  }

  lemma Dies(before: State, s: State, id: nat)
    requires id !in before.jobs && s.jobs.Keys == before.jobs.Keys + {id}
    ensures Do(s, Crash(before.jobs.Keys)) == s.(jobs := s.jobs - {id})
  {
    assert (map r | r in s.jobs && r in before.jobs.Keys :: s.jobs[r]) == s.jobs - {id};
  }

  /** What the n-th statement of an undisturbed call does to its job. */
  predicate Underway(before: State, s: State, m: Migration, now: int, net: nat -> Fault, n: nat)
    requires n <= STATEMENTS
  {
    var id := |before.log|;
    && s.log == before.log + [Row(m, Pending, now)]
    && id in s.jobs && s.jobs - {id} == before.jobs
    && s.jobs[id] == if exists i :: 0 <= i < n && !net(i).Delivered? then Ended(false)
                     else if n == STATEMENTS then Ended(true) else Working(n)
  }

  /** The newest applied row of a migration. */
  function NewestApplied(log: seq<Row>, m: Migration): Option<Row> {
    if log == [] then None
    else
      var last := log[|log| - 1];
      if last.migration == m && last.state == Applied then Some(last) else NewestApplied(log[..|log| - 1], m)
  }

  lemma {:induction false} NewestAppliedFinds(log: seq<Row>, m: Migration)
    ensures NewestApplied(log, m).Some? <==> Found(log, m, true)
    ensures NewestApplied(log, m).Some? ==>
              var row := NewestApplied(log, m).value; row in log && row.migration == m && row.state == Applied
    ensures Ordered(log) && NewestApplied(log, m).Some? ==>
              forall i :: 0 <= i < |log| && log[i].migration == m && log[i].state == Applied ==>
                log[i].started <= NewestApplied(log, m).value.started
  {
    if log != [] {
      var rest := log[..|log| - 1];
      NewestAppliedFinds(rest, m);
      assert log == rest + [log[|log| - 1]];
      assert Ordered(log) ==> Ordered(rest);
      assert forall i :: 0 <= i < |rest| ==> log[i] == rest[i];
    }
  }

  /** One more statement of a call. */
  lemma StatementEnds(before: State, s: State, m: Migration, now: int, net: nat -> Fault, n: nat)
    requires n < STATEMENTS && Good(s) && Underway(before, s, m, now, net, n)
    ensures Underway(before, Do(s, Execute(|before.log|, net(n))), m, now, net, n + 1)
    ensures Good(Do(s, Execute(|before.log|, net(n))))
  {
    var id := |before.log|;
    var t := Do(s, Execute(id, net(n)));
    ExecuteKeepsGood(s, Execute(id, net(n)));
    hide Good;
    if s.jobs[id].Working? {
      assert Needs(Program(m)[n]) <= s.ran by { NextCanRun(s, id); }
      assert t.jobs == s.jobs[id := After(n, net(n).Delivered?)];
    }
    assert t.jobs - {id} == s.jobs - {id};
  }

  lemma NextCanRun(s: State, row: nat)
    requires Good(s) && row in s.jobs && s.jobs[row].Working?
    ensures row < |s.log| && s.jobs[row].next < STATEMENTS
    ensures Needs(Program(s.log[row].migration)[s.jobs[row].next]) <= s.ran
  {
    OrderSuffices(s.ran, s.log[row].migration, s.jobs[row].next);
  }

  lemma JustBegun(s: State, m: Migration, readable: bool, now: int, net: nat -> Fault)
    requires Good(s) && InTime(s, Begin(m, readable, now)) && !Found(s.log, m, readable)
    ensures Underway(s, Do(s, Begin(m, readable, now)), m, now, net, 0)
    ensures Good(Do(s, Begin(m, readable, now)))
  {
    BeginKeepsGood(s, Begin(m, readable, now));
    var t := Do(s, Begin(m, readable, now));
    assert t.jobs - {|s.log|} == s.jobs;
  }

  lemma SweptRow(row: Row, now: int)
    ensures !Stale(SweepRow(row, now), now)
    ensures SweepRow(row, now) == if Stale(row, now) then row.(state := Failed) else row
  {
  }

  function StaleCount(rows: seq<Row>, now: int): nat {
    if rows == [] then 0
    else StaleCount(rows[..|rows| - 1], now) + if Stale(rows[|rows| - 1], now) then 1 else 0
  }

  lemma SweptAll(before: seq<Row>, after: seq<Row>, now: int)
    requires |after| == |before| && forall j :: 0 <= j < |after| ==> after[j] == SweepRow(before[j], now)
    ensures after == SweepLog(before, now) && forall r :: 0 <= r < |after| ==> !Stale(after[r], now)
  {
  }

  lemma SweepIs(s: State, now: int)
    ensures Do(s, Sweep(now)) == s.(log := SweepLog(s.log, now))
  {
  }

  lemma NoneCounted(now: int)
    ensures StaleCount([], now) == 0
  {
  }

  lemma OneMoreCounted(rows: seq<Row>, i: nat, now: int)
    requires i < |rows|
    ensures StaleCount(rows[..i + 1], now) == StaleCount(rows[..i], now) + if Stale(rows[i], now) then 1 else 0
  {
    assert rows[..i + 1][..i] == rows[..i];
  }

  lemma {:induction false} StaleCountCounts(rows: seq<Row>, now: int)
    ensures StaleCount(rows, now) == |StalePlaces(rows, now)|
    decreases |rows|
  {
    hide Stale;
    if rows == [] {
      assert StalePlaces(rows, now) == {};
    } else {
      var last, rest := |rows| - 1, rows[..|rows| - 1];
      StaleCountCounts(rest, now);
      MorePlaces(rows, now);
      hide StalePlaces;
    }
  }

  function StalePlaces(rows: seq<Row>, now: int): set<int> {
    set r | 0 <= r < |rows| && Stale(rows[r], now)
  }

  lemma MorePlaces(rows: seq<Row>, now: int)
    requires rows != []
    ensures var last, some := |rows| - 1, StalePlaces(rows[..|rows| - 1], now);
            last !in some && StalePlaces(rows, now) == if Stale(rows[last], now) then some + {last} else some
  {
    hide Stale;
    var last, rest := |rows| - 1, rows[..|rows| - 1];
    forall r ensures r in StalePlaces(rows, now) <==>
                     r in StalePlaces(rest, now) || (r == last && Stale(rows[last], now))
    {
      if 0 <= r < last { assert rest[r] == rows[r]; }
    }
  }

  /** The end of a call that inserted a row: its process dies, or the result is recorded. */
  lemma ApplyEnds(before: State, begun: State, done: State, m: Migration, readable: bool, now: int,
                  net: nat -> Fault, dies: Option<nat>)
    requires begun == Do(before, Begin(m, readable, now)) && Good(done) && |before.log| !in before.jobs
    requires var last := if dies.Some? && dies.value < STATEMENTS then dies.value else STATEMENTS;
             && done == Run(begun, Executions(|before.log|, net, last))
             && Underway(before, done, m, now, net, last)
    ensures var t := Run(before, ApplySteps(m, readable, now, |before.log|, before.jobs.Keys, net, dies));
            var id := |before.log|;
            && Good(t) && t.jobs == done.jobs - {id} && t.ran == done.ran
            && t.log == if dies.Some? then done.log
                        else done.log[id := Row(m, if done.jobs[id] == Ended(true) then Applied else Failed, now)]
    ensures var id := |before.log|;
            var state := if forall i :: 0 <= i < 7 ==> net(i).Delivered? then Applied else Failed;
            && id in done.jobs && id < |done.log|
            && (dies.None? ==>
                  && (done.jobs[id] == Ended(true) <==> state == Applied)
                  && done.log[id := Row(m, state, now)] == before.log + [Row(m, state, now)]
                  && (state == Applied ==>
                        {Vector, PgGraphql, Postgis, GraphqlUsage, GraphqlExecute, Baseline(m), River(m.project)}
                        <= done.ran))
  {
    EndedIsWhole(done, |before.log|);
    var id := |before.log|;
    var last := if dies.Some? && dies.value < STATEMENTS then dies.value else STATEMENTS;
    var end := if dies.Some? then Crash(before.jobs.Keys) else Finish(id);
    RunApply(before, Begin(m, readable, now), Executions(id, net, last), end);
    EndKeepsGood(done, end);
    hide Run, Good, Executions;
    if dies.Some? {
      assert done.jobs.Keys == before.jobs.Keys + {id};
      Dies(before, done, id);
    }
  }

  lemma AppliedIsWhole(s: State, m: Migration)
    requires Good(s) && Found(s.log, m, true)
    ensures {Vector, PgGraphql, Postgis, GraphqlUsage, GraphqlExecute, Baseline(m), River(m.project)} <= s.ran
  {
    WholeApply(s.ran, m);
  }

  lemma EndedIsWhole(s: State, row: nat)
    requires Good(s) && row in s.jobs
    ensures row < |s.log|
    ensures s.jobs[row] == Ended(true) ==>
              var m := s.log[row].migration;
              {Vector, PgGraphql, Postgis, GraphqlUsage, GraphqlExecute, Baseline(m), River(m.project)} <= s.ran
  {
    WholeApply(s.ran, s.log[row].migration);
  }

  lemma NothingYet(s: State, row: nat, net: nat -> Fault)
    ensures Run(s, Executions(row, net, 0)) == s
  {
  }

  lemma EndKeepsGood(s: State, end: Step)
    requires Good(s) && !end.Begin?
    ensures Good(Do(s, end))
  {
    StepKeepsGood(s, end);
  }

  class Runner {
    var log: seq<Row>
    var ran: set<Effect>
    var jobs: map<nat, Job>

    ghost function Now(): State
      reads this
    {
      State(log, ran, jobs)
    }

    constructor ()
      ensures Now() == INITIAL
    {
      log, ran, jobs := [], {}, map[];
    }

    /** `None` if the process dies on the way.  Nothing else runs between the statements. */
    method Apply(m: Migration, readable: bool, now: int, net: nat -> Fault, dies: Option<nat>)
      returns (entry: Option<Row>)
      requires Good(Now()) && InTime(Now(), Begin(m, readable, now))
      modifies this
      ensures Good(Now())
      ensures Now() == Run(old(Now()), ApplySteps(m, readable, now, |old(log)|, old(jobs).Keys, net, dies))
      ensures Found(old(log), m, readable) ==>
                && Now() == old(Now()) && entry.Some?
                && entry.value in log && entry.value.migration == m && entry.value.state == Applied
                && forall i :: 0 <= i < |log| && log[i].migration == m && log[i].state == Applied ==>
                     log[i].started <= entry.value.started
      ensures !Found(old(log), m, readable) ==>
                if dies.Some? then entry == None
                else
                  var ok := forall i :: 0 <= i < 7 ==> net(i).Delivered?;
                  entry == Some(Row(m, if ok then Applied else Failed, now)) && log == old(log) + [entry.value]
      ensures entry.Some? && entry.value.state == Applied ==>
                {Vector, PgGraphql, Postgis, GraphqlUsage, GraphqlExecute, Baseline(m), River(m.project)} <= ran
    {
      ghost var before := Now();
      if readable {
        NewestAppliedFinds(log, m);
        entry := NewestApplied(log, m);
        if entry.Some? {
          FoundChangesNothing(before, m, now, net, dies);
          AppliedIsWhole(before, m);
          return;
        }
      }
      entry := ApplyNew(m, readable, now, net, dies);
    }

    /** The rest of a call that found no applied row. */
    method ApplyNew(m: Migration, readable: bool, now: int, net: nat -> Fault, dies: Option<nat>)
      returns (entry: Option<Row>)
      requires Good(Now()) && InTime(Now(), Begin(m, readable, now)) && !Found(log, m, readable)
      modifies this
      ensures Good(Now())
      ensures Now() == Run(old(Now()), ApplySteps(m, readable, now, |old(log)|, old(jobs).Keys, net, dies))
      ensures if dies.Some? then entry == None
              else
                var ok := forall i :: 0 <= i < 7 ==> net(i).Delivered?;
                entry == Some(Row(m, if ok then Applied else Failed, now)) && log == old(log) + [entry.value]
      ensures entry.Some? && entry.value.state == Applied ==>
                {Vector, PgGraphql, Postgis, GraphqlUsage, GraphqlExecute, Baseline(m), River(m.project)} <= ran
    {
      ghost var before := Now();
      JustBegun(before, m, readable, now, net);
      NoSuchJob(before, |log|);
      hide Good, InTime, Run, Found;
      var id := |log|;
      log, jobs := log + [Row(m, Pending, now)], jobs[id := Working(0)];
      ghost var begun := Now();
      assert begun == Do(before, Begin(m, readable, now));
      var last := if dies.Some? && dies.value < STATEMENTS then dies.value else STATEMENTS;
      ApplyAll(before, m, now, id, net, last);
      ApplyEnds(before, begun, Now(), m, readable, now, net, dies);
      hide Underway, ApplySteps, Executions, Do;
      if dies.Some? {
        jobs := jobs - {id};
        return None;
      }
      log, jobs := log[id := Row(m, if jobs[id] == Ended(true) then Applied else Failed, now)], jobs - {id};
      return Some(log[id]);
    }

    /** The first `last` statements, none after one that failed. */
    method ApplyAll(ghost before: State, ghost m: Migration, ghost now: int, id: nat, net: nat -> Fault, last: nat)
      requires last <= STATEMENTS && id == |before.log|
      requires Good(Now()) && Underway(before, Now(), m, now, net, 0)
      modifies this
      ensures Good(Now()) && Underway(before, Now(), m, now, net, last)
      ensures Now() == Run(old(Now()), Executions(id, net, last))
    {
      hide Good, Run;
      ghost var begun := Now();
      NothingYet(begun, id, net);
      for n := 0 to last
        invariant Good(Now()) && Underway(before, Now(), m, now, net, n)
        invariant Now() == Run(begun, Executions(id, net, n))
      {
        StatementEnds(before, Now(), m, now, net, n);
        RunOneMore(begun, id, net, n);
        ExecuteInPlace(id, net(n));
      }
    }

    /** Sends the next statement unless an earlier one failed. */
    method ExecuteInPlace(id: nat, fault: Fault)
      requires id in jobs && id < |log| && (jobs[id].Working? ==> jobs[id].next < STATEMENTS)
      modifies this
      ensures Now() == Do(old(Now()), Execute(id, fault))
    {
      hide Send;
      if jobs[id].Ended? { return; }
      var n := jobs[id].next;
      var r := Send(ran, Program(log[id].migration)[n], fault);
      ran, jobs := r.0, jobs[id := After(n, r.1)];
    }

    /** Gives up on what has been pending for too long, and says on how many. */
    method SweepStale(now: int) returns (n: nat)
      requires Good(Now())
      modifies this
      ensures Good(Now()) && Now() == Do(old(Now()), Sweep(now))
      ensures n == |StalePlaces(old(log), now)|
      ensures forall r :: 0 <= r < |log| ==> !Stale(log[r], now)
    {
      SweepKeepsGood(Now(), now);
      SweepIs(Now(), now);
      hide Good, Do, Stale, SweepRow, StaleCount, StalePlaces, SweepLog;
      ghost var before := log;
      assert StaleCount([], now) == 0 by { NoneCounted(now); }
      n := 0;
      for i := 0 to |log|
        invariant |log| == |before| && ran == old(ran) && jobs == old(jobs)
        invariant forall j :: 0 <= j < |log| ==> log[j] == if j < i then SweepRow(before[j], now) else before[j]
        invariant n == StaleCount(before[..i], now)
      {
        OneMoreCounted(before, i, now);
        SweptRow(before[i], now);
        if Stale(log[i], now) {
          log := log[i := log[i].(state := Failed)];
          n := n + 1;
        }
      }
      assert before[..|before|] == before;
      StaleCountCounts(before, now);
      SweptAll(before, log, now);
    }

    method Status(p: ProjectId, target: string) returns (current: string, upToDate: bool, entries: seq<Row>)
      ensures entries == Newest(History(log, p)) && current == Latest(entries) && upToDate == (current == target)
    {
      entries, current := [], "";
      hide Newest, History, Latest;
      var rows := Newest(History(log, p));
      LatestEnds(rows);
      for i := 0 to |rows|
        invariant entries == rows[..i]
        invariant Latest(rows) == if current == "" then Latest(rows[i..]) else current
      {
        LatestFrom(rows, i);
        if rows[i].state == Applied && current == "" {
          current := rows[i].migration.version;
        }
        entries := entries + [rows[i]];
      }
      upToDate := current == target;
    }
  }

  lemma LatestEnds(rows: seq<Row>)
    ensures Latest(rows[0..]) == Latest(rows) && Latest(rows[|rows|..]) == ""
  {
    assert rows[0..] == rows;
  }

  lemma LatestFrom(rows: seq<Row>, i: nat)
    requires i < |rows|
    ensures Latest(rows[i..]) == if rows[i].state == Applied then rows[i].migration.version else Latest(rows[i + 1..])
  {
    assert rows[i..][1..] == rows[i + 1..];
  }

  lemma {:induction false} LatestIsApplied(history: seq<Row>, n: nat)
    requires n <= |history|
    ensures Latest(history) != "" <==> exists i :: 0 <= i < |history| && history[i].state == Applied
    ensures Latest(history[..n])
         == (if exists i :: 0 <= i < n && history[i].state == Applied then Latest(history) else "")
  {
    if i :| 0 <= i < |history| && history[i].state == Applied &&
            forall j :: 0 <= j < i ==> history[j].state != Applied
    {
      LatestIsNewestApplied(history, i);
      if i < n { LatestIsNewestApplied(history[..n], i); } else { NoneApplied(history[..n]); }
    } else {
      NoneBefore(history, |history|);
      NoneApplied(history);
      NoneApplied(history[..n]);
    }
  }

  lemma {:induction false} NoneApplied(history: seq<Row>)
    requires forall i :: 0 <= i < |history| ==> history[i].state != Applied
    ensures Latest(history) == ""
  {
    if history != [] { NoneApplied(history[1..]); }
  }

  /** Without a first applied row there is none. */
  lemma {:induction false} NoneBefore(history: seq<Row>, n: nat)
    requires n <= |history|
    requires forall i :: 0 <= i < |history| && history[i].state == Applied ==>
               exists j :: 0 <= j < i && history[j].state == Applied
    ensures forall i :: 0 <= i < n ==> history[i].state != Applied
  {
    if n > 0 { NoneBefore(history, n - 1); }
  }

  /** What both readers look for is the newest applied row. */
  lemma {:induction false} LatestIsNewestApplied(history: seq<Row>, i: nat)
    requires i < |history| && history[i].state == Applied
    requires forall j :: 0 <= j < i ==> history[j].state != Applied
    ensures Latest(history) == history[i].migration.version
  {
    if i > 0 {
      assert forall j :: 0 <= j < i - 1 ==> history[1..][j] == history[j + 1];
      LatestIsNewestApplied(history[1..], i - 1);
    }
  }

  /** The summary and the unbounded query agree exactly when no row is applied at all or one of
      the 50 newest is. */
  lemma ReadersAgreeIff(history: seq<Row>)
    ensures Latest(Newest(history)) == Latest(history)
       <==> ((exists i :: 0 <= i < |history| && history[i].state == Applied) ==>
               exists i :: 0 <= i < |history| && i < 50 && history[i].state == Applied)
  {
    LatestIsApplied(history, if |history| <= LIMIT then |history| else LIMIT);
  }

  // --- When they do agree -----------------------------------------------------------------------

  /** One binary at work: one migration version, a readable log, and applies one at a time in each
      project. */
  predicate Orderly(s: State, step: Step, version: Version, checksum: int) {
    step.Begin? ==>
      && step.readable && step.migration.version == version && step.migration.checksum == checksum
      && forall r :: r in s.jobs && r < |s.log| ==> s.log[r].migration.project != step.migration.project
  }

  predicate AllOrderly(s: State, steps: seq<Step>, version: Version, checksum: int)
    decreases |steps|
  {
    steps == [] ||
    (Orderly(s, steps[0], version, checksum) &&
     AllOrderly(Do(s, steps[0]), steps[1..], version, checksum))
  }

  /** Nothing follows an applied row or a row under way of the same project. */
  predicate Tidy(s: State, version: Version, checksum: int) {
    && (forall i :: 0 <= i < |s.log| ==>
          s.log[i].migration == Migration(s.log[i].migration.project, version, checksum))
    && (forall i, j :: 0 <= i < j < |s.log| && s.log[i].migration.project == s.log[j].migration.project ==>
          s.log[i].state != Applied && i !in s.jobs)
  }

  lemma StepKeepsTidy(s: State, step: Step, version: Version, checksum: int)
    requires Tidy(s, version, checksum) && Orderly(s, step, version, checksum)
    ensures Tidy(Do(s, step), version, checksum)
  {
  }

  lemma {:induction false} RunKeepsTidy(s: State, steps: seq<Step>, version: Version, checksum: int)
    requires Tidy(s, version, checksum) && AllOrderly(s, steps, version, checksum)
    ensures Tidy(Run(s, steps), version, checksum)
    decreases |steps|
  {
    if steps != [] {
      StepKeepsTidy(s, steps[0], version, checksum);
      hide Tidy, Do;
      RunKeepsTidy(Do(s, steps[0]), steps[1..], version, checksum);
    }
  }

  /** Over every orderly run the summary's current version is the latest applied one, however long
      the log. */
  lemma OrderlyReadersAgree(steps: seq<Step>, version: Version, checksum: int, p: ProjectId)
    requires AllInTime(INITIAL, steps) && AllOrderly(INITIAL, steps, version, checksum)
    ensures var history := History(Run(INITIAL, steps).log, p);
            Latest(Newest(history)) == Latest(history)
  {
    EveryRun(INITIAL, steps);
    RunKeepsTidy(INITIAL, steps, version, checksum);
    hide Run;
    TidyReadersAgree(Run(INITIAL, steps), version, checksum, p);
  }

  lemma TidyReadersAgree(s: State, version: Version, checksum: int, p: ProjectId)
    requires Tidy(s, version, checksum) && Ordered(s.log)
    ensures Latest(Newest(History(s.log, p))) == Latest(History(s.log, p))
  {
    hide History, Latest, Newest;
    var history := History(s.log, p);
    HistoryIsNewestFirst(s.log, p);
    ReadersAgreeIff(history);
    if i :| 0 <= i < |history| && history[i].state == Applied {
      assert history[i] in history && history[0] in history;
      var a :| 0 <= a < |s.log| && s.log[a] == history[i];
      var b :| 0 <= b < |s.log| && s.log[b] == history[0];
      assert a >= b && (i > 0 ==> s.log[b].started > s.log[a].started);
    }
  }

  // --- When they do not -------------------------------------------------------------------------

  /** One success, then `n` applies of the same migration that cannot read the log and fail. */
  function Attempts(m: Migration, n: nat): State {
    if n == 0 then Run(INITIAL, [Begin(m, true, 0)] + (Deliveries(0, STATEMENTS) + [Finish(0)]))
    else Run(Attempts(m, n - 1), [Begin(m, false, n), Execute(n, Lost), Finish(n)])
  }

  lemma RunThree(s: State, a: Step, b: Step, c: Step)
    ensures Run(s, [a, b, c]) == Do(Do(Do(s, a), b), c)
  {
    hide Do;
    assert [a, b, c][1..] == [b, c] && [b, c][1..] == [c] && [c][1..] == [];
    assert Run(Do(Do(s, a), b), [c]) == Do(Do(Do(s, a), b), c);
  }

  function Failures(m: Migration, n: nat): seq<Row> {
    if n == 0 then [] else [Row(m, Failed, n)] + Failures(m, n - 1)
  }

  lemma FirstApply(m: Migration)
    ensures Attempts(m, 0).log == [Row(m, Applied, 0)] && Attempts(m, 0).jobs == map[]
  {
    var s := Do(INITIAL, Begin(m, true, 0));
    RunApply(INITIAL, Begin(m, true, 0), Deliveries(0, STATEMENTS), Finish(0));
    BeginKeepsGood(INITIAL, Begin(m, true, 0));
    assert s == State([Row(m, Pending, 0)], {}, map[0 := Working(0)]);
    AllDelivered(s, 0);
    assert map[0 := Working(0)][0 := Ended(true)] - {0} == map[];
  }

  lemma {:induction false} AttemptsPileUp(m: Migration, n: nat)
    ensures var s := Attempts(m, n);
            && s.jobs == map[] && |s.log| == n + 1
            && History(s.log, m.project) == Failures(m, n) + [Row(m, Applied, 0)]
  {
    if n == 0 {
      var row := Row(m, Applied, 0);
      FirstApply(m);
      assert Attempts(m, 0).log == [row];
      assert [row][..0] == [];
    } else {
      AttemptsPileUp(m, n - 1);
      var s := Attempts(m, n - 1);
      RunThree(s, Begin(m, false, n), Execute(n, Lost), Finish(n));
      assert Attempts(m, n).log == s.log + [Row(m, Failed, n)];
      assert (s.log + [Row(m, Failed, n)])[..n] == s.log;
    }
  }

  lemma {:induction false} FailuresShow(m: Migration, n: nat, rest: seq<Row>)
    ensures |Failures(m, n)| == n && Latest(Failures(m, n)) == "" && Latest(Failures(m, n) + rest) == Latest(rest)
    ensures forall i :: 0 <= i < n ==> Failures(m, n)[i].state == Failed
  {
    if n == 0 {
      assert [] + rest == rest;
    } else {
      FailuresShow(m, n - 1, rest);
      assert (Failures(m, n) + rest)[1..] == Failures(m, n - 1) + rest;
    }
  }

  /** Because errors of the look at the log are swallowed the two can come apart: after a success
      and 50 failing retries that could not see it, the summary reports no version at all. */
  lemma UnreadableLogHidesSuccess(m: Migration)
    ensures var history := History(Attempts(m, LIMIT).log, m.project);
            Latest(history) == m.version && Latest(Newest(history)) == ""
  {
    AttemptsPileUp(m, LIMIT);
    hide Attempts, History;
    var failures := Failures(m, LIMIT);
    FailuresShow(m, LIMIT, [Row(m, Applied, 0)]);
    hide Failures;
    assert Newest(failures + [Row(m, Applied, 0)]) == failures;
  }
}
