/**
 DropForProject interleaved with everything else, statement by statement
 (internal/controlplane/tenancy/ephemeral.go:148-182).  It retires the listed logins one by one,
 gives up at the first error, and ends with one DELETE of all the project's rows.
 */
module ProjectDrop {
  import opened Wrappers
  import opened Postgres
  import opened Ephemeral
  import opened Lifecycle
  import Conservation
  import SecondGrant

  /** A drop of `project` by the worker `me`, if one is active; `minted` are the logins minted for
      the project since its list was read. */
  datatype State = State(sys: System, me: nat, project: nat, active: bool, minted: set<Name>)

  datatype Step =
    | Read(me: nat, project: nat, list: seq<(Name, Name)>)
    | Own(fault: Fault)               // its next round trip
    | Other(step: Lifecycle.Step)     // anybody else's

  predicate Enabled(s: State, step: Step) {
    match step
    case Read(me, project, list) =>
      && !s.active && (me in s.sys.workers ==> s.sys.workers[me].todo == [])
      && RowsConsistent(s.sys.db) && Lists(list, OfProject(s.sys.db, project), s.sys.db)
    case Own(_) => s.active && s.me in s.sys.workers
    case Other(step) => Lifecycle.Enabled(s.sys, step) && (s.active ==> SecondGrant.Others(s.me, [step]))
  }

  /** All names are done with: the DELETE comes next. */
  predicate AtBulk(s: State) { s.active && s.me in s.sys.workers && s.sys.workers[s.me].todo == [] }

  /** One round trip of retireRole.  Where a sweeper would forget the row next, the drop goes on to
      the next name; where a sweeper would, after an error, it gives up. */
  function Retire(sys: System, me: nat, fault: Fault): (System, bool)
    requires me in sys.workers && sys.workers[me].todo != []
  {
    var w, t := sys.workers[me], DoAdvance(sys, me, fault);
    var v := t.workers[me];
    if v.todo != w.todo then (t.(workers := t.workers[me := v.(todo := [])]), false)
    else if v.stage == ForgetRow then (t.(workers := t.workers[me := NextName(v)]), true)
    else (t, true)
  }

  function Do(s: State, step: Step): State
    requires Enabled(s, step)
  {
    match step
    case Read(me, project, list) =>
      var w := Worker(list, CheckExists, {}, 0);
      State(s.sys.(workers := s.sys.workers[me := w]), me, project, true, {})
    case Own(fault) =>
      if s.sys.workers[s.me].todo == [] then
        s.(sys := s.sys.(db := Send(s.sys.db, DeleteProjectRows(s.project), fault).0), active := false)
      else
        var (sys, goesOn) := Retire(s.sys, s.me, fault);
        s.(sys := sys, active := goesOn)
    case Other(step) =>
      s.(sys := Lifecycle.Do(s.sys, step),
         minted := if !Commits(s.sys, step) then s.minted
                   else if step.project == s.project then s.minted + {step.role} else s.minted - {step.role})
  }

  /** No login minted for the project since the list was read is there. */
  predicate NoneMinted(s: State) {
    forall r :: r in s.minted && r in s.sys.db.roles ==> s.sys.db.roles[r].None?
  }

  // --- What every run keeps ------------------------------------------------------------------------

  predicate Listed(todo: seq<(Name, Name)>, r: Name) {
    exists i :: 0 <= i < |todo| && todo[i].0 == r
  }

  /** The project's logins are still listed or were minted since, and those are the project's. */
  predicate Covers(db: DB, project: nat, minted: set<Name>, todo: seq<(Name, Name)>) {
    && (forall r :: r in OfProject(db, project) && r in db.roles ==> r in minted || Listed(todo, r))
    && (forall r :: r in minted && r in db.roles && db.roles[r].Some? ==> r in OfProject(db, project))
  }

  predicate Good(s: State) {
    && Lifecycle.Good(s.sys)
    && (s.active ==>
          && s.me in s.sys.workers && Covers(s.sys.db, s.project, s.minted, s.sys.workers[s.me].todo)
          && (s.sys.workers[s.me].todo != [] ==> s.sys.workers[s.me].stage != ForgetRow))
  }

  /** What keeps roles recorded: free names, and no DELETE that arrives while a login minted since the
      list was read is there. */
  predicate Safe(s: State, step: Step)
    requires Enabled(s, step)
  {
    match step
    case Read(_, _, _) => true
    case Own(fault) => AtBulk(s) && fault != Lost ==> NoneMinted(s)
    case Other(step) => NameFree(s.sys, step)
  }

  lemma ReadKeepsGood(s: State, me: nat, project: nat, list: seq<(Name, Name)>)
    requires Good(s) && Enabled(s, Read(me, project, list))
    ensures Good(Do(s, Read(me, project, list)))
  {
    forall i | 0 <= i < |list|
      ensures SomeTenant(s.sys.db, list[i].1) && (list[i].0 in s.sys.db.roles ==> s.sys.db.roles[list[i].0].Some?)
    {
      var r := list[i].0;
      assert r in s.sys.db.rows && s.sys.db.projects[s.sys.db.rows[r].project].pgRole == list[i].1;
    }
  }

  lemma FewerKeepsCovers(db: DB, d: DB, project: nat, minted: set<Name>,
                         todo: seq<(Name, Name)>, rest: seq<(Name, Name)>)
    requires Covers(db, project, minted, todo) && Conservation.Fewer(db, d) && MintedRolesRecorded(d)
    requires rest == todo || (todo != [] && rest == todo[1..] && todo[0].0 !in d.roles)
    ensures Covers(d, project, minted, rest)
  {
    forall r | r in OfProject(d, project) && r in d.roles ensures r in minted || Listed(rest, r) {
      if r !in minted {
        assert r in OfProject(db, project);
        var i :| 0 <= i < |todo| && todo[i].0 == r;
        assert rest != todo ==> i > 0 && rest[i - 1].0 == r;
      }
    }
    forall r | r in minted && r in d.roles && d.roles[r].Some? ensures r in OfProject(d, project) {
      assert r in OfProject(db, project);
    }
  }

  lemma RetireKeepsGood(s: State, fault: Fault)
    requires Good(s) && s.active && s.sys.workers[s.me].todo != []
    ensures Good(Do(s, Own(fault)))
  {
    var w := s.sys.workers[s.me];
    var t := DoAdvance(s.sys, s.me, fault);
    var v := t.workers[s.me];
    AdvanceKeepsGood(s.sys, s.me, fault);
    Conservation.AdvanceTakesAtMostHead(s.sys, s.me, fault);
    assert WorkerOk(t.db, v) && Inv(t.db) && MintedRolesRecorded(t.db);
    assert v.todo != [] && v.stage == ForgetRow ==> v.todo[0].0 !in t.db.roles;
    hide DoAdvance, Inv, MintedRolesRecorded, WorkerOk, Covers, Conservation.Fewer;
    if v.todo == w.todo {
      FewerKeepsCovers(s.sys.db, t.db, s.project, s.minted, w.todo, w.todo);
      if v.stage == ForgetRow {
        SkipOk(t.db, v);
        FewerKeepsCovers(s.sys.db, t.db, s.project, s.minted, w.todo, w.todo[1..]);
      }
    } else {
      StoppedOk(t.db, v);
    }
  }

  lemma StoppedOk(db: DB, w: Worker)
    ensures WorkerOk(db, w.(todo := []))
  {
  }

  /** The DELETE that ends a drop: roles stay recorded if and only if no login minted since the list was
      read is there. */
  lemma BulkRecordsIff(s: State, fault: Fault)
    requires Good(s) && AtBulk(s) && fault != Lost
    ensures MintedRolesRecorded(Do(s, Own(fault)).sys.db) <==> NoneMinted(s)
    ensures NoneMinted(s) ==> Good(Do(s, Own(fault)))
  {
    var db, d := s.sys.db, Do(s, Own(fault)).sys.db;
    assert d == Exec(db, DeleteProjectRows(s.project)).db;
    BulkDeleteSafeIffNoneLeft(db, s.project);
    assert forall r :: !Listed([], r);
    if NoneMinted(s) {
      forall r | r in OfProject(db, s.project) ensures r !in db.roles {
        assert r in db.roles ==> r in s.minted;
      }
      assert Inv(d);
      ShrinkKeepsGood(s.sys, d);
    } else {
      var r :| r in s.minted && r in db.roles && db.roles[r].Some?;
      assert r in OfProject(db, s.project) && r !in d.rows && r in d.roles;
    }
  }

  lemma MintKeepsCovers(s: State, step: Lifecycle.Step)
    requires Good(s) && s.active && Lifecycle.Enabled(s.sys, step) && step.MintRole? && NameFree(s.sys, step)
    requires SecondGrant.Others(s.me, [step])
    ensures var t := Do(s, Other(step));
            s.me in t.sys.workers && Covers(t.sys.db, s.project, t.minted, t.sys.workers[s.me].todo)
  {
    hide Lifecycle.Good;
  }

  lemma OtherKeepsCovers(s: State, step: Lifecycle.Step)
    requires Good(s) && s.active && Lifecycle.Enabled(s.sys, step) && !step.MintRole? && NameFree(s.sys, step)
    requires SecondGrant.Others(s.me, [step])
    ensures var t := Do(s, Other(step));
            s.me in t.sys.workers && Covers(t.sys.db, s.project, t.minted, s.sys.workers[s.me].todo)
  {
    var d := Lifecycle.Do(s.sys, step).db;
    EveryStepKeepsGood(s.sys, step);
    SecondGrant.OthersLeaveAlone(s.sys, step, s.me);
    if step.CreateProject? {
      hide Lifecycle.Good;
    } else {
      if step.Advance? { Conservation.AdvanceTakesAtMostHead(s.sys, step.id, step.fault); }
      assert Inv(d);
      hide Inv, Lifecycle.Good;
      FewerKeepsCovers(s.sys.db, d, s.project, s.minted, s.sys.workers[s.me].todo, s.sys.workers[s.me].todo);
    }
  }

  lemma OtherKeepsGood(s: State, step: Lifecycle.Step)
    requires Good(s) && Enabled(s, Other(step)) && NameFree(s.sys, step)
    ensures Good(Do(s, Other(step)))
  {
    EveryStepKeepsGood(s.sys, step);
    if s.active {
      SecondGrant.OthersLeaveAlone(s.sys, step, s.me);
      if step.MintRole? { MintKeepsCovers(s, step); } else { OtherKeepsCovers(s, step); }
    }
    hide Lifecycle.Good, Lifecycle.Do, Covers, Lifecycle.Enabled;
  }

  lemma StepKeepsGood(s: State, step: Step)
    requires Good(s) && Enabled(s, step) && Safe(s, step)
    ensures Good(Do(s, step))
  {
    match step
    case Read(me, project, list) => ReadKeepsGood(s, me, project, list);
    case Other(step) => OtherKeepsGood(s, step);
    case Own(fault) =>
      if !AtBulk(s) { RetireKeepsGood(s, fault); }
      else if fault != Lost { BulkRecordsIff(s, fault); }
  }

  // --- Runs -------------------------------------------------------------------------------------------

  predicate Possible(s: State, steps: seq<Step>)
    decreases |steps|
  {
    steps == [] || (Enabled(s, steps[0]) && Possible(Do(s, steps[0]), steps[1..]))
  }

  function Run(s: State, steps: seq<Step>): State
    requires Possible(s, steps)
    decreases |steps|
  {
    if steps == [] then s else Run(Do(s, steps[0]), steps[1..])
  }

  predicate AllSafe(s: State, steps: seq<Step>)
    requires Possible(s, steps)
    decreases |steps|
  {
    steps == [] || (Safe(s, steps[0]) && AllSafe(Do(s, steps[0]), steps[1..]))
  }

  /** Over every interleaving of drops with sweepers, mints, deletes, clients, crashes and lost
      statements that is safe in this sense, every minted role has its row. */
  lemma {:induction false} EveryRunKeepsRolesRecorded(s: State, steps: seq<Step>)
    requires Good(s) && Possible(s, steps) && AllSafe(s, steps)
    ensures Good(Run(s, steps)) && MintedRolesRecorded(Run(s, steps).sys.db)
    decreases |steps|
  {
    if steps == [] {
      assert Run(s, steps) == s;
    } else {
      StepKeepsGood(s, steps[0]);
      hide Good, Enabled, Safe, Do;
      EveryRunKeepsRolesRecorded(Do(s, steps[0]), steps[1..]);
    }
  }

  /** Names are free, and no mint for the project commits while its drop is active. */
  predicate Quiet(s: State, steps: seq<Step>)
    requires Possible(s, steps)
    decreases |steps|
  {
    steps == [] ||
    ((steps[0].Other? ==> NameFree(s.sys, steps[0].step) &&
                          (s.active && Commits(s.sys, steps[0].step) ==> steps[0].step.project != s.project)) &&
     Quiet(Do(s, steps[0]), steps[1..]))
  }

  /** In particular drops are harmless while nothing is minted for their projects. */
  lemma {:induction false} QuietIsSafe(s: State, steps: seq<Step>)
    requires Possible(s, steps) && Quiet(s, steps) && (s.active ==> s.minted == {})
    ensures AllSafe(s, steps)
    decreases |steps|
  {
    if steps != [] {
      var t := Do(s, steps[0]);
      assert t.active ==> t.minted == {};
      hide Do, Enabled;
      QuietIsSafe(t, steps[1..]);
    }
  }
}
