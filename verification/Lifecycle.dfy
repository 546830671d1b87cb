/**
 Whole runs of the credential lifecycle: any number of sweepers, each stopped between any
 two of its statements, interleaved with mints, project creation and deletion, and clients
 creating objects while logged in as a minted role
 (internal/controlplane/tenancy/ephemeral.go:43-250).
 */
module Lifecycle {
  import opened Wrappers
  import opened Postgres
  import opened Ephemeral
  import ProjectDelete

  /** The round trip a sweeper makes next for the first name on its list. */
  datatype Stage =
    CheckExists | CheckRole | GrantRole | CheckTenant | GrantTenant | Reassign | ClearOwned | DropIt | ForgetRow

  /** One sweeper: what it still has to do, `now` the clock reading of its list, and `window`
      what was created as the first listed role since its REASSIGN. */
  datatype Worker = Worker(todo: seq<(Name, Name)>, stage: Stage, window: set<nat>, now: int)

  datatype System = System(db: DB, workers: map<nat, Worker>)

  datatype Step =
    | Begin(id: nat, now: int, list: seq<(Name, Name)>)
    | Advance(id: nat, fault: Fault)
    | Crash(id: nat)
    | MintRole(role: Name, project: nat, expires: int)
    | CreateProject(project: nat, role: Name, schema: Name)
    | DeleteProject(project: nat)
    | CreateObject(object_: nat, schema: Name, owner: Name)
    | GrantOnObject(object_: nat, role: Name)
    | DropObject(object_: nat)

  // --- The sweeper's program, one round trip at a time -------------------------------

  function NextName(w: Worker): Worker
    requires w.todo != []
  {
    Worker(w.todo[1..], CheckExists, {}, w.now)
  }

  /** A statement that runs moves on to `then_`; one that reports an error ends this name. */
  function Try(s: System, id: nat, stmt: Stmt, fault: Fault, then_: Worker): System
    requires id in s.workers && s.workers[id].todo != []
  {
    var r := Send(s.db, stmt, fault);
    System(r.0, s.workers[id := if r.1 then then_ else NextName(s.workers[id])])
  }

  function Look(s: System, id: nat, answered: bool, then_: Stage): System
    requires id in s.workers && s.workers[id].todo != []
  {
    var w := s.workers[id];
    s.(workers := s.workers[id := if answered then w.(stage := then_) else NextName(w)])
  }

  function DoAdvance(s: System, id: nat, fault: Fault): System
    requires id in s.workers && s.workers[id].todo != []
  {
    var w := s.workers[id];
    var (role, tenant) := w.todo[0];
    match w.stage
    case CheckExists => Look(s, id, fault.Delivered?, if role in s.db.roles then CheckRole else ForgetRow)
    case CheckRole => Look(s, id, fault.Delivered? && role in s.db.roles,
                           if HasPrivs(s.db, role) then CheckTenant else GrantRole)
    case GrantRole => Try(s, id, Grant(role), fault, w.(stage := CheckTenant))
    case CheckTenant => Look(s, id, fault.Delivered? && tenant in s.db.roles,
                             if HasPrivs(s.db, tenant) then Reassign else GrantTenant)
    case GrantTenant => Try(s, id, Grant(tenant), fault, w.(stage := Reassign))
    case Reassign => Try(s, id, ReassignOwned(role, tenant), fault, w.(stage := ClearOwned, window := {}))
    case ClearOwned => Try(s, id, Stmt.DropOwned(role), fault, w.(stage := DropIt))
    case DropIt => Try(s, id, Stmt.DropRole(role), fault, w.(stage := ForgetRow))
    case ForgetRow => Try(s, id, DeleteRow(role), fault, NextName(w))
  }

  // --- Everyone else -----------------------------------------------------------------

  predicate Pending(s: System, role: Name) {
    exists id, i :: id in s.workers && 0 <= i < |s.workers[id].todo| && s.workers[id].todo[i].0 == role
  }

  /** What the surroundings may do.  A mint or a delete that Postgres refuses is a step that
      changes nothing; a mint may draw any name that is no project's. */
  predicate Enabled(s: System, step: Step) {
    match step
    case Begin(id, now, list) =>
      (id in s.workers ==> s.workers[id].todo == []) &&
      RowsConsistent(s.db) && Lists(list, Eligible(s.db, now), s.db)
    case Advance(id, _) => id in s.workers && s.workers[id].todo != []
    case Crash(id) => id in s.workers
    case MintRole(role, project, _) => project in s.db.projects && NotAProjectRole(s.db, role)
    case CreateProject(p, role, schema) =>
      && p !in s.db.projects && role !in s.db.roles && schema !in s.db.schemas
      && NotAProjectRole(s.db, role) && (forall q :: q in s.db.projects ==> s.db.projects[q].pgSchema != schema)
      && role !in s.db.rows && !Pending(s, role)
    case DeleteProject(p) => ProjectDelete.Live(s.db, p)
    case CreateObject(o, schema, owner) => o !in s.db.objects && schema in s.db.schemas && owner in s.db.roles
    case GrantOnObject(o, role) => o in s.db.objects && role in s.db.roles
    case DropObject(o) => true
  }

  /** An object made as a role that a sweeper has already emptied falls into its window. */
  function Noticed(s: System, o: nat, owner: Name): map<nat, Worker> {
    map id | id in s.workers ::
      var w := s.workers[id];
      if w.todo != [] && w.todo[0].0 == owner then w.(window := w.window + {o}) else w
  }

  function Minted(s: System, role: Name, project: nat, expires: int): Reply
    requires project in s.db.projects
  {
    Mint(s.db, role, project, s.db.projects[project].pgRole, expires)
  }

  function Do(s: System, step: Step): System
    requires Enabled(s, step)
  {
    match step
    case Begin(id, now, list) => s.(workers := s.workers[id := Worker(list, CheckExists, {}, now)])
    case Advance(id, fault) => DoAdvance(s, id, fault)
    case Crash(id) => s.(workers := s.workers[id := s.workers[id].(todo := [])])
    case MintRole(role, project, expires) =>
      var r := Minted(s, role, project, expires);
      if r.Ran? then s.(db := r.db) else s
    case CreateProject(p, role, schema) =>
      s.(db := s.db.(projects := s.db.projects[p := Project(role, schema, false)],
                     roles := s.db.roles[role := None],
                     schemas := s.db.schemas[schema := role]))
    case DeleteProject(p) =>
      if ProjectDelete.Deletable(s.db, p) then s.(db := ProjectDelete.Deleted(s.db, p)) else s
    case CreateObject(o, schema, owner) =>
      System(s.db.(objects := s.db.objects[o := Object(schema, owner)]), Noticed(s, o, owner))
    case GrantOnObject(o, role) => s.(db := s.db.(privileges := s.db.privileges + {(o, role)}))
    case DropObject(o) => s.(db := WithoutObjects(s.db, {o}))
  }

  predicate Possible(s: System, steps: seq<Step>)
    decreases |steps|
  {
    steps == [] || (Enabled(s, steps[0]) && Possible(Do(s, steps[0]), steps[1..]))
  }

  function Run(s: System, steps: seq<Step>): System
    requires Possible(s, steps)
    decreases |steps|
  {
    if steps == [] then s else Run(Do(s, steps[0]), steps[1..])
  }

  // --- What is asked of the names that mints draw --------------------------------------

  predicate Commits(s: System, step: Step)
    requires Enabled(s, step)
  {
    step.MintRole? && Minted(s, step.role, step.project, step.expires).Ran?
  }

  /** A sweeper has found this role gone or dropped it, and forgets its row next. */
  predicate Forgetting(s: System, id: nat, role: Name) {
    id in s.workers && s.workers[id].todo != [] && s.workers[id].stage == ForgetRow && s.workers[id].todo[0].0 == role
  }

  /** No sweeper is about to forget the row of the name being minted. */
  predicate NameFree(s: System, step: Step)
    requires Enabled(s, step)
  {
    Commits(s, step) ==> forall id :: id in s.workers ==> !Forgetting(s, id, step.role)
  }

  /** Every sweeper that still lists the name would be right to retire the new role. */
  predicate NameHarmless(s: System, step: Step)
    requires Enabled(s, step)
  {
    Commits(s, step) ==> forall id, i :: id in s.workers && 0 <= i < |s.workers[id].todo| &&
                                         s.workers[id].todo[i].0 == step.role ==>
      && s.workers[id].todo[i].1 == s.db.projects[step.project].pgRole
      && step.expires < s.workers[id].now - SWEEP_GRACE
  }

  predicate NamesFree(s: System, steps: seq<Step>)
    requires Possible(s, steps)
    decreases |steps|
  {
    steps == [] || (NameFree(s, steps[0]) && NamesFree(Do(s, steps[0]), steps[1..]))
  }

  predicate NamesHarmless(s: System, steps: seq<Step>)
    requires Possible(s, steps)
    decreases |steps|
  {
    steps == [] || (NameHarmless(s, steps[0]) && NamesHarmless(Do(s, steps[0]), steps[1..]))
  }

  // --- What every run keeps ------------------------------------------------------------

  predicate SomeTenant(db: DB, name: Name) {
    exists p :: p in db.projects && db.projects[p].pgRole == name
  }

  /** A listed name that is a role is a minted one, listed with a project's role; by the time
      its row is to be forgotten the role is gone; and once its objects were handed over it
      owns only what has been created as it since. */
  predicate WorkerOk(db: DB, w: Worker) {
    && (forall i :: 0 <= i < |w.todo| && w.todo[i].0 in db.roles ==> db.roles[w.todo[i].0].Some?)
    && (forall i :: 0 <= i < |w.todo| ==> SomeTenant(db, w.todo[i].1))
    && (w.todo != [] && w.stage == ForgetRow ==> w.todo[0].0 !in db.roles)
    && (w.todo != [] && w.stage == ClearOwned ==> OwnedBy(db, w.todo[0].0) <= w.window)
  }

  predicate Good(s: System) {
    Inv(s.db) && forall id :: id in s.workers ==> WorkerOk(s.db, s.workers[id])
  }

  /** No role appears or changes, no project goes, no object appears, and only tenant roles
      gain objects. */
  predicate Shrinks(db: DB, d: DB) {
    && (forall r :: r in d.roles ==> r in db.roles && d.roles[r] == db.roles[r])
    && (forall p :: p in db.projects ==> p in d.projects && d.projects[p].pgRole == db.projects[p].pgRole)
    && (forall o :: o in d.objects ==>
          && o in db.objects
          && (d.objects[o].owner != db.objects[o].owner ==>
                d.objects[o].owner in d.roles && d.roles[d.objects[o].owner].None?))
  }

  lemma TenantStays(db: DB, d: DB, name: Name)
    requires SomeTenant(db, name)
    requires forall p :: p in db.projects ==> p in d.projects && d.projects[p].pgRole == db.projects[p].pgRole
    ensures SomeTenant(d, name)
  {
    var p :| p in db.projects && db.projects[p].pgRole == name;
    assert d.projects[p].pgRole == name;
  }

  /** A project's role is never a minted one. */
  lemma TenantIsNoLogin(db: DB, name: Name)
    requires Inv(db) && SomeTenant(db, name) && name in db.roles
    ensures db.roles[name].None?
  {
    var p :| p in db.projects && db.projects[p].pgRole == name;
    assert !db.projects[p].deleted;
  }

  lemma ShrinkKeepsWorker(db: DB, d: DB, w: Worker)
    requires Shrinks(db, d) && WorkerOk(db, w)
    ensures WorkerOk(d, w) && (w.todo != [] ==> WorkerOk(d, NextName(w)))
  {
    forall i | 0 <= i < |w.todo|
      ensures w.todo[i].0 in d.roles ==> d.roles[w.todo[i].0].Some?
      ensures SomeTenant(d, w.todo[i].1)
    {
      var r := w.todo[i].0;
      assert r in d.roles ==> d.roles[r] == db.roles[r];
      TenantStays(db, d, w.todo[i].1);
    }
    if w.todo != [] && w.stage == ClearOwned {
      forall o | o in OwnedBy(d, w.todo[0].0) ensures o in w.window {
        assert o in OwnedBy(db, w.todo[0].0);
      }
    }
  }

  lemma ShrinkKeepsGood(s: System, d: DB)
    requires Good(s) && Inv(d) && Shrinks(s.db, d)
    ensures Good(s.(db := d))
  {
    forall id | id in s.workers ensures WorkerOk(d, s.workers[id]) {
      ShrinkKeepsWorker(s.db, d, s.workers[id]);
    }
  }

  /** The statements a sweeper sends for a minted role keep the database consistent, whatever
      clients did in between. */
  lemma ReassignShrinks(db: DB, r: Name, t: Name)
    requires Inv(db) && (r in db.roles ==> db.roles[r].Some?) && SomeTenant(db, t)
    ensures var d := Exec(db, ReassignOwned(r, t));
            d.Ran? ==> Inv(d.db) && Shrinks(db, d.db) && OwnedBy(d.db, r) == {}
  {
    if Exec(db, ReassignOwned(r, t)).Ran? {
      TenantIsNoLogin(db, t);
      ReassignKeepsInv(db, r, t);
      hide Inv, HasPrivs;
    }
  }

  lemma DropOwnedShrinks(db: DB, r: Name)
    requires Inv(db)
    ensures var d := Exec(db, Stmt.DropOwned(r)); d.Ran? ==> Inv(d.db) && Shrinks(db, d.db)
  {
  }

  lemma DropRoleShrinks(db: DB, r: Name)
    requires Inv(db) && (r in db.roles ==> db.roles[r].Some?)
    ensures var d := Exec(db, Stmt.DropRole(r));
            d.Ran? ==> Inv(d.db) && Shrinks(db, d.db) && r !in d.db.roles
  {
    if r in db.roles && !Depended(db, r) {
      DropRoleKeepsInv(db, r);
    }
    hide Inv, Depended;
  }

  lemma TryKeepsGood(s: System, id: nat, stmt: Stmt, fault: Fault, then_: Worker)
    requires Good(s) && id in s.workers && s.workers[id].todo != []
    requires var d := Exec(s.db, stmt); d.Ran? ==> Inv(d.db) && Shrinks(s.db, d.db) && WorkerOk(d.db, then_)
    ensures Good(Try(s, id, stmt, fault, then_))
  {
    hide Exec, Inv, Shrinks, WorkerOk;
    var d := Send(s.db, stmt, fault).0;
    if d != s.db {
      forall other | other in s.workers
        ensures WorkerOk(d, s.workers[other]) && WorkerOk(d, NextName(s.workers[id]))
      {
        ShrinkKeepsWorker(s.db, d, s.workers[other]);
        ShrinkKeepsWorker(s.db, d, s.workers[id]);
      }
    } else {
      SkipOk(s.db, s.workers[id]);
    }
  }

  lemma SkipOk(db: DB, w: Worker)
    requires WorkerOk(db, w) && w.todo != []
    ensures WorkerOk(db, NextName(w))
  {
  }

  lemma LookKeepsGood(s: System, id: nat, answered: bool, then_: Stage)
    requires Good(s) && id in s.workers && s.workers[id].todo != []
    requires then_ != ClearOwned
    requires then_ == ForgetRow ==> s.workers[id].todo[0].0 !in s.db.roles
    ensures Good(Look(s, id, answered, then_))
  {
  }

  lemma AdvanceKeepsGood(s: System, id: nat, fault: Fault)
    requires Good(s) && Enabled(s, Advance(id, fault))
    ensures Good(DoAdvance(s, id, fault))
  {
    var w := s.workers[id];
    var (role, tenant) := w.todo[0];
    match w.stage
    case CheckExists => LookKeepsGood(s, id, fault.Delivered?, if role in s.db.roles then CheckRole else ForgetRow);
    case CheckRole => LookKeepsGood(s, id, fault.Delivered? && role in s.db.roles,
                                    if HasPrivs(s.db, role) then CheckTenant else GrantRole);
    case GrantRole => GrantKeepsGood(s, id, fault, role, CheckTenant);
    case CheckTenant => LookKeepsGood(s, id, fault.Delivered? && tenant in s.db.roles,
                                      if HasPrivs(s.db, tenant) then Reassign else GrantTenant);
    case GrantTenant => GrantKeepsGood(s, id, fault, tenant, Reassign);
    case Reassign => HandOverKeepsGood(s, id, fault);
    case ClearOwned => ClearKeepsGood(s, id, fault);
    case DropIt => DropKeepsGood(s, id, fault);
    case ForgetRow => ForgetKeepsGood(s, id, fault);
  }

  lemma HandOverKeepsGood(s: System, id: nat, fault: Fault)
    requires Good(s) && id in s.workers && s.workers[id].todo != []
    ensures var w := s.workers[id];
            Good(Try(s, id, ReassignOwned(w.todo[0].0, w.todo[0].1), fault,
                     w.(stage := ClearOwned, window := {})))
  {
    var w := s.workers[id];
    var (role, tenant) := w.todo[0];
    ReassignShrinks(s.db, role, tenant);
    ShrinkKeepsTodo(s.db, Exec(s.db, ReassignOwned(role, tenant)), w);
    TryKeepsGood(s, id, ReassignOwned(role, tenant), fault, w.(stage := ClearOwned, window := {}));
  }

  lemma ForgetKeepsGood(s: System, id: nat, fault: Fault)
    requires Good(s) && id in s.workers && s.workers[id].todo != [] && s.workers[id].stage == ForgetRow
    ensures Good(Try(s, id, DeleteRow(s.workers[id].todo[0].0), fault, NextName(s.workers[id])))
  {
    var w := s.workers[id];
    var r := w.todo[0].0;
    assert WorkerOk(s.db, w);
    DeleteRowKeepsInv(s.db, r);
    ShrinkKeepsWorker(s.db, s.db.(rows := s.db.rows - {r}), w);
    hide WorkerOk, Inv, Try;
    TryKeepsGood(s, id, DeleteRow(r), fault, NextName(w));
  }

  lemma GrantKeepsGood(s: System, id: nat, fault: Fault, role: Name, then_: Stage)
    requires Good(s) && id in s.workers && s.workers[id].todo != []
    requires then_ == CheckTenant || then_ == Reassign
    ensures Good(Try(s, id, Grant(role), fault, s.workers[id].(stage := then_)))
  {
    TryKeepsGood(s, id, Grant(role), fault, s.workers[id].(stage := then_));
  }

  lemma ClearKeepsGood(s: System, id: nat, fault: Fault)
    requires Good(s) && id in s.workers && s.workers[id].todo != []
    ensures var w := s.workers[id];
            Good(Try(s, id, Stmt.DropOwned(w.todo[0].0), fault, w.(stage := DropIt)))
  {
    var w := s.workers[id];
    DropOwnedShrinks(s.db, w.todo[0].0);
    ShrinkKeepsTodo(s.db, Exec(s.db, Stmt.DropOwned(w.todo[0].0)), w);
    TryKeepsGood(s, id, Stmt.DropOwned(w.todo[0].0), fault, w.(stage := DropIt));
  }

  lemma DropKeepsGood(s: System, id: nat, fault: Fault)
    requires Good(s) && id in s.workers && s.workers[id].todo != []
    ensures var w := s.workers[id];
            Good(Try(s, id, Stmt.DropRole(w.todo[0].0), fault, w.(stage := ForgetRow)))
  {
    var w := s.workers[id];
    DropRoleShrinks(s.db, w.todo[0].0);
    ShrinkKeepsTodo(s.db, Exec(s.db, Stmt.DropRole(w.todo[0].0)), w);
    TryKeepsGood(s, id, Stmt.DropRole(w.todo[0].0), fault, w.(stage := ForgetRow));
  }

  lemma ShrinkKeepsTodo(db: DB, d: Reply, w: Worker)
    requires WorkerOk(db, w) && (d.Ran? ==> Shrinks(db, d.db))
    ensures d.Ran? ==> forall i :: 0 <= i < |w.todo| ==>
              SomeTenant(d.db, w.todo[i].1) && (w.todo[i].0 in d.db.roles ==> d.db.roles[w.todo[i].0].Some?)
  {
    if d.Ran? { ShrinkKeepsWorker(db, d.db, w); }
  }

  lemma MintKeepsGood(s: System, step: Step)
    requires Good(s) && Enabled(s, step) && step.MintRole? && NameFree(s, step)
    ensures Good(Do(s, step))
  {
    var r := Minted(s, step.role, step.project, step.expires);
    if r.Ran? {
      MintRecords(s.db, step.role, step.project, step.expires);
      NewRoleKeepsWorkers(s, r.db, step.role);
    }
  }

  /** A new login that no sweeper is about to forget, or a new role that none lists. */
  lemma NewRoleKeepsWorkers(s: System, d: DB, role: Name)
    requires Good(s) && d.objects == s.db.objects && role in d.roles
    requires !Pending(s, role) || (d.roles[role].Some? && forall id :: id in s.workers ==> !Forgetting(s, id, role))
    requires forall r :: r in d.roles && r != role ==> r in s.db.roles && d.roles[r] == s.db.roles[r]
    requires forall p :: p in s.db.projects ==> p in d.projects && d.projects[p].pgRole == s.db.projects[p].pgRole
    ensures forall id :: id in s.workers ==> WorkerOk(d, s.workers[id])
  {
    forall id | id in s.workers ensures WorkerOk(d, s.workers[id]) {
      var w := s.workers[id];
      assert WorkerOk(s.db, w);
      forall i | 0 <= i < |w.todo|
        ensures SomeTenant(d, w.todo[i].1) && (w.todo[i].0 in d.roles ==> d.roles[w.todo[i].0].Some?)
      {
        TenantStays(s.db, d, w.todo[i].1);
        var r := w.todo[i].0;
        assert r == role ==> Pending(s, role);
      }
      if w.todo != [] {
        assert OwnedBy(d, w.todo[0].0) == OwnedBy(s.db, w.todo[0].0);
        assert w.todo[0].0 == role ==> Pending(s, role);
        assert w.stage == ForgetRow ==> Forgetting(s, id, w.todo[0].0);
      }
    }
  }

  lemma CreateProjectKeepsGood(s: System, p: nat, role: Name, schema: Name)
    requires Good(s) && Enabled(s, CreateProject(p, role, schema))
    ensures Good(Do(s, CreateProject(p, role, schema)))
  {
    var d := Do(s, CreateProject(p, role, schema)).db;
    NewRoleKeepsWorkers(s, d, role);
    assert RowsConsistent(d) && MintedRolesRecorded(d);
    assert ProjectsConsistent(d);
    assert OwnershipConsistent(d);
  }

  lemma CreateObjectKeepsGood(s: System, o: nat, schema: Name, owner: Name)
    requires Good(s) && Enabled(s, CreateObject(o, schema, owner))
    ensures Good(Do(s, CreateObject(o, schema, owner)))
  {
    var t := Do(s, CreateObject(o, schema, owner));
    CreateObjectKeepsInv(s.db, o, schema, owner);
    forall id | id in t.workers ensures WorkerOk(t.db, t.workers[id]) {
      CreateObjectKeepsWorker(s.db, s.workers[id], o, schema, owner);
    }
  }

  lemma CreateObjectKeepsInv(db: DB, o: nat, schema: Name, owner: Name)
    requires Inv(db) && o !in db.objects && schema in db.schemas && owner in db.roles
    ensures Inv(db.(objects := db.objects[o := Object(schema, owner)]))
  {
  }

  lemma CreateObjectKeepsWorker(db: DB, w: Worker, o: nat, schema: Name, owner: Name)
    requires WorkerOk(db, w)
    ensures var d := db.(objects := db.objects[o := Object(schema, owner)]);
            WorkerOk(d, if w.todo != [] && w.todo[0].0 == owner then w.(window := w.window + {o}) else w)
  {
    var d := db.(objects := db.objects[o := Object(schema, owner)]);
    forall i | 0 <= i < |w.todo| ensures SomeTenant(d, w.todo[i].1) {
      TenantStays(db, d, w.todo[i].1);
    }
    if w.todo != [] {
      assert forall x :: x in OwnedBy(d, w.todo[0].0) ==>
        x in OwnedBy(db, w.todo[0].0) || (x == o && owner == w.todo[0].0);
    }
  }

  lemma BeginKeepsGood(s: System, id: nat, now: int, list: seq<(Name, Name)>)
    requires Good(s) && Enabled(s, Begin(id, now, list))
    ensures Good(Do(s, Begin(id, now, list)))
  {
    forall i | 0 <= i < |list|
      ensures SomeTenant(s.db, list[i].1) && (list[i].0 in s.db.roles ==> s.db.roles[list[i].0].Some?)
    {
      var r := list[i].0;
      assert r in s.db.rows && s.db.projects[s.db.rows[r].project].pgRole == list[i].1;
    }
  }

  lemma EveryStepKeepsGood(s: System, step: Step)
    requires Good(s) && Enabled(s, step) && NameFree(s, step)
    ensures Good(Do(s, step))
  {
    match step
    case Begin(id, now, list) => BeginKeepsGood(s, id, now, list);
    case Advance(id, fault) => AdvanceKeepsGood(s, id, fault);
    case Crash(id) => assert WorkerOk(s.db, s.workers[id]);
    case MintRole(_, _, _) => MintKeepsGood(s, step);
    case CreateProject(p, role, schema) => CreateProjectKeepsGood(s, p, role, schema);
    case DeleteProject(p) =>
      if ProjectDelete.Deletable(s.db, p) {
        ProjectDelete.DeletedIsClean(s.db, p);
        ShrinkKeepsGood(s, ProjectDelete.Deleted(s.db, p));
      }
    case CreateObject(o, schema, owner) => CreateObjectKeepsGood(s, o, schema, owner);
    case GrantOnObject(o, role) => ShrinkKeepsGood(s, Do(s, step).db);
    case DropObject(o) => ShrinkKeepsGood(s, Do(s, step).db);
  }

  /** An empty cluster, with pwrapd's login a superuser or not. */
  function Fresh(super: bool): System {
    System(DB(map[], super, {}, map[], map[], {}, map[], map[], map[]), map[])
  }

  lemma FreshClusterIsGood(super: bool)
    ensures Good(Fresh(super))
  {
  }

  /** Over every run whose mints draw free names, every minted role that exists is recorded, so
      no later sweep misses it. */
  lemma {:induction false} EveryRunKeepsRolesRecorded(s: System, steps: seq<Step>)
    requires Good(s) && Possible(s, steps) && NamesFree(s, steps)
    ensures Good(Run(s, steps)) && MintedRolesRecorded(Run(s, steps).db)
    decreases |steps|
  {
    if steps != [] {
      EveryStepKeepsGood(s, steps[0]);
      hide Good, Enabled, NameFree;
      EveryRunKeepsRolesRecorded(Do(s, steps[0]), steps[1..]);
    } else {
      assert Run(s, steps) == s;
    }
  }

  /** And exactly then: a mint keeps roles recorded over everything that may follow if and only if
      its name is free. */
  lemma RecordedIffNameFree(s: System, role: Name, project: nat, expires: int)
    requires Good(s) && Enabled(s, MintRole(role, project, expires))
    ensures var mint := MintRole(role, project, expires);
            var t := Do(s, mint);
            (forall steps :: Possible(t, steps) && NamesFree(t, steps) ==> MintedRolesRecorded(Run(t, steps).db))
            <==> NameFree(s, mint)
  {
    var mint := MintRole(role, project, expires);
    var t := Do(s, mint);
    if NameFree(s, mint) {
      EveryStepKeepsGood(s, mint);
      forall steps | Possible(t, steps) && NamesFree(t, steps) ensures MintedRolesRecorded(Run(t, steps).db) {
        EveryRunKeepsRolesRecorded(t, steps);
      }
    } else {
      var id :| id in s.workers && Forgetting(s, id, role);
      OneStep(t, Advance(id, Delivered));
      ForgottenAtOnce(s, mint, id);
    }
  }

  lemma OneStep(s: System, step: Step)
    requires Enabled(s, step)
    ensures Possible(s, [step]) && Run(s, [step]) == Do(s, step)
    ensures NameFree(s, step) ==> NamesFree(s, [step])
    ensures NameHarmless(s, step) ==> NamesHarmless(s, [step])
  {
    assert [step][1..] == [];
    assert Run(Do(s, step), []) == Do(s, step);
  }

  /** A sweeper that is about to forget a row forgets that of a new role of the same name. */
  lemma ForgottenAtOnce(s: System, mint: Step, id: nat)
    requires Good(s) && Enabled(s, mint) && Commits(s, mint) && Forgetting(s, id, mint.role)
    ensures var d := DoAdvance(Do(s, mint), id, Delivered).db;
            mint.role in d.roles && d.roles[mint.role].Some? && mint.role !in d.rows && !MintedRolesRecorded(d)
  {
  }

  /** Consequently an expired role of any reachable state is on the next sweep's list. */
  lemma NoRoleEscapes(s: System, steps: seq<Step>, r: Name, now: int)
    requires Good(s) && Possible(s, steps) && NamesFree(s, steps)
    requires var db := Run(s, steps).db;
             r in db.roles && db.roles[r].Some? && (r in db.rows ==> db.rows[r].expires < now - SWEEP_GRACE)
    ensures r in Eligible(Run(s, steps).db, now)
  {
    EveryRunKeepsRolesRecorded(s, steps);
  }

  /** Over every run, an object that a sweeper's statement destroys was created, as the very
      role being retired, after that sweeper had handed the role's objects over. */
  lemma SweeperLosesOnlyLateObjects(s: System, steps: seq<Step>, id: nat, fault: Fault)
    requires Good(s) && Possible(s, steps) && NamesFree(s, steps)
    requires Enabled(Run(s, steps), Advance(id, fault))
    ensures var t := Run(s, steps);
            var w := t.workers[id];
            forall o :: o in t.db.objects && o !in DoAdvance(t, id, fault).db.objects ==>
              w.stage == ClearOwned && o in w.window && t.db.objects[o].owner == w.todo[0].0
  {
    EveryRunKeepsRolesRecorded(s, steps);
    OnlyClearingLoses(Run(s, steps), id, fault);
  }

  /** The statement a sweeper sends at each stage that sends one. */
  function Sent(w: Worker): Option<Stmt>
    requires w.todo != []
  {
    match w.stage
    case GrantRole => Some(Grant(w.todo[0].0))
    case GrantTenant => Some(Grant(w.todo[0].1))
    case Reassign => Some(ReassignOwned(w.todo[0].0, w.todo[0].1))
    case ClearOwned => Some(Stmt.DropOwned(w.todo[0].0))
    case DropIt => Some(Stmt.DropRole(w.todo[0].0))
    case ForgetRow => Some(DeleteRow(w.todo[0].0))
    case _ => None
  }

  lemma AdvanceSends(s: System, id: nat, fault: Fault)
    requires Enabled(s, Advance(id, fault))
    ensures var stmt := Sent(s.workers[id]);
            DoAdvance(s, id, fault).db == if stmt.Some? then Send(s.db, stmt.value, fault).0 else s.db
  {
    hide Send, HasPrivs;
  }

  /** Only DROP OWNED loses objects, and only those of its role. */
  lemma StatementLoses(db: DB, stmt: Stmt, fault: Fault)
    requires !stmt.DropSchema?
    ensures forall o :: o in db.objects ==>
              (o !in Send(db, stmt, fault).0.objects <==>
                 && stmt.DropOwned? && fault != Lost && stmt.role in db.roles && HasPrivs(db, stmt.role)
                 && db.objects[o].owner == stmt.role)
  {
    hide HasPrivs, Depended;
  }

  /** One round trip of a sweeper destroys an object if and only if it is a DROP OWNED that arrives
      and is permitted, and the listed role owns the object. */
  lemma ObjectGoesIff(s: System, id: nat, fault: Fault, o: nat)
    requires Good(s) && Enabled(s, Advance(id, fault)) && o in s.db.objects
    ensures var w := s.workers[id];
            o !in DoAdvance(s, id, fault).db.objects <==>
              && w.stage == ClearOwned && fault != Lost && HasPrivs(s.db, w.todo[0].0)
              && s.db.objects[o].owner == w.todo[0].0
  {
    var stmt := Sent(s.workers[id]);
    assert s.db.objects[o].owner in s.db.roles;
    AdvanceSends(s, id, fault);
    hide DoAdvance, Send, HasPrivs, Inv, WorkerOk;
    if stmt.Some? { StatementLoses(s.db, stmt.value, fault); }
  }

  lemma OnlyClearingLoses(t: System, id: nat, fault: Fault)
    requires Good(t) && Enabled(t, Advance(id, fault))
    ensures var w := t.workers[id];
            forall o :: o in t.db.objects && o !in DoAdvance(t, id, fault).db.objects ==>
              w.stage == ClearOwned && o in w.window && t.db.objects[o].owner == w.todo[0].0
  {
    var w := t.workers[id];
    assert WorkerOk(t.db, w);
    hide Inv, HasPrivs, DoAdvance;
    forall o | o in t.db.objects && o !in DoAdvance(t, id, fault).db.objects
      ensures w.stage == ClearOwned && o in w.window && t.db.objects[o].owner == w.todo[0].0
    {
      ObjectGoesIff(t, id, fault, o);
      assert o in OwnedBy(t.db, w.todo[0].0);
    }
  }

  /** So an object created as the role between the two statements is destroyed by a DROP OWNED that
      arrives, acknowledged or not. */
  lemma LateObjectsAreLost(s: System, id: nat, o: nat, fault: Fault)
    requires Good(s) && Enabled(s, Advance(id, fault)) && s.workers[id].stage == ClearOwned && fault != Lost
    requires o in s.db.objects && s.db.objects[o].owner == s.workers[id].todo[0].0
    requires HasPrivs(s.db, s.workers[id].todo[0].0)
    ensures o !in DoAdvance(s, id, fault).db.objects
  {
    ObjectGoesIff(s, id, fault, o);
    hide DoAdvance, Inv, WorkerOk;
  }

  /** The first project of a cluster whose administrator is no superuser cannot be deleted as long as
      nothing has been granted to that login. */
  lemma FirstProjectUndeletable(role: Name, schema: Name)
    ensures var create := CreateProject(0, role, schema);
            Enabled(Fresh(false), create) &&
            var s := Do(Fresh(false), create);
            && Enabled(s, DeleteProject(0)) && Do(s, DeleteProject(0)) == s
            && !ProjectDelete.HoldsElsewhere(s.db, 0) && !ProjectDelete.Deletable(s.db, 0)
  {
    var s := Do(Fresh(false), CreateProject(0, role, schema));
    CreateProjectKeepsGood(Fresh(false), 0, role, schema);
    ProjectDelete.PlainLoginDeletesNothing(s.db, 0);
  }
}
