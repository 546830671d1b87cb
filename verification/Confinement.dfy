/**
 Projects that keep to their own schemas, over whole runs, and what that means for deleting them
 (internal/controlplane/projects/service.go:195-263; internal/controlplane/tenancy/ephemeral.go:201-231).
 */
module Confinement {
  import opened Wrappers
  import opened Postgres
  import opened Ephemeral
  import opened Lifecycle
  import opened Conservation
  import opened ProjectDelete

  /** Clients create objects, and get privileges on objects, only in their own project's schema. */
  predicate Inside(s: System, step: Step)
    requires Enabled(s, step)
  {
    match step
    case CreateObject(_, schema, owner) =>
      forall p :: p in s.db.projects && BelongsTo(s.db, owner, p) ==> schema == s.db.projects[p].pgSchema
    case GrantOnObject(o, role) =>
      forall p :: p in s.db.projects && BelongsTo(s.db, role, p) ==>
        s.db.objects[o].schema == s.db.projects[p].pgSchema
    case _ => true
  }

  predicate AllInside(s: System, steps: seq<Step>)
    requires Possible(s, steps)
    decreases |steps|
  {
    steps == [] || (Inside(s, steps[0]) && AllInside(Do(s, steps[0]), steps[1..]))
  }

  /** The same projects; of roles, schemas, objects and privileges some are gone. */
  predicate Remains(db: DB, d: DB) {
    && d.projects.Keys == db.projects.Keys
    && (forall p :: p in db.projects ==>
          d.projects[p].pgRole == db.projects[p].pgRole && d.projects[p].pgSchema == db.projects[p].pgSchema)
    && (forall r :: r in d.roles ==> r in db.roles && d.roles[r] == db.roles[r])
    && (forall x :: x in d.schemas ==> x in db.schemas && d.schemas[x] == db.schemas[x])
    && (forall o :: o in d.objects ==> o in db.objects && d.objects[o] == db.objects[o])
    && d.privileges <= db.privileges
  }

  lemma RemainsConfined(db: DB, d: DB)
    requires Confined(db) && Remains(db, d)
    ensures Confined(d)
  {
    forall p, role | p in d.projects && BelongsTo(d, role, p) ensures BelongsTo(db, role, p) {}
    forall p, q | p in d.projects && q in d.privileges && q.0 in d.objects && BelongsTo(d, q.1, p)
      ensures d.objects[q.0].schema == d.projects[p].pgSchema
    {
      assert q in db.privileges && BelongsTo(db, q.1, p);
    }
  }

  // --- Sweepers ------------------------------------------------------------------------------------

  lemma StatementPrivileges(db: DB, stmt: Stmt, fault: Fault)
    ensures Send(db, stmt, fault).0.privileges <= db.privileges
  {
    hide HasPrivs, Depended;
  }

  lemma AdvanceKeepsConfined(s: System, id: nat, fault: Fault)
    requires Good(s) && AllMeant(s) && Confined(s.db) && Enabled(s, Advance(id, fault))
    ensures Confined(DoAdvance(s, id, fault).db)
  {
    var t, w := DoAdvance(s, id, fault), s.workers[id];
    AdvanceConserves(s, id, fault);
    AdvanceTakesAtMostHead(s, id, fault);
    AdvanceSends(s, id, fault);
    assert t.db.privileges <= s.db.privileges by {
      if Sent(w).Some? { StatementPrivileges(s.db, Sent(w).value, fault); }
    }
    assert WorkerOk(s.db, w);
    var (role, tenant) := w.todo[0];
    assert tenant in s.db.roles ==> s.db.roles[tenant].None? by {
      if tenant in s.db.roles { TenantIsNoLogin(s.db, tenant); }
    }
    hide DoAdvance, Send, Inv, WorkerOk, AllMeant;
    HandedOverConfined(s, id, t);
  }

  lemma HandedOverConfined(s: System, id: nat, t: System)
    requires id in s.workers && s.workers[id].todo != [] && Confined(s.db) && Conserves(s, id, t)
    requires t.db.privileges <= s.db.privileges && Fewer(s.db, t.db)
    requires var tenant := s.workers[id].todo[0].1; tenant in s.db.roles ==> s.db.roles[tenant].None?
    ensures Confined(t.db)
  {
    forall p, o | p in t.db.projects && o in t.db.objects && BelongsTo(t.db, t.db.objects[o].owner, p)
      ensures t.db.objects[o].schema == t.db.projects[p].pgSchema
    {
      assert BelongsTo(s.db, s.db.objects[o].owner, p);
    }
    forall p, q | p in t.db.projects && q in t.db.privileges && q.0 in t.db.objects && BelongsTo(t.db, q.1, p)
      ensures t.db.objects[q.0].schema == t.db.projects[p].pgSchema
    {
      assert q in s.db.privileges && BelongsTo(s.db, q.1, p);
    }
  }

  // --- Everybody else -------------------------------------------------------------------------------

  lemma MintKeepsConfined(s: System, step: Step)
    requires Good(s) && Confined(s.db) && step.MintRole? && Enabled(s, step)
    ensures Confined(Do(s, step).db)
  {
    var db, d := s.db, Do(s, step).db;
    forall p, role | p in d.projects && BelongsTo(d, role, p) ensures role in db.roles ==> BelongsTo(db, role, p) {}
    forall p, o | p in d.projects && o in d.objects && BelongsTo(d, d.objects[o].owner, p)
      ensures d.objects[o].schema == d.projects[p].pgSchema
    {
      assert d.objects[o].owner in db.roles;
    }
    forall p, q | p in d.projects && q in d.privileges && q.0 in d.objects && BelongsTo(d, q.1, p)
      ensures d.objects[q.0].schema == d.projects[p].pgSchema
    {
      assert q.1 in db.roles && BelongsTo(db, q.1, p);
    }
  }

  lemma CreateProjectKeepsConfined(s: System, n: nat, role: Name, schema: Name)
    requires Good(s) && Confined(s.db) && Enabled(s, CreateProject(n, role, schema))
    ensures Confined(Do(s, CreateProject(n, role, schema)).db)
  {
    var db, d := s.db, Do(s, CreateProject(n, role, schema)).db;
    forall p, r | p in d.projects && r in db.roles && BelongsTo(d, r, p) ensures p != n && BelongsTo(db, r, p) {
      assert db.roles[r].Some? ==> db.roles[r].value == db.projects[db.rows[r].project].pgRole;
    }
    forall p, o | p in d.projects && o in d.objects && BelongsTo(d, d.objects[o].owner, p)
      ensures d.objects[o].schema == d.projects[p].pgSchema
    {
      assert d.objects[o].owner in db.roles;
    }
    forall p, q | p in d.projects && q in d.privileges && q.0 in d.objects && BelongsTo(d, q.1, p)
      ensures d.objects[q.0].schema == d.projects[p].pgSchema
    {
      assert q.1 in db.roles && BelongsTo(db, q.1, p);
    }
    forall p, x | p in d.projects && x in d.schemas && d.schemas[x] == d.projects[p].pgRole
      ensures x == d.projects[p].pgSchema
    {
      if x != schema { assert db.schemas[x] in db.roles; }
    }
  }

  lemma CreateObjectKeepsConfined(s: System, step: Step)
    requires Good(s) && Confined(s.db) && step.CreateObject? && Enabled(s, step) && Inside(s, step)
    ensures Confined(Do(s, step).db)
  {
    var db, d := s.db, Do(s, step).db;
    forall p, role | p in d.projects ensures BelongsTo(d, role, p) <==> BelongsTo(db, role, p) {}
    forall p, q | p in d.projects && q in d.privileges && q.0 in d.objects && BelongsTo(d, q.1, p)
      ensures d.objects[q.0].schema == d.projects[p].pgSchema
    {
      assert q in db.privileges && q.0 in db.objects && BelongsTo(db, q.1, p);
    }
  }

  lemma GrantKeepsConfined(s: System, step: Step)
    requires Confined(s.db) && step.GrantOnObject? && Enabled(s, step) && Inside(s, step)
    ensures Confined(Do(s, step).db)
  {
    var db, d := s.db, Do(s, step).db;
    forall p, role | p in d.projects ensures BelongsTo(d, role, p) <==> BelongsTo(db, role, p) {}
    forall p, q | p in d.projects && q in d.privileges && q.0 in d.objects && BelongsTo(d, q.1, p)
      ensures d.objects[q.0].schema == d.projects[p].pgSchema
    {
      assert BelongsTo(db, q.1, p);
    }
  }

  lemma DeleteKeepsConfined(s: System, p: nat)
    requires Confined(s.db) && Enabled(s, DeleteProject(p))
    ensures Confined(Do(s, DeleteProject(p)).db)
  {
    if Deletable(s.db, p) {
      assert Remains(s.db, Deleted(s.db, p));
      RemainsConfined(s.db, Deleted(s.db, p));
    }
  }

  lemma StepKeepsConfined(s: System, step: Step)
    requires Good(s) && AllMeant(s) && Confined(s.db) && Enabled(s, step) && Inside(s, step)
    ensures Confined(Do(s, step).db)
  {
    match step
    case Advance(id, fault) => AdvanceKeepsConfined(s, id, fault);
    case MintRole(_, _, _) => MintKeepsConfined(s, step);
    case CreateProject(p, role, schema) => CreateProjectKeepsConfined(s, p, role, schema);
    case CreateObject(_, _, _) => CreateObjectKeepsConfined(s, step);
    case GrantOnObject(_, _) => GrantKeepsConfined(s, step);
    case DeleteProject(p) => DeleteKeepsConfined(s, p);
    case DropObject(o) => RemainsConfined(s.db, WithoutObjects(s.db, {o}));
    case Begin(_, _, _) =>
    case Crash(_) =>
  }

  /** Over every run whose clients keep inside (and whose names are free and harmless), projects stay
      confined; so a delete at any time goes through if and only if pwrapd's login has the privileges
      for the schema, and otherwise changes nothing. */
  lemma {:induction false} DeletesGoThroughIff(s: System, steps: seq<Step>, p: nat)
    requires Good(s) && AllMeant(s) && Confined(s.db)
    requires Possible(s, steps) && NamesFree(s, steps) && NamesHarmless(s, steps) && AllInside(s, steps)
    ensures var t := Run(s, steps);
            && Confined(t.db)
            && (Live(t.db, p) ==>
                  && Enabled(t, DeleteProject(p))
                  && Do(t, DeleteProject(p)).db
                     == if HasPrivs(t.db, t.db.projects[p].pgRole) then Deleted(t.db, p) else t.db)
    decreases |steps|
  {
    if steps == [] {
      assert Run(s, steps) == s;
      if Live(s.db, p) { ConfinedRefusedIffUnprivileged(s.db, p); }
    } else {
      EveryStepKeepsGood(s, steps[0]);
      StepKeepsMeant(s, steps[0]);
      StepKeepsConfined(s, steps[0]);
      hide Good, AllMeant, Enabled, NameFree, NameHarmless, Inside, Confined, Do;
      DeletesGoThroughIff(Do(s, steps[0]), steps[1..], p);
    }
  }

  lemma FreshIsConfined(super: bool)
    ensures Confined(Fresh(super).db) && AllMeant(Fresh(super))
  {
  }
}
