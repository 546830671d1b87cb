/**
 When retireRole's second membership check leads to a grant
 (internal/controlplane/tenancy/ephemeral.go:194-217, 233-250).  The two checks are separate round
 trips: the second passes because of what the first one found, unless the login has gone since.
 */
module SecondGrant {
  import opened Wrappers
  import opened Postgres
  import opened Ephemeral
  import opened Lifecycle
  import opened Conservation

  /** A login's privileges come from the superuser or from its own membership. */
  lemma LoginPrivs(db: DB, r: Name)
    requires Inv(db) && r in db.roles && db.roles[r].Some?
    ensures HasPrivs(db, r) <==> db.super || r in db.granted
  {
  }

  // --- As long as the login is there ---------------------------------------------------------------

  /** The privileges on a login, and its tenant, stay for as long as the login does. */
  lemma PrivsStay(s: System, step: Step, r: Name)
    requires Good(s) && Enabled(s, step) && NameFree(s, step)
    requires r in s.db.roles && s.db.roles[r].Some? && HasPrivs(s.db, r) && r in Do(s, step).db.roles
    ensures Do(s, step).db.roles[r] == s.db.roles[r] && HasPrivs(Do(s, step).db, r)
  {
    LoginPrivs(s.db, r);
    hide Inv, WorkerOk, HasPrivs;
    var t := Do(s, step);
    assert t.db.super == s.db.super && (r in s.db.granted ==> r in t.db.granted) && t.db.roles[r] == s.db.roles[r] by {
      if step.Advance? { AdvanceKeepsMembership(s, step.id, step.fault, r); }
    }
    assert HasPrivs(t.db, r) by { ByMembership(t.db, r); }
  }

  lemma ByMembership(db: DB, r: Name)
    requires db.super || r in db.granted
    ensures HasPrivs(db, r)
  {
  }

  lemma StatementKeepsMembership(db: DB, stmt: Stmt, fault: Fault, r: Name)
    requires r in db.roles && r in Send(db, stmt, fault).0.roles
    ensures var d := Send(db, stmt, fault).0;
            d.super == db.super && d.roles[r] == db.roles[r] && (r in db.granted ==> r in d.granted)
  {
    hide HasPrivs, Depended;
  }

  lemma AdvanceKeepsMembership(s: System, id: nat, fault: Fault, r: Name)
    requires Enabled(s, Advance(id, fault)) && r in s.db.roles && r in DoAdvance(s, id, fault).db.roles
    ensures var d := DoAdvance(s, id, fault).db;
            d.super == s.db.super && d.roles[r] == s.db.roles[r] && (r in s.db.granted ==> r in d.granted)
  {
    AdvanceSends(s, id, fault);
    hide DoAdvance, Send;
    if Sent(s.workers[id]).Some? {
      StatementKeepsMembership(s.db, Sent(s.workers[id]).value, fault, r);
    }
  }

  // --- In general: only if the login went away -----------------------------------------------------

  /** Steps that are none of this sweeper's own. */
  predicate Others(id: nat, steps: seq<Step>) {
    forall i :: 0 <= i < |steps| ==>
      (steps[i].Advance? || steps[i].Crash? || steps[i].Begin?) ==> steps[i].id != id
  }

  /** The role is there all the time. */
  predicate Present(s: System, steps: seq<Step>, r: Name)
    requires Possible(s, steps)
    decreases |steps|
  {
    r in s.db.roles && (steps != [] ==> Present(Do(s, steps[0]), steps[1..], r))
  }

  lemma OthersLeaveAlone(s: System, step: Step, id: nat)
    requires Enabled(s, step) && id in s.workers && Others(id, [step])
    ensures var t := Do(s, step);
            id in t.workers && t.workers[id].todo == s.workers[id].todo && t.workers[id].stage == s.workers[id].stage
  {
    assert [step][0] == step;
    if step.Advance? {
      AdvanceTakesAtMostHead(s, step.id, step.fault);
      hide DoAdvance;
    }
  }

  lemma {:induction false} StaysPrivileged(s: System, steps: seq<Step>, id: nat, r: Name)
    requires Good(s) && Possible(s, steps) && NamesFree(s, steps) && Others(id, steps) && Present(s, steps, r)
    requires id in s.workers && s.db.roles[r].Some? && HasPrivs(s.db, r)
    ensures var t := Run(s, steps);
            && Good(t) && r in t.db.roles && t.db.roles[r] == s.db.roles[r] && HasPrivs(t.db, r)
            && id in t.workers && t.workers[id].todo == s.workers[id].todo && t.workers[id].stage == s.workers[id].stage
    decreases |steps|
  {
    if steps == [] {
      assert Run(s, steps) == s;
    } else {
      var step := steps[0];
      assert Others(id, [step]) && Others(id, steps[1..]);
      assert Present(Do(s, step), steps[1..], r);
      assert r in Do(s, step).db.roles;
      EveryStepKeepsGood(s, step);
      PrivsStay(s, step, r);
      OthersLeaveAlone(s, step, id);
      hide Good, Enabled, NameFree, Do, HasPrivs;
      StaysPrivileged(Do(s, step), steps[1..], id, r);
    }
  }

  /** The first check leaves its sweeper with the login's privileges. */
  lemma FirstCheckPrivileges(s: System, id: nat, fault: Fault)
    requires Good(s) && Enabled(s, Advance(id, fault)) && s.workers[id].stage in {CheckRole, GrantRole}
    requires DoAdvance(s, id, fault).workers[id].stage == CheckTenant
    ensures var t := DoAdvance(s, id, fault);
            var r := s.workers[id].todo[0].0;
            && t.workers[id].todo == s.workers[id].todo
            && r in t.db.roles && t.db.roles == s.db.roles && HasPrivs(t.db, r)
  {
    if s.workers[id].stage == GrantRole {
      ByMembership(DoAdvance(s, id, fault).db, s.workers[id].todo[0].0);
    }
  }

  /** Whatever others do between a sweeper's two checks, the second leads to a grant only if the
      login was gone at some moment in between. */
  lemma SecondGrantOnlyIfGone(s: System, id: nat, first: Fault, steps: seq<Step>, second: Fault)
    requires Good(s) && Enabled(s, Advance(id, first)) && s.workers[id].stage in {CheckRole, GrantRole}
    requires Meant(s.db, s.workers[id], 0)
    requires var u := Do(s, Advance(id, first));
             && u.workers[id].stage == CheckTenant
             && Possible(u, steps) && NamesFree(u, steps) && Others(id, steps)
             && Enabled(Run(u, steps), Advance(id, second))
             && Do(Run(u, steps), Advance(id, second)).workers[id].stage == GrantTenant
    ensures !Present(Do(s, Advance(id, first)), steps, s.workers[id].todo[0].0)
  {
    var u := Do(s, Advance(id, first));
    var (r, tenant) := s.workers[id].todo[0];
    FirstCheckPrivileges(s, id, first);
    EveryStepKeepsGood(s, Advance(id, first));
    if Present(u, steps, r) {
      assert WorkerOk(s.db, s.workers[id]);
      hide Good, Enabled, NameFree, DoAdvance;
      StaysPrivileged(u, steps, id, r);
      TenantAlso(Run(u, steps).db, r, tenant);
      PassesSecondCheck(Run(u, steps), id, second);
    }
  }

  lemma TenantAlso(db: DB, r: Name, tenant: Name)
    requires Inv(db) && r in db.roles && db.roles[r] == Some(tenant) && HasPrivs(db, r)
    ensures HasPrivs(db, tenant)
  {
    LoginPrivs(db, r);
  }

  lemma PassesSecondCheck(s: System, id: nat, fault: Fault)
    requires Enabled(s, Advance(id, fault)) && s.workers[id].stage == CheckTenant
    requires HasPrivs(s.db, s.workers[id].todo[0].1)
    ensures DoAdvance(s, id, fault).workers[id].stage != GrantTenant
  {
  }

  // --- One sweeper at a time: never ----------------------------------------------------------------

  /** No sweeper is about to grant itself a tenant role, and one that is about to check for it either
      finds no such role or has the login's privileges. */
  predicate CheckedOnce(s: System) {
    forall id :: id in s.workers && s.workers[id].todo != [] ==> CheckedFor(s.db, s.workers[id])
  }

  predicate CheckedFor(db: DB, w: Worker)
    requires w.todo != []
  {
    && w.stage != GrantTenant
    && (w.stage == CheckTenant ==>
          w.todo[0].1 !in db.roles || (w.todo[0].0 in db.roles && HasPrivs(db, w.todo[0].0)))
  }

  lemma OwnStepKeepsChecked(s: System, id: nat, fault: Fault)
    requires Good(s) && AllMeant(s) && CheckedOnce(s) && Enabled(s, Advance(id, fault))
    ensures var t := DoAdvance(s, id, fault);
            t.workers[id].todo != [] ==> CheckedFor(t.db, t.workers[id])
  {
    var w := s.workers[id];
    var (r, tenant) := w.todo[0];
    assert CheckedFor(s.db, w) && Meant(s.db, w, 0);
    if w.stage == CheckTenant && tenant in s.db.roles {
      TenantAlso(s.db, r, tenant);
      PassesSecondCheck(s, id, fault);
    }
    if w.stage == GrantRole && r in s.db.roles { ByMembership(Exec(s.db, Grant(r)).db, r); }
    hide HasPrivs, Inv, WorkerOk, Meant;
  }

  /** A tenant role that is gone never comes back. */
  lemma NoSecondTenant(s: System, step: Step, name: Name)
    requires Good(s) && Enabled(s, step) && SomeTenant(s.db, name) && name !in s.db.roles
    ensures name !in Do(s, step).db.roles
  {
    hide Inv, WorkerOk;
    var p :| p in s.db.projects && s.db.projects[p].pgRole == name;
    if step.Advance? { AdvanceTakesAtMostHead(s, step.id, step.fault); }
  }

  /** Nobody but a sweeper or the delete of its own project takes a login away. */
  lemma LoginStays(s: System, step: Step, r: Name, tenant: Name)
    requires Good(s) && Enabled(s, step) && !step.Advance?
    requires r in s.db.roles && s.db.roles[r] == Some(tenant)
    ensures r in Do(s, step).db.roles || tenant !in Do(s, step).db.roles
  {
  }

  lemma OtherStepKeepsChecked(s: System, step: Step, id: nat)
    requires Good(s) && AllMeant(s) && CheckedOnce(s) && Enabled(s, step) && NameFree(s, step) && !step.Advance?
    requires id in s.workers && s.workers[id].todo != [] && Others(id, [step])
    ensures var t := Do(s, step); id in t.workers && t.workers[id].todo != [] && CheckedFor(t.db, t.workers[id])
  {
    var w := s.workers[id];
    var (r, tenant) := w.todo[0];
    assert WorkerOk(s.db, w) && SomeTenant(s.db, tenant) && CheckedFor(s.db, w) && Meant(s.db, w, 0);
    OthersLeaveAlone(s, step, id);
    hide Good, AllMeant, Enabled, NameFree, Do, HasPrivs, Meant;
    if w.stage == CheckTenant {
      if tenant !in s.db.roles {
        NoSecondTenant(s, step, tenant);
      } else {
        HeadIsTenants(s, id);
        LoginStays(s, step, r, tenant);
        if r in Do(s, step).db.roles { PrivsStay(s, step, r); }
      }
    }
  }

  lemma HeadIsTenants(s: System, id: nat)
    requires AllMeant(s) && id in s.workers && s.workers[id].todo != [] && s.workers[id].todo[0].0 in s.db.roles
    ensures s.db.roles[s.workers[id].todo[0].0] == Some(s.workers[id].todo[0].1)
  {
    assert Meant(s.db, s.workers[id], 0);
  }

  lemma StepKeepsChecked(s: System, step: Step)
    requires Good(s) && AllMeant(s) && Solo(s) && CheckedOnce(s) && Enabled(s, step) && NameFree(s, step)
    requires step.Begin? ==> forall id :: id in s.workers ==> s.workers[id].todo == []
    ensures CheckedOnce(Do(s, step))
  {
    var t := Do(s, step);
    forall id | id in t.workers && t.workers[id].todo != [] ensures CheckedFor(t.db, t.workers[id]) {
      if step.Advance? {
        OwnStepKeepsChecked(s, step.id, step.fault);
        AdvanceTakesAtMostHead(s, step.id, step.fault);
      } else if step.Begin? && step.id == id {
        assert t.workers[id].stage == CheckExists;
      } else {
        assert [step][0] == step;
        OtherStepKeepsChecked(s, step, id);
      }
      hide CheckedFor, Good, AllMeant;
    }
  }

  /** Over every run with one sweeper at a time, nobody is ever about to grant itself a tenant role. */
  lemma {:induction false} OneSweeperNeverGrantsTenant(s: System, steps: seq<Step>)
    requires Good(s) && AllMeant(s) && Solo(s) && CheckedOnce(s) && Possible(s, steps) && OneAtATime(s, steps)
    ensures var t := Run(s, steps);
            && CheckedOnce(t)
            && forall id :: id in t.workers && t.workers[id].todo != [] ==> t.workers[id].stage != GrantTenant
    decreases |steps|
  {
    if steps == [] {
      assert Run(s, steps) == s;
    } else {
      SoloNamesAreFine(s, steps[0]);
      EveryStepKeepsGood(s, steps[0]);
      StepKeepsMeant(s, steps[0]);
      SoloPersists(s, steps[0]);
      StepKeepsChecked(s, steps[0]);
      hide Good, AllMeant, Enabled, NameFree, NameHarmless, Do, Solo, CheckedOnce;
      OneSweeperNeverGrantsTenant(Do(s, steps[0]), steps[1..]);
    }
  }
}
