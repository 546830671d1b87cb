/**
 What sweepers do to whom, over whole interleaved runs, and what that asks of the names that
 mints draw (internal/controlplane/tenancy/ephemeral.go:20-24, 54-90, 98-146, 201-231).
 */
module Conservation {
  import opened Wrappers
  import opened Postgres
  import opened Ephemeral
  import opened Lifecycle

  /** If the i-th listed name is a role, then it belongs to the tenant it was listed with and
      its row, if any, was past expiry and grace when the list was read. */
  predicate Meant(db: DB, w: Worker, i: nat)
    requires i < |w.todo|
  {
    var (role, tenant) := w.todo[i];
    role in db.roles ==>
      db.roles[role] == Some(tenant) && (role in db.rows ==> db.rows[role].expires < w.now - SWEEP_GRACE)
  }

  predicate AllMeant(s: System) {
    forall id, i :: id in s.workers && 0 <= i < |s.workers[id].todo| ==> Meant(s.db, s.workers[id], i)
  }

  /** So it is for the roles that sweepers are working on. */
  predicate HeadsMeant(s: System) {
    forall id :: id in s.workers && s.workers[id].todo != [] ==> Meant(s.db, s.workers[id], 0)
  }

  // --- Every step keeps it ----------------------------------------------------------------

  /** Roles and rows may go but not change. */
  predicate Fewer(db: DB, d: DB) {
    && (forall r :: r in d.roles ==> r in db.roles && d.roles[r] == db.roles[r])
    && (forall r :: r in d.rows ==> r in db.rows && d.rows[r] == db.rows[r])
  }

  /** A list that is the same, shorter by its head, or abandoned. */
  predicate Continues(w: Worker, v: Worker) {
    v.now == w.now && (v.todo == w.todo || v.todo == [] || (w.todo != [] && v.todo == w.todo[1..]))
  }

  lemma FewerKeepsMeant(s: System, t: System)
    requires AllMeant(s) && Fewer(s.db, t.db)
    requires forall id :: id in t.workers ==> id in s.workers && Continues(s.workers[id], t.workers[id])
    ensures AllMeant(t)
  {
    forall id, i | id in t.workers && 0 <= i < |t.workers[id].todo| ensures Meant(t.db, t.workers[id], i) {
      var j := if t.workers[id].todo == s.workers[id].todo then i else i + 1;
      assert t.workers[id].todo[i] == s.workers[id].todo[j];
      assert Meant(s.db, s.workers[id], j);
    }
  }

  lemma StatementsRemove(db: DB, stmt: Stmt, fault: Fault)
    requires !stmt.DeleteProjectRows?
    ensures Fewer(db, Send(db, stmt, fault).0)
    ensures Send(db, stmt, fault).0.rows == db.rows ||
            (stmt.DeleteRow? && Send(db, stmt, fault).0.rows == db.rows - {stmt.role})
  {
  }

  lemma AdvanceTakesAtMostHead(s: System, id: nat, fault: Fault)
    requires Enabled(s, Advance(id, fault))
    ensures var w, t := s.workers[id], DoAdvance(s, id, fault);
            && t.workers == s.workers[id := t.workers[id]]
            && Fewer(s.db, t.db) && Continues(w, t.workers[id])
            && (t.workers[id].todo == w.todo || t.workers[id].todo == w.todo[1..])
            && (t.db.rows == s.db.rows || (t.workers[id].todo == w.todo[1..] && t.db.rows == s.db.rows - {w.todo[0].0}))
  {
    hide Exec, HasPrivs, Send, Fewer;
    var (role, tenant) := s.workers[id].todo[0];
    StatementsRemove(s.db, Grant(role), fault);
    StatementsRemove(s.db, Grant(tenant), fault);
    StatementsRemove(s.db, ReassignOwned(role, tenant), fault);
    StatementsRemove(s.db, Stmt.DropOwned(role), fault);
    StatementsRemove(s.db, Stmt.DropRole(role), fault);
    StatementsRemove(s.db, DeleteRow(role), fault);
    assert Fewer(s.db, s.db) by { Unchanged(s.db); }
  }

  lemma Unchanged(db: DB)
    ensures Fewer(db, db)
  {
  }

  lemma BeginKeepsMeant(s: System, id: nat, now: int, list: seq<(Name, Name)>)
    requires Good(s) && AllMeant(s) && Enabled(s, Begin(id, now, list))
    ensures AllMeant(Do(s, Begin(id, now, list)))
  {
    var t := Do(s, Begin(id, now, list));
    forall i | 0 <= i < |list| ensures Meant(s.db, t.workers[id], i) {
      var r := list[i].0;
      assert r in Eligible(s.db, now) && list[i].1 == TenantOf(s.db, r);
    }
    forall other, i | other in t.workers && other != id && 0 <= i < |t.workers[other].todo|
      ensures Meant(t.db, t.workers[other], i)
    {
      assert Meant(s.db, s.workers[other], i);
    }
  }

  lemma MintKeepsMeant(s: System, step: Step)
    requires Good(s) && AllMeant(s) && step.MintRole? && Enabled(s, step) && NameHarmless(s, step)
    ensures AllMeant(Do(s, step))
  {
    var t := Do(s, step);
    forall id, i | id in t.workers && 0 <= i < |t.workers[id].todo| ensures Meant(t.db, t.workers[id], i) {
      assert Meant(s.db, s.workers[id], i);
    }
  }

  lemma CreateProjectKeepsMeant(s: System, p: nat, role: Name, schema: Name)
    requires AllMeant(s) && Enabled(s, CreateProject(p, role, schema))
    ensures AllMeant(Do(s, CreateProject(p, role, schema)))
  {
    var t := Do(s, CreateProject(p, role, schema));
    forall id, i | id in t.workers && 0 <= i < |t.workers[id].todo| ensures Meant(t.db, t.workers[id], i) {
      assert Meant(s.db, s.workers[id], i);
      assert s.workers[id].todo[i].0 == role ==> Pending(s, role);
    }
  }

  lemma StepKeepsMeant(s: System, step: Step)
    requires Good(s) && AllMeant(s) && Enabled(s, step) && NameHarmless(s, step)
    ensures AllMeant(Do(s, step))
  {
    match step
    case Begin(id, now, list) => BeginKeepsMeant(s, id, now, list);
    case Advance(id, fault) => AdvanceTakesAtMostHead(s, id, fault); FewerKeepsMeant(s, Do(s, step));
    case MintRole(_, _, _) => MintKeepsMeant(s, step);
    case CreateProject(p, role, schema) => CreateProjectKeepsMeant(s, p, role, schema);
    case _ => FewerKeepsMeant(s, Do(s, step));
  }

  lemma {:induction false} RunKeepsMeant(s: System, steps: seq<Step>)
    requires Good(s) && AllMeant(s) && Possible(s, steps) && NamesFree(s, steps) && NamesHarmless(s, steps)
    ensures Good(Run(s, steps)) && AllMeant(Run(s, steps))
    decreases |steps|
  {
    if steps == [] {
      assert Run(s, steps) == s;
    } else {
      EveryStepKeepsGood(s, steps[0]);
      StepKeepsMeant(s, steps[0]);
      hide Good, AllMeant, Enabled, NameFree, NameHarmless, Do;
      RunKeepsMeant(Do(s, steps[0]), steps[1..]);
    }
  }

  // --- Conservation over runs -----------------------------------------------------------------

  /** What one round trip of a sweeper may change: at the reassign, owners from the listed role to
      its own tenant role; at the drop, that role goes, which had expired; nothing else about
      roles, and nothing moves between schemas. */
  predicate Conserves(s: System, id: nat, t: System)
    requires id in s.workers && s.workers[id].todo != []
  {
    var w := s.workers[id];
    var (role, tenant) := w.todo[0];
    && (forall o :: o in t.db.objects ==> o in s.db.objects && t.db.objects[o].schema == s.db.objects[o].schema)
    && (forall o :: o in t.db.objects && t.db.objects[o].owner != s.db.objects[o].owner ==>
          && w.stage == Reassign && s.db.objects[o].owner == role && t.db.objects[o].owner == tenant
          && role in s.db.roles && s.db.roles[role] == Some(tenant))
    && (forall r :: r in s.db.roles && r !in t.db.roles ==>
          && w.stage == DropIt && r == role
          && r in s.db.rows && s.db.rows[r].expires < w.now - SWEEP_GRACE)
    && t.db.schemas == s.db.schemas && t.db.projects == s.db.projects && t.db.keys == s.db.keys
  }

  /** What a sweeper's statement may change, whoever it is about. */
  predicate Effect(db: DB, d: DB, stmt: Stmt) {
    && (forall o :: o in d.objects ==> o in db.objects && d.objects[o].schema == db.objects[o].schema)
    && (forall o :: o in d.objects && d.objects[o].owner != db.objects[o].owner ==>
          && stmt.ReassignOwned? && db.objects[o].owner == stmt.role && d.objects[o].owner == stmt.to
          && stmt.role in db.roles)
    && (forall r :: r in db.roles && r !in d.roles ==> stmt.DropRole? && r == stmt.role)
    && d.schemas.Keys == db.schemas.Keys
    && (forall s :: s in db.schemas && d.schemas[s] != db.schemas[s] ==>
          stmt.ReassignOwned? && stmt.role in db.roles && db.schemas[s] == stmt.role)
    && d.projects == db.projects && d.keys == db.keys
  }

  lemma StatementEffect(db: DB, stmt: Stmt, fault: Fault)
    requires stmt.Grant? || stmt.ReassignOwned? || stmt.DropOwned? || stmt.DropRole? || stmt.DeleteRow?
    ensures Effect(db, Send(db, stmt, fault).0, stmt)
  {
  }

  lemma NoLoginOwnsASchema(db: DB, role: Name)
    requires Inv(db) && role in db.roles && db.roles[role].Some?
    ensures forall s :: s in db.schemas ==> db.schemas[s] != role
  {
  }

  lemma SchemasKept(db: DB, d: DB, stmt: Stmt)
    requires Effect(db, d, stmt)
    requires stmt.ReassignOwned? && stmt.role in db.roles ==> forall s :: s in db.schemas ==> db.schemas[s] != stmt.role
    ensures d.schemas == db.schemas
  {
    assert forall s :: s in db.schemas ==> d.schemas[s] == db.schemas[s];
  }

  lemma AdvanceConserves(s: System, id: nat, fault: Fault)
    requires Good(s) && AllMeant(s) && Enabled(s, Advance(id, fault))
    ensures Conserves(s, id, DoAdvance(s, id, fault))
  {
    var w, t := s.workers[id], DoAdvance(s, id, fault);
    HeadIsMeant(s, id);
    AdvanceSends(s, id, fault);
    hide Inv, Good, AllMeant, Meant, DoAdvance, Send, Conserves, Effect;
    if Sent(w).Some? {
      StatementEffect(s.db, Sent(w).value, fault);
      SchemasKept(s.db, t.db, Sent(w).value);
      EffectConserves(s, id, t);
    } else {
      NothingConserves(s, id, t);
    }
  }

  /** What is known of a role that a sweeper works on. */
  lemma HeadIsMeant(s: System, id: nat)
    requires Good(s) && AllMeant(s) && id in s.workers && s.workers[id].todo != []
    ensures var w := s.workers[id];
            var (role, tenant) := w.todo[0];
            role in s.db.roles ==>
              && s.db.roles[role] == Some(tenant) && role in s.db.rows
              && s.db.rows[role].expires < w.now - SWEEP_GRACE
              && forall x :: x in s.db.schemas ==> s.db.schemas[x] != role
  {
    var role := s.workers[id].todo[0].0;
    assert Meant(s.db, s.workers[id], 0);
    if role in s.db.roles { NoLoginOwnsASchema(s.db, role); }
  }

  lemma EffectConserves(s: System, id: nat, t: System)
    requires id in s.workers && s.workers[id].todo != [] && Sent(s.workers[id]).Some?
    requires Effect(s.db, t.db, Sent(s.workers[id]).value) && t.db.schemas == s.db.schemas
    requires var w := s.workers[id];
             var (role, tenant) := w.todo[0];
             role in s.db.roles ==>
               && s.db.roles[role] == Some(tenant) && role in s.db.rows
               && s.db.rows[role].expires < w.now - SWEEP_GRACE
    ensures Conserves(s, id, t)
  {
  }

  lemma NothingConserves(s: System, id: nat, t: System)
    requires id in s.workers && s.workers[id].todo != [] && t.db == s.db
    ensures Conserves(s, id, t)
  {
  }

  /** Over every run whose names are free and harmless: a sweeper changes an owner only from the
      role it retires to that role's own tenant role, and drops no role that was still within
      expiry plus grace when its list was read. */
  lemma EveryRunConserves(s: System, steps: seq<Step>, id: nat, fault: Fault)
    requires Good(s) && AllMeant(s) && Possible(s, steps) && NamesFree(s, steps) && NamesHarmless(s, steps)
    requires Enabled(Run(s, steps), Advance(id, fault))
    ensures Conserves(Run(s, steps), id, DoAdvance(Run(s, steps), id, fault))
  {
    RunKeepsMeant(s, steps);
    AdvanceConserves(Run(s, steps), id, fault);
  }

  // --- Exactly which names ------------------------------------------------------------------------

  function Skips(id: nat, n: nat): seq<Step> {
    if n == 0 then [] else [Advance(id, Lost)] + Skips(id, n - 1)
  }

  /** A sweeper whose statements are lost goes down its list and changes nothing. */
  lemma {:induction false} SkipTo(s: System, id: nat, n: nat)
    requires id in s.workers && n <= |s.workers[id].todo|
    ensures Possible(s, Skips(id, n)) && NamesFree(s, Skips(id, n)) && NamesHarmless(s, Skips(id, n))
    ensures var t := Run(s, Skips(id, n));
            t.db == s.db && id in t.workers && t.workers[id].todo == s.workers[id].todo[n..]
            && t.workers[id].now == s.workers[id].now
    decreases n
  {
    if n > 0 {
      var t := Do(s, Advance(id, Lost));
      assert t.db == s.db && t.workers[id] == NextName(s.workers[id]);
      assert Skips(id, n)[1..] == Skips(id, n - 1);
      hide Good;
      SkipTo(t, id, n - 1);
    }
  }

  /** A mint keeps every sweeper to roles it is meant to retire, over everything that may follow,
      if and only if its name is harmless. */
  lemma MeantIffNameHarmless(s: System, role: Name, project: nat, expires: int)
    requires Good(s) && AllMeant(s)
    requires Enabled(s, MintRole(role, project, expires)) && NameFree(s, MintRole(role, project, expires))
    ensures var mint := MintRole(role, project, expires);
            var t := Do(s, mint);
            (forall steps :: Possible(t, steps) && NamesFree(t, steps) && NamesHarmless(t, steps) ==>
               HeadsMeant(Run(t, steps)))
            <==> NameHarmless(s, mint)
  {
    var mint := MintRole(role, project, expires);
    var t := Do(s, mint);
    if NameHarmless(s, mint) {
      EveryStepKeepsGood(s, mint);
      StepKeepsMeant(s, mint);
      forall steps | Possible(t, steps) && NamesFree(t, steps) && NamesHarmless(t, steps)
        ensures HeadsMeant(Run(t, steps))
      {
        RunKeepsMeant(t, steps);
      }
    } else {
      var id, i :| id in s.workers && 0 <= i < |s.workers[id].todo| && s.workers[id].todo[i].0 == role &&
                   !(s.workers[id].todo[i].1 == s.db.projects[project].pgRole &&
                     expires < s.workers[id].now - SWEEP_GRACE);
      hide Inv, WorkerOk;
      SkipTo(t, id, i);
      var u := Run(t, Skips(id, i));
      assert u.workers[id].todo[0] == s.workers[id].todo[i];
      assert !Meant(u.db, u.workers[id], 0);
    }
  }

  // --- One sweeper at a time asks nothing of names ------------------------------------------------

  /** At most one sweeper at work, on distinct names that still have their rows. */
  predicate Solo(s: System) {
    && (forall a, b :: a in s.workers && b in s.workers && s.workers[a].todo != [] && s.workers[b].todo != [] ==>
          a == b)
    && (forall id, i :: id in s.workers && 0 <= i < |s.workers[id].todo| ==> s.workers[id].todo[i].0 in s.db.rows)
    && (forall id, i, j :: id in s.workers && 0 <= i < j < |s.workers[id].todo| ==>
          s.workers[id].todo[i].0 != s.workers[id].todo[j].0)
  }

  /** No sweep begins before the last one is over. */
  predicate OneAtATime(s: System, steps: seq<Step>)
    requires Possible(s, steps)
    decreases |steps|
  {
    steps == [] ||
    ((steps[0].Begin? ==> forall id :: id in s.workers ==> s.workers[id].todo == []) &&
     OneAtATime(Do(s, steps[0]), steps[1..]))
  }

  /** With a single sweeper the primary key refuses every name the sweeper is still holding. */
  lemma SoloMintIsFreshOrRefused(s: System, role: Name, project: nat, expires: int)
    requires Solo(s) && project in s.db.projects && Pending(s, role)
    ensures Minted(s, role, project, expires).Refused?
  {
  }

  lemma SoloNamesAreFine(s: System, step: Step)
    requires Solo(s) && Enabled(s, step)
    ensures NameFree(s, step) && NameHarmless(s, step)
  {
    if step.MintRole? && Pending(s, step.role) {
      SoloMintIsFreshOrRefused(s, step.role, step.project, step.expires);
    } else if step.MintRole? {
      forall id | id in s.workers ensures !Forgetting(s, id, step.role) {
        assert s.workers[id].todo != [] ==> s.workers[id].todo[0].0 != step.role;
      }
    }
  }

  lemma SoloPersists(s: System, step: Step)
    requires Good(s) && Solo(s) && Enabled(s, step)
    requires step.Begin? ==> forall id :: id in s.workers ==> s.workers[id].todo == []
    ensures Solo(Do(s, step))
  {
    hide Inv, WorkerOk;
    match step
    case Advance(id, fault) => AdvanceKeepsSolo(s, id, fault);
    case Begin(id, now, list) => BeginKeepsSolo(s, id, now, list);
    case Crash(id) => CrashKeepsSolo(s, id);
    case _ => SameTodoKeepsSolo(s, Do(s, step));
  }

  lemma BeginKeepsSolo(s: System, id: nat, now: int, list: seq<(Name, Name)>)
    requires Enabled(s, Begin(id, now, list)) && forall other :: other in s.workers ==> s.workers[other].todo == []
    ensures Solo(Do(s, Begin(id, now, list)))
  {
  }

  lemma CrashKeepsSolo(s: System, id: nat)
    requires Solo(s) && id in s.workers
    ensures Solo(Do(s, Crash(id)))
  {
  }

  lemma SameTodoKeepsSolo(s: System, t: System)
    requires Solo(s) && t.workers.Keys == s.workers.Keys
    requires forall id :: id in s.workers ==> t.workers[id].todo == s.workers[id].todo
    requires forall r :: r in s.db.rows ==> r in t.db.rows
    ensures Solo(t)
  {
    forall id, i | id in t.workers && 0 <= i < |t.workers[id].todo| ensures t.workers[id].todo[i].0 in t.db.rows {
      var r := s.workers[id].todo[i].0;
      assert r in s.db.rows;
    }
  }

  lemma AdvanceKeepsSolo(s: System, id: nat, fault: Fault)
    requires Solo(s) && Enabled(s, Advance(id, fault))
    ensures Solo(DoAdvance(s, id, fault))
  {
    var w, t := s.workers[id], DoAdvance(s, id, fault);
    var v := t.workers[id];
    assert forall a :: a in s.workers && a != id ==> s.workers[a].todo == [];
    AdvanceTakesAtMostHead(s, id, fault);
    hide DoAdvance;
    forall i | 0 <= i < |v.todo| ensures v.todo[i].0 in t.db.rows {
      var k := if v.todo == w.todo then i else i + 1;
      var r := w.todo[k].0;
      assert r in s.db.rows && v.todo[i].0 == r && (k > 0 ==> r != w.todo[0].0);
    }
  }

  /** Over every run with one sweeper at a time, whatever names mints draw: all of them are free
      and harmless, so roles stay recorded and every sweeper keeps to the roles it is meant to
      retire. */
  lemma {:induction false} OneSweeperIsSafe(s: System, steps: seq<Step>)
    requires Good(s) && AllMeant(s) && Solo(s) && Possible(s, steps) && OneAtATime(s, steps)
    ensures NamesFree(s, steps) && NamesHarmless(s, steps)
    ensures var t := Run(s, steps); Good(t) && AllMeant(t) && Solo(t) && MintedRolesRecorded(t.db)
    decreases |steps|
  {
    if steps == [] {
      assert Run(s, steps) == s;
    } else {
      SoloNamesAreFine(s, steps[0]);
      EveryStepKeepsGood(s, steps[0]);
      StepKeepsMeant(s, steps[0]);
      SoloPersists(s, steps[0]);
      hide Good, AllMeant, Enabled, NameFree, NameHarmless, Do, Solo;
      OneSweeperIsSafe(Do(s, steps[0]), steps[1..]);
    }
  }
}
