/**
 The statement sequences of Sweep, DropForProject and retireRole, over a connection on
 which any round trip can fail (internal/controlplane/tenancy/ephemeral.go:92-250).
 A crash after k statements is the connection on which every later trip is Lost.
 */
module Sweeper {
  import opened Wrappers
  import opened Postgres
  import opened Ephemeral
  import opened Lifecycle
  import opened SweepTrips

  ghost predicate Reliable(net: nat -> Fault, from: nat) {
    forall n: nat :: n >= from ==> net(n).Delivered?
  }

  /** How many of the round trips `from` .. `until` were not delivered. */
  function Undelivered(net: nat -> Fault, from: nat, until: nat): nat
    requires from <= until
    decreases until
  {
    if from == until then 0
    else Undelivered(net, from, until - 1) + if net(until - 1).Delivered? then 0 else 1
  }

  lemma {:induction false} MoreUndelivered(net: nat -> Fault, from: nat, mid: nat, until: nat)
    requires from <= mid <= until
    ensures Undelivered(net, from, mid) <= Undelivered(net, from, until)
    ensures Faulty(net, mid, until) ==> Undelivered(net, from, mid) < Undelivered(net, from, until)
    decreases until
  {
    if mid < until { MoreUndelivered(net, from, mid, until - 1); }
  }

  /** Grants exactly when a REASSIGN would otherwise be refused. */
  method GrantSelfIfMissing(pool: Pool, role: Name, ghost w: Worker, ghost second: bool) returns (ok: bool)
    requires w.todo != [] && w.stage == CheckStage(second) && role == Checked(w, second)
    modifies pool
    ensures pool.sent >= old(pool.sent)
    ensures pool.db == old(pool.db) ||
            (role in old(pool.db).roles && !HasPrivs(old(pool.db), role) &&
             pool.db == Exec(old(pool.db), Grant(role)).db)
    ensures ok ==> role in pool.db.roles && HasPrivs(pool.db, role)
    ensures role in old(pool.db).roles && !ok ==> Faulty(pool.net, old(pool.sent), pool.sent)
    ensures Leads(Alone(old(pool.db), w), pool.net, old(pool.sent), pool.sent,
                  Alone(pool.db, if ok then w.(stage := AfterCheck(second)) else NextName(w)))
  {
    hide Leads;
    ghost var db, n := pool.db, pool.sent;
    CheckTrip(db, w, second, pool.net, n);
    var has;
    ok, has := pool.HasRole(role);
    if !ok { return; }
    if has { return; }
    ghost var v := w.(stage := GrantStage(second));
    GrantTrip(db, v, second, pool.net, n + 1);
    ok := pool.Exec(Grant(role));
    ThenTrips(Alone(db, w), pool.net, n, n + 1, n + 2, Alone(db, v),
              Alone(pool.db, if ok then w.(stage := AfterCheck(second)) else NextName(w)));
  }

  /** Hands everything an ephemeral role owns to the tenant role, then drops it.  Whatever
      goes wrong on the way, no data is lost and the goal of the whole pass is unchanged. */
  method RetireRole(pool: Pool, role: Name, tenantRole: Name, ghost e: set<Name>, ghost w: Worker)
    returns (ok: bool)
    requires w.todo != [] && w.todo[0] == (role, tenantRole) && w.window == {} && w.stage == CheckExists
    requires Inv(pool.db) && role in e && role in pool.db.rows && tenantRole == TenantOf(pool.db, role)
    modifies pool
    ensures OnCourse(old(pool.db), pool.db, e) && pool.db.rows == old(pool.db).rows
    ensures pool.sent >= old(pool.sent)
    ensures ok ==> role !in pool.db.roles
    ensures !ok ==> Faulty(pool.net, old(pool.sent), pool.sent)
    ensures Leads(Alone(old(pool.db), w), pool.net, old(pool.sent), pool.sent,
                  Alone(pool.db, if ok then w.(stage := ForgetRow) else NextName(w)))
  {
    hide OnCourse, MintedRolesRecorded, RowsConsistent, ProjectsConsistent, OwnershipConsistent, TenantOf, HasPrivs;
    hide Leads;
    ghost var start, n := pool.db, pool.sent;
    OnCourseRefl(start, e);
    ExistsTrip(start, w, pool.net, n);
    var exists_;
    ok, exists_ := pool.RoleExists(role);
    if !ok || !exists_ { return; }
    ghost var w1 := w.(stage := CheckRole);
    ok := GrantBoth(pool, role, tenantRole, e, w1);
    ThenTrips(Alone(start, w), pool.net, n, n + 1, pool.sent, Alone(start, w1),
              Alone(pool.db, if ok then w1.(stage := Reassign) else NextName(w1)));
    if !ok { return; }
    ghost var granted, m := pool.db, pool.sent;
    SameTenant(start, granted, e, role);
    ghost var w2 := w1.(stage := Reassign);
    ok := HandOverAndDrop(pool, role, tenantRole, e, w2);
    ThenTrips(Alone(start, w), pool.net, n, m, pool.sent, Alone(granted, w2),
              Alone(pool.db, if ok then w2.(stage := ForgetRow) else NextName(w2)));
    OnCourseTransitive(start, granted, pool.db, e);
  }

  /** The two memberships.  With nobody else at work the second check passes and nothing is granted
      for it. */
  method GrantBoth(pool: Pool, role: Name, tenantRole: Name, ghost e: set<Name>, ghost w: Worker)
    returns (ok: bool)
    requires w.todo != [] && w.todo[0] == (role, tenantRole) && w.window == {} && w.stage == CheckRole
    requires Inv(pool.db) && role in e && role in pool.db.rows && tenantRole == TenantOf(pool.db, role)
    requires role in pool.db.roles
    modifies pool
    ensures OnCourse(old(pool.db), pool.db, e) && Inv(pool.db)
    ensures pool.db == old(pool.db).(granted := pool.db.granted) && pool.db.granted <= old(pool.db).granted + {role}
    ensures pool.sent >= old(pool.sent)
    ensures ok ==> HasPrivs(pool.db, role) && HasPrivs(pool.db, tenantRole)
    ensures !ok ==> Faulty(pool.net, old(pool.sent), pool.sent)
    ensures Leads(Alone(old(pool.db), w), pool.net, old(pool.sent), pool.sent,
                  Alone(pool.db, if ok then w.(stage := Reassign) else NextName(w)))
  {
    hide MintedRolesRecorded, RowsConsistent, ProjectsConsistent, OwnershipConsistent, Handed, Swept;
    hide TenantOf, HasPrivs, Leads;
    ghost var start, n := pool.db, pool.sent;
    OnCourseRefl(start, e);
    GrantKeepsCourse(start, role, e);
    ok := GrantSelfIfMissing(pool, role, w, false);
    if !ok { return; }
    ghost var m, v := pool.sent, w.(stage := CheckTenant);
    SameTenant(start, pool.db, e, role);
    TenantPrivsComeWithRole(pool.db, role);
    ghost var granted := pool.db;
    ok := GrantSelfIfMissing(pool, tenantRole, v, true);
    ThenTrips(Alone(start, w), pool.net, n, m, pool.sent, Alone(granted, v),
              Alone(pool.db, if ok then v.(stage := Reassign) else NextName(v)));
  }

  /** The three statements; each makes the next one permitted. */
  method HandOverAndDrop(pool: Pool, role: Name, tenantRole: Name, ghost e: set<Name>, ghost w: Worker)
    returns (ok: bool)
    requires w.todo != [] && w.todo[0] == (role, tenantRole) && w.window == {} && w.stage == Reassign
    requires Inv(pool.db) && role in e && role in pool.db.rows && tenantRole == TenantOf(pool.db, role)
    requires role in pool.db.roles && HasPrivs(pool.db, role)
    modifies pool
    ensures OnCourse(old(pool.db), pool.db, e) && pool.db.rows == old(pool.db).rows
    ensures pool.sent >= old(pool.sent)
    ensures ok ==> role !in pool.db.roles
    ensures !ok ==> Faulty(pool.net, old(pool.sent), pool.sent)
    ensures Leads(Alone(old(pool.db), w), pool.net, old(pool.sent), pool.sent,
                  Alone(pool.db, if ok then w.(stage := ForgetRow) else NextName(w)))
  {
    hide MintedRolesRecorded, RowsConsistent, ProjectsConsistent, OwnershipConsistent, Handed, Swept;
    hide TenantOf, Exec, HasPrivs, Leads;
    ghost var start, n := pool.db, pool.sent;
    OnCourseRefl(start, e);
    ReassignKeepsCourse(start, role, e);
    StatementTrip(start, w, pool.net, n);
    ok := pool.Exec(ReassignOwned(role, tenantRole));
    if !ok { return; }
    ghost var reassigned, w1 := pool.db, w.(stage := ClearOwned);

    DropOwnedKeepsCourse(reassigned, role, e);
    StatementTrip(reassigned, w1, pool.net, n + 1);
    ok := pool.Exec(DropOwned(role));
    OnCourseTransitive(start, reassigned, Exec(reassigned, DropOwned(role)).db, e);
    ghost var w2 := w1.(stage := DropIt);
    ThenTrips(Alone(start, w), pool.net, n, n + 1, n + 2, Alone(reassigned, w1),
              Alone(pool.db, if ok then w2 else NextName(w1)));
    if !ok { return; }
    ghost var cleared := pool.db;

    DropRoleKeepsCourse(cleared, role, e);
    StatementTrip(cleared, w2, pool.net, n + 2);
    ok := pool.Exec(DropRole(role));
    OnCourseTransitive(start, cleared, Exec(cleared, DropRole(role)).db, e);
    ThenTrips(Alone(start, w), pool.net, n, n + 2, n + 3, Alone(cleared, w2),
              Alone(pool.db, if ok then w2.(stage := ForgetRow) else NextName(w2)));
  }

  lemma OnCourseRefl(db: DB, e: set<Name>)
    requires Inv(db)
    ensures OnCourse(db, db, e)
  {
  }

  lemma OnCourseIsConsistent(start: DB, db: DB, e: set<Name>)
    requires OnCourse(start, db, e)
    ensures Inv(db)
  {
  }

  predicate Gone(db: DB, r: Name) {
    r !in db.rows && r !in db.roles
  }

  lemma StaysGone(db: DB, d: DB, e: set<Name>, r: Name)
    requires OnCourse(db, d, e) && Gone(db, r)
    ensures Gone(d, r)
  {
  }

  lemma SameTenant(start: DB, db: DB, e: set<Name>, r: Name)
    requires OnCourse(start, db, e) && r in db.rows
    ensures r in start.rows && TenantOf(db, r) == TenantOf(start, r)
  {
  }

  /** The body of Sweep's loop: only a role that is really gone loses its row. */
  method RetireAndForget(pool: Pool, role: Name, tenantRole: Name, ghost e: set<Name>, ghost w: Worker)
    returns (ok: bool)
    requires w.todo != [] && w.todo[0] == (role, tenantRole) && w.window == {} && w.stage == CheckExists
    requires Inv(pool.db) && role in e && role in pool.db.rows && tenantRole == TenantOf(pool.db, role)
    modifies pool
    ensures OnCourse(old(pool.db), pool.db, e)
    ensures pool.db.rows == old(pool.db).rows || pool.db.rows == old(pool.db).rows - {role}
    ensures pool.sent >= old(pool.sent)
    ensures ok ==> Gone(pool.db, role)
    ensures !ok ==> Faulty(pool.net, old(pool.sent), pool.sent)
    ensures Leads(Alone(old(pool.db), w), pool.net, old(pool.sent), pool.sent, Alone(pool.db, NextName(w)))
  {
    hide OnCourse, MintedRolesRecorded, RowsConsistent, ProjectsConsistent, OwnershipConsistent, TenantOf;
    hide Leads;
    ghost var start, n := pool.db, pool.sent;
    ok := RetireRole(pool, role, tenantRole, e, w);
    if !ok { return; }
    ghost var retired, m, v := pool.db, pool.sent, w.(stage := ForgetRow);
    assert Inv(retired) by { OnCourseIsConsistent(start, retired, e); }
    DeleteRowKeepsCourse(retired, role, e);
    OnCourseTransitive(start, retired, Exec(retired, DeleteRow(role)).db, e);
    StatementTrip(retired, v, pool.net, m);
    ok := pool.Exec(DeleteRow(role));
    ThenTrips(Alone(start, w), pool.net, n, m, m + 1, Alone(retired, v), Alone(pool.db, NextName(w)));
  }

  lemma {:induction false} NoneUndelivered(net: nat -> Fault, from: nat, until: nat)
    requires Reliable(net, from) && from <= until
    ensures Undelivered(net, from, until) == 0
    decreases until
  {
    if from < until { NoneUndelivered(net, from, until - 1); }
  }

  lemma OnlyListedDropped(start: DB, db: DB, e: set<Name>)
    requires OnCourse(start, db, e)
    ensures forall r :: r in start.roles && r !in db.roles ==> r in e && r in start.rows
  {
  }

  /** One sweep.  `listed` is false when the work-list query itself failed.  The
      postconditions hold on every connection, failing or not. */
  method Sweep(pool: Pool, now: int) returns (listed: bool, dropped: nat, failures: seq<Name>)
    requires Inv(pool.db)
    modifies pool
    ensures OnCourse(old(pool.db), pool.db, Eligible(old(pool.db), now))
    ensures !listed ==> pool.db == old(pool.db)
    ensures listed ==> dropped + |failures| == |Eligible(old(pool.db), now)|
    ensures listed ==> forall r :: r in Eligible(old(pool.db), now) && r !in failures ==>
              Gone(pool.db, r)
    ensures listed && failures == [] ==> pool.db == Swept(old(pool.db), Eligible(old(pool.db), now))
    ensures forall r :: r in old(pool.db).roles && r !in pool.db.roles ==>
              r in old(pool.db).rows && old(pool.db).rows[r].expires < now - 300_000_000
    ensures pool.sent >= old(pool.sent) && (!listed ==> Faulty(pool.net, old(pool.sent), pool.sent))
    ensures listed ==> |failures| <= Undelivered(pool.net, old(pool.sent), pool.sent)
    ensures forall r :: r in failures ==> r in Eligible(old(pool.db), now)
    ensures Reliable(pool.net, old(pool.sent)) ==> listed && failures == []
    ensures listed ==> exists list ::
              && Lists(list, Eligible(old(pool.db), now), old(pool.db))
              && Leads(Alone(old(pool.db), Worker(list, CheckExists, {}, now)), pool.net, old(pool.sent) + 1, pool.sent,
                       Alone(pool.db, Worker([], CheckExists, {}, now)))
  {
    hide MintedRolesRecorded, RowsConsistent, ProjectsConsistent, OwnershipConsistent, Handed, Swept, TenantOf;
    hide Leads;
    ghost var start := pool.db;
    ghost var e := Eligible(start, now);
    OnCourseRefl(start, e);
    var names;
    dropped, failures := 0, [];
    listed, names := pool.SelectRows(Eligible(pool.db, now));
    if !listed { return; }
    ghost var w := Worker(names, CheckExists, {}, now);
    NoTrip(Alone(start, w), pool.net, pool.sent);
    assert names[0..] == names;
    for i := 0 to |names|
      invariant OnCourse(start, pool.db, e)
      invariant pool.sent >= old(pool.sent)
      invariant dropped + |failures| == i
      invariant Leads(Alone(start, w), pool.net, old(pool.sent) + 1, pool.sent, Alone(pool.db, w.(todo := names[i..])))
      invariant forall j :: i <= j < |names| ==> names[j].0 in pool.db.rows
      invariant forall j :: 0 <= j < i ==> names[j].0 in failures || Gone(pool.db, names[j].0)
      invariant |failures| <= Undelivered(pool.net, old(pool.sent), pool.sent)
      invariant forall r :: r in failures ==> r in e
    {
      var role, tenantRole := names[i].0, names[i].1;
      ghost var before, sent := pool.db, pool.sent;
      SameTenant(start, before, e, role);
      ghost var v := w.(todo := names[i..]);
      var ok := RetireAndForget(pool, role, tenantRole, e, v);
      assert names[i..][1..] == names[i + 1..];
      ThenTrips(Alone(start, w), pool.net, old(pool.sent) + 1, sent, pool.sent, Alone(before, v),
                Alone(pool.db, w.(todo := names[i + 1..])));
      forall j | 0 <= j < i && Gone(before, names[j].0) ensures Gone(pool.db, names[j].0) {
        StaysGone(before, pool.db, e, names[j].0);
      }
      OnCourseTransitive(start, before, pool.db, e);
      MoreUndelivered(pool.net, old(pool.sent), sent, pool.sent);
      if !ok {
        failures := failures + [role];
        continue;
      }
      dropped := dropped + 1;
    }
    assert names[|names|..] == [] && w.(todo := []) == Worker([], CheckExists, {}, now);
    OnlyListedDropped(start, pool.db, e);
    if Reliable(pool.net, old(pool.sent)) { NoneUndelivered(pool.net, old(pool.sent), pool.sent); }
    forall r | r in e && r !in failures ensures Gone(pool.db, r) {
      var i :| 0 <= i < |names| && names[i].0 == r;
    }
    if failures == [] {
      assert forall r :: r in e ==> Gone(pool.db, r);
      NothingLeft(start, pool.db, e);
    }
  }

  /** A sweep over a failing connection followed by one over a good connection at the same
      clock reading ends exactly where a single undisturbed sweep would have. */
  method SweepAgain(failing: Pool, restarted: Pool, now: int)
    requires failing != restarted && Inv(failing.db)
    requires Reliable(restarted.net, restarted.sent)
    modifies failing, restarted
    ensures restarted.db == Swept(old(failing.db), Eligible(old(failing.db), now))
    ensures Eligible(restarted.db, now) == {}
  {
    ghost var start := failing.db;
    var _, _, _ := Sweep(failing, now);
    ResumedPassHasSameGoal(start, failing.db, now);
    restarted.db := failing.db;
    var _, _, _ := Sweep(restarted, now);
  }

  /** DropForProject: every login of the project, then all its rows in one statement. */
  method DropForProject(pool: Pool, project: nat) returns (ok: bool)
    requires Inv(pool.db)
    modifies pool
    ensures OnCourse(old(pool.db), pool.db, OfProject(old(pool.db), project))
    ensures ok ==> pool.db == Swept(old(pool.db), OfProject(old(pool.db), project))
    ensures ok ==> forall r :: r in old(pool.db).rows ==>
              if old(pool.db).rows[r].project == project then r !in pool.db.rows && r !in pool.db.roles
              else r in pool.db.rows && (r in old(pool.db).roles ==> r in pool.db.roles)
    ensures !ok ==> Faulty(pool.net, old(pool.sent), pool.sent)
  {
    hide MintedRolesRecorded, RowsConsistent, ProjectsConsistent, OwnershipConsistent, Handed, Swept, TenantOf;
    ghost var start := pool.db;
    ghost var e := OfProject(start, project);
    OnCourseRefl(start, e);
    var names;
    ok, names := pool.SelectRows(OfProject(pool.db, project));
    if !ok { return; }
    for i := 0 to |names|
      invariant OnCourse(start, pool.db, e)
      invariant pool.db.rows == start.rows
      invariant pool.sent >= old(pool.sent)
      invariant forall j :: 0 <= j < i ==> names[j].0 !in pool.db.roles
    {
      var role, tenantRole := names[i].0, names[i].1;
      ghost var before := pool.db;
      SameTenant(start, before, e, role);
      ok := RetireRole(pool, role, tenantRole, e, Worker(names[i..], CheckExists, {}, 0));
      forall j | 0 <= j < i ensures names[j].0 !in pool.db.roles {
        StaysDropped(before, pool.db, e, names[j].0);
      }
      OnCourseTransitive(start, before, pool.db, e);
      if !ok { return; }
    }
    forall r | r in e ensures r !in pool.db.roles {
      var i :| 0 <= i < |names| && names[i].0 == r;
    }
    ghost var retired := pool.db;
    BulkDeleteKeepsCourse(retired, project);
    OnCourseTransitive(start, retired, Exec(retired, DeleteProjectRows(project)).db, e);
    ok := pool.Exec(DeleteProjectRows(project));
    if ok {
      assert forall r :: r in e ==> r !in pool.db.rows;
      NothingLeft(start, pool.db, e);
      SweptTakes(start, e);
    }
  }

  lemma SweptTakes(db: DB, e: set<Name>)
    requires RowsConsistent(db)
    ensures var d := Swept(db, e);
            forall r :: (r in d.rows <==> r in db.rows && r !in e) && (r in d.roles <==> r in db.roles && r !in e)
  {
  }

  lemma StaysDropped(db: DB, d: DB, e: set<Name>, r: Name)
    requires OnCourse(db, d, e) && r !in db.roles
    ensures r !in d.roles
  {
  }

  lemma BulkDeleteKeepsCourse(db: DB, project: nat)
    requires Inv(db) && forall r :: r in OfProject(db, project) ==> r !in db.roles
    ensures OnCourse(db, Exec(db, DeleteProjectRows(project)).db, OfProject(db, project))
  {
    var e := OfProject(db, project);
    var d := Exec(db, DeleteProjectRows(project)).db;
    BulkDeleteSafeIffNoneLeft(db, project);
    assert Handed(db, d, e);
    assert d.rows - e == db.rows - e;
    SameHeirs(db, d, e);
  }
}
