/**
 Minting, sweeping and dropping short-lived login roles
 (internal/controlplane/tenancy/ephemeral.go).

 The central fact is `Swept`: what an undisturbed sweep leaves behind.  Every statement
 the sweeper sends, in whatever order and wherever it is cut off, leaves `Swept` of the
 database unchanged, so any later complete sweep ends in the same place.
 */
module Ephemeral {
  import opened Wrappers
  import opened Postgres

  /** Microseconds; sweepGrace is five minutes. */
  const SWEEP_GRACE: int := 300_000_000

  // --- Names ---------------------------------------------------------------------

  const ROLE_NAME_MAX: nat := 63
  const SEPARATOR: string := "_e_"

  function EphemeralRoleName(tenantRole: string, suffix: string): string
    requires |suffix| + |SEPARATOR| <= ROLE_NAME_MAX
  {
    var room := ROLE_NAME_MAX - |SEPARATOR| - |suffix|;
    var stem := if |tenantRole| > room then tenantRole[..room] else tenantRole;
    stem + SEPARATOR + suffix
  }

  /** Trimming the stem rather than the whole name keeps every name within the identifier
      limit and still lets the random suffix alone tell any two mints apart. */
  lemma NamesFitAndDiffer(tenant: string, suffix: string, tenant': string, suffix': string)
    requires |suffix| == |suffix'| == 12
    ensures |EphemeralRoleName(tenant, suffix)| <= ROLE_NAME_MAX
    ensures suffix != suffix' ==> EphemeralRoleName(tenant, suffix) != EphemeralRoleName(tenant', suffix')
  {
    var a, b := EphemeralRoleName(tenant, suffix), EphemeralRoleName(tenant', suffix');
    assert a[|a| - 12..] == suffix;
    assert b[|b| - 12..] == suffix';
  }

  /** The name is as much of the tenant role's as fits, the separator and the suffix. */
  lemma NameKeepsTenant(tenant: string, suffix: string)
    requires |suffix| == 12
    ensures exists stem ::
              && stem <= tenant && EphemeralRoleName(tenant, suffix) == stem + "_e_" + suffix
              && (stem == tenant || |EphemeralRoleName(tenant, suffix)| == 63)
  {
    var stem := if |tenant| > 48 then tenant[..48] else tenant;
    assert EphemeralRoleName(tenant, suffix) == stem + "_e_" + suffix;
  }

  // --- Mint ----------------------------------------------------------------------

  /** The transaction of Mint.  `tenantRole` was read earlier, so by now the project may
      be gone; the primary key, the foreign key or CREATE ROLE then abort the whole of it. */
  function Mint(db: DB, role: Name, project: nat, tenantRole: Name, expires: int): Reply {
    if role in db.rows || project !in db.projects then Refused
    else if role in db.roles || tenantRole !in db.roles then Refused
    else Ran(db.(rows := db.rows[role := Row(project, expires)],
                 roles := db.roles[role := Some(tenantRole)]))
  }

  /** No project, past or present, has this role name. */
  predicate NotAProjectRole(db: DB, role: Name) {
    forall p :: p in db.projects ==> db.projects[p].pgRole != role
  }

  /** A mint that commits leaves the role recorded, for a project that was still live. */
  lemma MintRecords(db: DB, role: Name, project: nat, expires: int)
    requires Inv(db) && project in db.projects && NotAProjectRole(db, role)
    requires Mint(db, role, project, db.projects[project].pgRole, expires).Ran?
    ensures Inv(Mint(db, role, project, db.projects[project].pgRole, expires).db)
    ensures !db.projects[project].deleted
  {
  }

  /** In a consistent database a mint for a live project commits exactly if its name is fresh; then
      the login and its row are there, for that project until that time, and nothing else has changed. */
  lemma MintCommitsIffFresh(db: DB, role: Name, project: nat, expires: int)
    requires Inv(db) && project in db.projects && !db.projects[project].deleted
    ensures var tenant := db.projects[project].pgRole;
            var reply := Mint(db, role, project, tenant, expires);
            && (reply.Ran? <==> role !in db.rows && role !in db.roles)
            && (reply.Ran? ==>
                  && reply.db.roles.Keys == db.roles.Keys + {role} && reply.db.roles[role] == Some(tenant)
                  && reply.db.rows.Keys == db.rows.Keys + {role} && reply.db.rows[role] == Row(project, expires)
                  && (forall r :: r in db.roles ==> reply.db.roles[r] == db.roles[r])
                  && (forall r :: r in db.rows ==> reply.db.rows[r] == db.rows[r])
                  && reply.db.(roles := db.roles, rows := db.rows) == db)
  {
    hide OwnershipConsistent;
  }

  /** And for a project that is missing or whose role is gone it never does. */
  lemma MintNeedsProject(db: DB, role: Name, project: nat, tenantRole: Name, expires: int)
    requires project !in db.projects || tenantRole !in db.roles
    ensures Mint(db, role, project, tenantRole, expires).Refused?
  {
  }

  // --- What retiring roles leads to ------------------------------------------------

  /** The work list of Sweep: rows past their expiry plus the grace window. */
  function Eligible(db: DB, now: int): set<Name> {
    set r | r in db.rows && db.rows[r].expires < now - SWEEP_GRACE
  }

  /** The work list of DropForProject. */
  function OfProject(db: DB, project: nat): set<Name> {
    set r | r in db.rows && db.rows[r].project == project
  }

  /** Who ends up owning what `owner` owns. */
  function Heir(db: DB, e: set<Name>, owner: Name): Name
    requires RowsConsistent(db)
  {
    if owner in e && owner in db.rows then TenantOf(db, owner) else owner
  }

  function HandedOver(db: DB, e: set<Name>): map<nat, Object>
    requires RowsConsistent(db)
  {
    map o | o in db.objects :: Object(db.objects[o].schema, Heir(db, e, db.objects[o].owner))
  }

  /** The state that retiring the recorded names `e` undisturbed ends in: the roles and their
      rows gone, everything they owned handed to their project's tenant role, and their
      privileges cleared. */
  function Swept(db: DB, e: set<Name>): DB
    requires RowsConsistent(db)
  {
    db.(roles := db.roles - e,
        granted := db.granted - e,
        objects := HandedOver(db, e),
        privileges := (set p | p in db.privileges && p.1 !in e),
        rows := db.rows - e)
  }

  /** Data is conserved from `before` to `after`: no object disappears or moves, an owner
      changes only from a role in `e` to that project's tenant role, and no role or row
      outside `e` is removed. */
  predicate Handed(before: DB, after: DB, e: set<Name>)
    requires RowsConsistent(before)
  {
    && after.objects.Keys == before.objects.Keys
    && (forall o :: o in before.objects ==>
          && after.objects[o].schema == before.objects[o].schema
          && after.objects[o].owner in {before.objects[o].owner, Heir(before, e, before.objects[o].owner)})
    && (forall r :: r in after.roles ==> r in before.roles && after.roles[r] == before.roles[r])
    && (forall r :: r in before.roles && r !in after.roles ==> r in e && r in before.rows)
    && (forall r :: r in after.rows ==> r in before.rows && after.rows[r] == before.rows[r])
    && (forall r :: r in before.rows && r !in after.rows ==> r in e)
    && after.schemas == before.schemas && after.projects == before.projects
    && after.keys == before.keys && after.super == before.super
  }

  /** What holds from `start` to `db` at every point while the names `e` are being retired. */
  predicate OnCourse(start: DB, db: DB, e: set<Name>) {
    && Inv(start) && Inv(db)
    && Handed(start, db, e)
    && Swept(db, e) == Swept(start, e)
  }

  lemma OnCourseTransitive(a: DB, b: DB, c: DB, e: set<Name>)
    requires OnCourse(a, b, e) && OnCourse(b, c, e)
    ensures OnCourse(a, c, e)
  {
    forall o | o in a.objects
      ensures c.objects[o].owner in {a.objects[o].owner, Heir(a, e, a.objects[o].owner)}
    {
      if b.objects[o].owner != a.objects[o].owner {
        assert b.objects[o].owner == TenantOf(a, a.objects[o].owner);
        assert b.roles[b.objects[o].owner].None?;
      }
    }
  }

  lemma SameHeirs(db: DB, d: DB, e: set<Name>)
    requires RowsConsistent(db) && RowsConsistent(d)
    requires d.objects.Keys == db.objects.Keys
    requires forall o :: o in db.objects ==>
      && d.objects[o].schema == db.objects[o].schema
      && Heir(d, e, d.objects[o].owner) == Heir(db, e, db.objects[o].owner)
    ensures HandedOver(d, e) == HandedOver(db, e)
  {
  }

  // --- One statement at a time -----------------------------------------------------

  lemma GrantKeepsCourse(db: DB, r: Name, e: set<Name>)
    requires Inv(db) && r in e && r in db.roles
    ensures var reply := Exec(db, Grant(r));
            reply.Ran? && OnCourse(db, reply.db, e) && HasPrivs(reply.db, r) &&
            reply.db == db.(granted := reply.db.granted)
  {
    var d := Exec(db, Grant(r)).db;
    assert d.granted - e == db.granted - e;
    SameHeirs(db, d, e);
  }

  /** Belonging to a minted role carries its tenant role's privileges along: whoever has the
      login's privileges, while the login is there, passes the check for the tenant role too. */
  lemma TenantPrivsComeWithRole(db: DB, r: Name)
    requires Inv(db) && r in db.rows && r in db.roles && HasPrivs(db, r)
    ensures HasPrivs(db, TenantOf(db, r)) && TenantOf(db, r) in db.roles
  {
    assert db.roles[r] == Some(TenantOf(db, r));
    assert forall g :: g in db.roles && db.roles[g].Some? ==> db.roles[g].value != r;
  }

  lemma ReassignKeepsCourse(db: DB, r: Name, e: set<Name>)
    requires Inv(db) && r in e && r in db.rows && r in db.roles && HasPrivs(db, r)
    ensures var reply := Exec(db, ReassignOwned(r, TenantOf(db, r)));
            reply.Ran? && OnCourse(db, reply.db, e) && OwnedBy(reply.db, r) == {} && HasPrivs(reply.db, r) &&
            reply.db == db.(objects := reply.db.objects)
  {
    TenantPrivsComeWithRole(db, r);
    assert db.roles[r] == Some(TenantOf(db, r)) && db.roles[TenantOf(db, r)].None?;
    ReassignKeepsInv(db, r, TenantOf(db, r));
    assert TenantOf(db, r) !in db.rows;
    ReownedOnCourse(db, r, e);
    SamePrivs(db, Reowned(db, r, TenantOf(db, r)), r);
    hide Exec, HasPrivs, Inv, OnCourse;
  }

  lemma ReownedOnCourse(db: DB, r: Name, e: set<Name>)
    requires Inv(db) && r in e && r in db.rows && db.projects[db.rows[r].project].pgRole !in db.rows
    requires Inv(Reowned(db, r, TenantOf(db, r)))
    ensures OnCourse(db, Reowned(db, r, TenantOf(db, r)), e)
  {
    InvRows(db);
    hide Inv, MintedRolesRecorded, ProjectsConsistent, OwnershipConsistent;
    SameHeirs(db, Reowned(db, r, TenantOf(db, r)), e);
  }

  lemma InvRows(db: DB)
    requires Inv(db)
    ensures RowsConsistent(db)
  {
  }

  lemma SamePrivs(db: DB, d: DB, r: Name)
    requires HasPrivs(db, r) && d.super == db.super && d.granted == db.granted && d.roles == db.roles
    ensures HasPrivs(d, r)
  {
  }

  function Reowned(db: DB, r: Name, t: Name): DB {
    db.(objects := map o | o in db.objects ::
          if db.objects[o].owner == r then db.objects[o].(owner := t) else db.objects[o])
  }

  /** A minted role owns no schema, so REASSIGN OWNED only moves its objects. */
  lemma ReassignMoves(db: DB, r: Name, t: Name)
    requires OwnershipConsistent(db) && r in db.roles && db.roles[r].Some? && t in db.roles
    requires HasPrivs(db, r) && HasPrivs(db, t)
    ensures Exec(db, ReassignOwned(r, t)) == Ran(Reowned(db, r, t))
  {
    forall s | s in db.schemas ensures db.schemas[s] != r {
      assert db.roles[db.schemas[s]].None?;
    }
    var d := Exec(db, ReassignOwned(r, t)).db;
    assert d.schemas == db.schemas;
  }

  lemma ReassignKeepsInv(db: DB, r: Name, t: Name)
    requires Inv(db) && r in db.roles && db.roles[r].Some? && t in db.roles && db.roles[t].None?
    requires HasPrivs(db, r) && HasPrivs(db, t)
    ensures Exec(db, ReassignOwned(r, t)) == Ran(Reowned(db, r, t))
    ensures Inv(Reowned(db, r, t)) && OwnedBy(Reowned(db, r, t), r) == {}
  {
    ReassignMoves(db, r, t);
    hide HasPrivs, Exec;
  }

  /** DROP OWNED for a role that owns nothing only clears its privileges. */
  function Unprivileged(db: DB, r: Name): DB {
    db.(privileges := set p | p in db.privileges && p.1 != r)
  }

  lemma DropOwnedClears(db: DB, r: Name)
    requires r in db.roles && HasPrivs(db, r) && OwnedBy(db, r) == {}
    ensures Exec(db, DropOwned(r)) == Ran(Unprivileged(db, r))
  {
    var d := WithoutObjects(db, {});
    assert d.objects == db.objects && d.privileges == db.privileges;
  }

  lemma UnprivilegedOnCourse(db: DB, r: Name, e: set<Name>)
    requires Inv(db) && r in e
    ensures OnCourse(db, Unprivileged(db, r), e)
  {
    var d := Unprivileged(db, r);
    assert Swept(d, e) == Swept(db, e) by {
      assert Swept(d, e).privileges == Swept(db, e).privileges;
      SameHeirs(db, d, e);
    }
  }

  lemma DropOwnedKeepsCourse(db: DB, r: Name, e: set<Name>)
    requires Inv(db) && r in e && r in db.roles && HasPrivs(db, r)
    requires OwnedBy(db, r) == {}
    ensures var reply := Exec(db, DropOwned(r));
            reply.Ran? && OnCourse(db, reply.db, e) &&
            reply.db == db.(privileges := reply.db.privileges) &&
            (forall p :: p in reply.db.privileges ==> p.1 != r)
  {
    hide OnCourse;
    DropOwnedClears(db, r);
    UnprivilegedOnCourse(db, r, e);
  }

  /** Once a minted role owns nothing and holds no privilege, it can be dropped. */
  lemma NotDepended(db: DB, r: Name)
    requires Inv(db) && r in db.rows && r in db.roles
    requires OwnedBy(db, r) == {} && forall p :: p in db.privileges ==> p.1 != r
    ensures !Depended(db, r)
  {
    assert db.roles[r].Some?;
    forall o | o in db.objects ensures db.objects[o].owner != r {
      assert o !in OwnedBy(db, r);
    }
  }

  /** A login never has members. */
  lemma LoginHasNoMembers(db: DB, r: Name)
    requires Inv(db) && r in db.roles && db.roles[r].Some?
    ensures forall m :: m in db.roles ==> db.roles[m] != Some(r)
  {
  }

  lemma DropRoleKeepsInv(db: DB, r: Name)
    requires Inv(db) && r in db.roles && db.roles[r].Some? && !Depended(db, r)
    ensures Exec(db, DropRole(r)) == Ran(db.(roles := db.roles - {r}, granted := db.granted - {r}))
    ensures Inv(Exec(db, DropRole(r)).db)
  {
  }

  lemma DropRoleKeepsCourse(db: DB, r: Name, e: set<Name>)
    requires Inv(db) && r in e && r in db.rows && r in db.roles
    requires OwnedBy(db, r) == {} && forall p :: p in db.privileges ==> p.1 != r
    ensures var reply := Exec(db, DropRole(r));
            reply.Ran? && OnCourse(db, reply.db, e) && r !in reply.db.roles && reply.db.rows == db.rows
  {
    NotDepended(db, r);
    assert db.roles[r].Some?;
    DropRoleKeepsInv(db, r);
    hide Exec, Depended, MintedRolesRecorded, ProjectsConsistent, OwnershipConsistent;
    var d := Exec(db, DropRole(r)).db;
    assert d.roles - e == db.roles - e;
    assert d.granted - e == db.granted - e;
    SameHeirs(db, d, e);
  }

  lemma DeleteRowKeepsInv(db: DB, r: Name)
    requires Inv(db) && r !in db.roles
    ensures Inv(db.(rows := db.rows - {r}))
  {
  }

  lemma DeleteRowKeepsHeirs(db: DB, r: Name, e: set<Name>)
    requires Inv(db) && r !in db.roles
    ensures RowsConsistent(db) && RowsConsistent(db.(rows := db.rows - {r}))
    ensures HandedOver(db.(rows := db.rows - {r}), e) == HandedOver(db, e)
  {
    var d := db.(rows := db.rows - {r});
    DeleteRowKeepsInv(db, r);
    SameHeirs(db, d, e);
  }

  lemma DeleteRowKeepsCourse(db: DB, r: Name, e: set<Name>)
    requires Inv(db) && r in e && r !in db.roles
    ensures OnCourse(db, Exec(db, DeleteRow(r)).db, e)
  {
    var d := db.(rows := db.rows - {r});
    DeleteRowKeepsInv(db, r);
    DeleteRowKeepsHeirs(db, r, e);
    hide Inv, RowsConsistent, HandedOver, Heir;
    assert d.rows - e == db.rows - e;
  }

  /** When every name of the work list has lost its role and its row, the goal is reached. */
  lemma NothingLeft(start: DB, db: DB, e: set<Name>)
    requires OnCourse(start, db, e) && e <= start.rows.Keys && forall r :: r in e ==> r !in db.rows
    ensures db == Swept(start, e)
  {
    assert forall r :: r in db.rows ==> r !in e;
    assert db.rows - e == db.rows;
    assert forall r :: r in db.roles && r in e ==> start.roles[r] == db.roles[r] && r in db.rows;
    assert db.roles - e == db.roles;
    assert forall g :: g in db.granted ==> g in db.roles;
    assert db.granted - e == db.granted;
    NothingToHandOver(db, e);
  }

  lemma NothingToHandOver(db: DB, e: set<Name>)
    requires Inv(db) && forall r :: r in e ==> r !in db.rows && r !in db.roles
    ensures HandedOver(db, e) == db.objects
    ensures (set p | p in db.privileges && p.1 !in e) == db.privileges
  {
    forall p | p in db.privileges ensures p.1 !in e {
      var r := p.1;
      assert r in db.roles;
      assert r !in e;
    }
  }

  /** Crash resumption: cut a pass off anywhere.  A new pass at the same clock reading works
      from a shorter list, yet it is heading for exactly the state the first one was. */
  lemma ResumedPassHasSameGoal(start: DB, cutOff: DB, now: int)
    requires OnCourse(start, cutOff, Eligible(start, now))
    ensures Swept(cutOff, Eligible(cutOff, now)) == Swept(start, Eligible(start, now))
  {
    var e, e' := Eligible(start, now), Eligible(cutOff, now);
    forall r | r in cutOff.rows ensures r in e <==> r in e' {
      assert cutOff.rows[r] == start.rows[r];
    }
    forall r | r in cutOff.roles ensures r in e <==> r in e' {
      assert start.roles[r] == cutOff.roles[r];
    }
    OnlyPresentNamesMatter(cutOff, e, e');
  }

  lemma OnlyPresentNamesMatter(db: DB, e: set<Name>, e': set<Name>)
    requires Inv(db)
    requires forall r :: r in db.rows ==> (r in e <==> r in e')
    requires forall r :: r in db.roles ==> (r in e <==> r in e')
    ensures Swept(db, e) == Swept(db, e')
  {
    assert forall r :: r in db.roles - e <==> r in db.roles - e';
    assert forall r :: r in db.rows - e <==> r in db.rows - e';
    assert forall r :: r in db.granted - e <==> r in db.granted - e';
    assert HandedOver(db, e) == HandedOver(db, e');
    assert forall p :: p in Swept(db, e).privileges <==> p in Swept(db, e').privileges;
  }

  /** The bulk DELETE that ends DropForProject keeps every minted role recorded exactly when
      no login of that project exists at that moment, which is to say when no mint for it
      committed after the work list was read. */
  lemma BulkDeleteSafeIffNoneLeft(db: DB, project: nat)
    requires Inv(db)
    ensures Inv(Exec(db, DeleteProjectRows(project)).db) <==>
            (forall r :: r in OfProject(db, project) ==> r !in db.roles)
  {
    var d := Exec(db, DeleteProjectRows(project)).db;
    if r :| r in OfProject(db, project) && r in db.roles {
      assert r in d.roles && d.roles[r].Some? && r !in d.rows;
    } else {
      assert forall r :: r in db.roles && db.roles[r].Some? ==> r in d.rows by {
        assert forall r :: r in db.rows && db.rows[r].project == project ==> r in OfProject(db, project);
      }
    }
  }
}
