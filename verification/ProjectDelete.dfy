/**
 Deleting a project in one transaction whose statement order matters
 (internal/controlplane/projects/service.go:195-263, 384-408).
 */
module ProjectDelete {
  import opened Wrappers
  import opened Postgres
  import opened Ephemeral

  /** The project's minted logins that still exist (ephemeralRoleNames). */
  function Logins(db: DB, p: nat): set<Name> {
    set r | r in db.rows && db.rows[r].project == p && r in db.roles
  }

  /** What the teardown removes: everything in the project's schema, and everything the
      given roles own wherever it is. */
  function Removed(db: DB, p: nat, done: set<Name>): set<nat>
    requires p in db.projects
  {
    set o | o in db.objects && (db.objects[o].schema == db.projects[p].pgSchema || db.objects[o].owner in done)
  }

  /** The database once the row and keys are marked, the schema is dropped, and the logins
      in `done` are gone. */
  function Torn(db: DB, p: nat, done: set<Name>): DB
    requires p in db.projects
  {
    var gone := Removed(db, p, done);
    DB(roles := db.roles - done,
       super := db.super,
       granted := db.granted - done,
       schemas := db.schemas - {db.projects[p].pgSchema},
       objects := db.objects - gone,
       privileges := (set q | q in db.privileges && q.0 !in gone && q.1 !in done),
       rows := db.rows,
       projects := db.projects[p := db.projects[p].(deleted := true)],
       keys := Exec(db, RevokeKeys(p)).db.keys)
  }

  /** The database after a delete that committed. */
  function Deleted(db: DB, p: nat): DB
    requires p in db.projects
  {
    var d := Torn(db, p, Logins(db, p));
    d.(roles := d.roles - {db.projects[p].pgRole}, granted := d.granted - {db.projects[p].pgRole})
  }

  /** The tenant role still owns, or holds a privilege on, something the teardown leaves. */
  predicate HoldsElsewhere(db: DB, p: nat)
    requires p in db.projects
  {
    var t := db.projects[p].pgRole;
    || (exists s :: s in db.schemas && s != db.projects[p].pgSchema && db.schemas[s] == t)
    || (exists o :: o in db.objects && o !in Removed(db, p, Logins(db, p)) &&
          (db.objects[o].owner == t || (o, t) in db.privileges))
  }

  predicate Live(db: DB, p: nat) {
    p in db.projects && !db.projects[p].deleted
  }

  /** What a delete needs to go through: the tenant role's privileges, without which pwrapd's
      login may not drop the schema, and no hold of that role elsewhere. */
  predicate Deletable(db: DB, p: nat)
    requires p in db.projects
  {
    HasPrivs(db, db.projects[p].pgRole) && !HoldsElsewhere(db, p)
  }

  /** DROP SCHEMA is sent before anything is granted: it runs exactly when pwrapd's login has
      the tenant role's privileges already. */
  lemma MarksAndSchema(db: DB, p: nat)
    requires Inv(db) && Live(db, p)
    ensures var a := Exec(db, MarkDeleted(p));
            a.Ran? && var b := Exec(a.db, RevokeKeys(p));
            b.Ran? && Exec(b.db, DropSchema(db.projects[p].pgSchema))
                   == if HasPrivs(db, db.projects[p].pgRole) then Ran(Torn(db, p, {})) else Refused
  {
    var a := Exec(db, MarkDeleted(p)).db;
    var b := Exec(a, RevokeKeys(p)).db;
    if HasPrivs(db, db.projects[p].pgRole) {
      var c := Exec(b, DropSchema(db.projects[p].pgSchema)).db;
      var d := Torn(db, p, {});
      assert InSchema(b, db.projects[p].pgSchema) == Removed(db, p, {});
      assert forall q :: q in c.privileges <==> q in d.privileges;
      assert c.privileges == d.privileges;
      assert c.roles == d.roles && c.granted == d.granted;
      assert c.keys == d.keys;
    }
  }

  /** A login that is no superuser and has been granted nothing can delete no project at all. */
  lemma PlainLoginDeletesNothing(db: DB, p: nat)
    requires Inv(db) && Live(db, p) && !db.super && db.granted == {}
    ensures !Deletable(db, p)
    ensures Exec(Exec(Exec(db, MarkDeleted(p)).db, RevokeKeys(p)).db, DropSchema(db.projects[p].pgSchema)) == Refused
  {
    MarksAndSchema(db, p);
  }

  /** GRANT makes DROP OWNED permitted, DROP OWNED makes DROP ROLE permitted: the three
      statements for one login all run, and take away exactly that login. */
  lemma OneLogin(db: DB, p: nat, done: set<Name>, r: Name)
    requires Inv(db) && Live(db, p) && r in Logins(db, p) && r !in done
    ensures var a := Exec(Torn(db, p, done), Grant(r));
            a.Ran? && var b := Exec(a.db, DropOwned(r));
            b.Ran? && Exec(b.db, DropRole(r)) == Ran(Torn(db, p, done + {r}))
  {
    var d := Torn(db, p, done);
    var a := Exec(d, Grant(r)).db;
    var b := Exec(a, DropOwned(r)).db;
    var t := Torn(db, p, done + {r});
    assert db.roles[r].Some?;
    forall o ensures o in b.objects <==> o in t.objects {
      assert o in OwnedBy(a, r) <==> o in a.objects && a.objects[o].owner == r;
    }
    assert b.objects == t.objects;
    assert forall q :: q in b.privileges <==> q in t.privileges;
    assert b.privileges == t.privileges;
    assert !Depended(b, r);
    var c := Exec(b, DropRole(r)).db;
    assert forall x :: x in c.roles <==> x in t.roles;
    assert c.roles == t.roles;
    assert forall x :: x in c.granted <==> x in t.granted;
    assert c.granted == t.granted;
  }

  /** The last statement is refused exactly when the tenant role has a hold elsewhere. */
  lemma TenantRole(db: DB, p: nat)
    requires Inv(db) && Live(db, p)
    ensures Exec(Torn(db, p, Logins(db, p)), DropRole(db.projects[p].pgRole))
         == if HoldsElsewhere(db, p) then Refused else Ran(Deleted(db, p))
  {
    var t := db.projects[p].pgRole;
    var d := Torn(db, p, Logins(db, p));
    assert t in d.roles;
    forall m | m in db.roles && db.roles[m] == Some(t) ensures m in Logins(db, p) {
      assert db.rows[m].project == p;
    }
    if HoldsElsewhere(db, p) {
      if o :| o in db.objects && o !in Removed(db, p, Logins(db, p)) &&
              (db.objects[o].owner == t || (o, t) in db.privileges) {
        assert o in d.objects;
        if db.objects[o].owner != t { assert (o, t) in d.privileges && (o, t).1 == t; }
      } else {
        var s :| s in db.schemas && s != db.projects[p].pgSchema && db.schemas[s] == t;
        assert s in d.schemas;
      }
      assert Depended(d, t);
    } else {
      forall q | q in d.privileges ensures q.1 != t {
        assert (q.0, q.1) in db.privileges && q.0 in db.objects;
      }
      assert !Depended(d, t);
    }
  }

  /** No role of a project owns or holds anything outside that project's schema. */
  predicate Confined(db: DB) {
    && (forall p, o :: p in db.projects && o in db.objects && BelongsTo(db, db.objects[o].owner, p) ==>
          db.objects[o].schema == db.projects[p].pgSchema)
    && (forall p, q :: p in db.projects && q in db.privileges && q.0 in db.objects && BelongsTo(db, q.1, p) ==>
          db.objects[q.0].schema == db.projects[p].pgSchema)
    && (forall p, s :: p in db.projects && s in db.schemas && db.schemas[s] == db.projects[p].pgRole ==>
          s == db.projects[p].pgSchema)
  }

  predicate BelongsTo(db: DB, role: Name, p: nat)
    requires p in db.projects
  {
    role == db.projects[p].pgRole || (role in db.roles && db.roles[role] == Some(db.projects[p].pgRole))
  }

  /** While roles keep to their own schemas the one thing that can stand in the way of a delete
      is the missing privilege on the schema. */
  lemma ConfinedRefusedIffUnprivileged(db: DB, p: nat)
    requires Inv(db) && Confined(db) && Live(db, p)
    ensures Deletable(db, p) <==> HasPrivs(db, db.projects[p].pgRole)
  {
    var t := db.projects[p].pgRole;
    assert BelongsTo(db, t, p);
    forall o | o in db.objects && (o, t) in db.privileges ensures db.objects[o].schema == db.projects[p].pgSchema {
      assert (o, t).0 == o && (o, t).1 == t;
    }
  }

  lemma LoginsAreRecorded(db: DB, p: nat)
    requires Inv(db) && Live(db, p)
    ensures forall m :: m in db.roles && db.roles[m] == Some(db.projects[p].pgRole) ==> m in Logins(db, p)
  {
    forall m | m in db.roles && db.roles[m] == Some(db.projects[p].pgRole) ensures m in Logins(db, p) {
      assert db.rows[m].project == p;
    }
  }

  /** No DROP ROLE of a delete meets a role that still has members, so nothing here depends on whether
      Postgres refuses such a drop or revokes the memberships. */
  lemma NoMembersAtDrop(db: DB, p: nat, done: set<Name>)
    requires Inv(db) && Live(db, p)
    ensures var d := Torn(db, p, done);
            forall r, m :: r in Logins(db, p) && m in d.roles ==> d.roles[m] != Some(r)
    ensures var d := Torn(db, p, Logins(db, p)); forall m :: m in d.roles ==> d.roles[m] != Some(db.projects[p].pgRole)
  {
    LoginsAreRecorded(db, p);
    forall r | r in Logins(db, p) ensures forall m :: m in db.roles ==> db.roles[m] != Some(r) {
      LoginHasNoMembers(db, r);
    }
  }

  lemma DeletedOwnership(db: DB, p: nat)
    requires Inv(db) && Live(db, p) && !HoldsElsewhere(db, p)
    ensures OwnershipConsistent(Deleted(db, p))
  {
    hide MintedRolesRecorded;
    var d := Deleted(db, p);
    forall o | o in d.objects ensures d.objects[o].owner in d.roles && d.objects[o].schema in d.schemas {
      assert o in db.objects && o !in Removed(db, p, Logins(db, p));
    }
    forall q | q in d.privileges ensures q.0 in d.objects && q.1 in d.roles {
      assert (q.0, q.1) == q && q in db.privileges && q.0 in db.objects;
    }
  }

  lemma DeletedRecords(db: DB, p: nat)
    requires Inv(db) && Live(db, p)
    ensures MintedRolesRecorded(Deleted(db, p)) && RowsConsistent(Deleted(db, p)) && ProjectsConsistent(Deleted(db, p))
  {
    hide Removed;
    LoginsAreRecorded(db, p);
  }

  /** A committed delete leaves a consistent database with no role, schema or live key of the
      project; its rows stay behind, each naming a role that is gone, until the next sweep. */
  lemma DeletedIsClean(db: DB, p: nat)
    requires Inv(db) && Live(db, p) && !HoldsElsewhere(db, p)
    ensures var d := Deleted(db, p);
      && Inv(d) && !Live(d, p)
      && (forall r :: r in d.roles ==> !BelongsTo(d, r, p))
      && db.projects[p].pgSchema !in d.schemas
      && (forall k :: k in d.keys && d.keys[k].project == p ==> d.keys[k].revoked)
      && d.rows == db.rows && (forall r :: r in OfProject(d, p) ==> r !in d.roles)
  {
    DeletedOwnership(db, p);
    DeletedRecords(db, p);
    LoginsAreRecorded(db, p);
    hide HoldsElsewhere, Removed, MintedRolesRecorded, RowsConsistent, ProjectsConsistent, OwnershipConsistent;
  }

  /** Nothing of any other project changes. */
  lemma OthersUntouched(db: DB, p: nat, other: nat)
    requires Inv(db) && Confined(db) && Live(db, p) && other in db.projects && other != p
    ensures var d := Deleted(db, p);
      && d.projects[other] == db.projects[other]
      && (forall r :: r in db.roles && BelongsTo(db, r, other) ==> r in d.roles && d.roles[r] == db.roles[r])
      && (db.projects[other].pgSchema in db.schemas ==>
            d.schemas[db.projects[other].pgSchema] == db.schemas[db.projects[other].pgSchema])
      && (forall o :: o in InSchema(db, db.projects[other].pgSchema) ==>
            o in d.objects && d.objects[o] == db.objects[o])
      && (forall k :: k in db.keys && db.keys[k].project == other ==> d.keys[k] == db.keys[k])
  {
    var d := Deleted(db, p);
    forall r | r in Logins(db, p) ensures BelongsTo(db, r, p) && db.roles[r].Some? {
      assert db.roles[r] == Some(TenantOf(db, r));
    }
    forall o | o in InSchema(db, db.projects[other].pgSchema) ensures o !in Removed(db, p, Logins(db, p)) {
      assert !BelongsTo(db, db.objects[o].owner, p);
    }
  }

  datatype Outcome = NotFound | Failed | Committed

  /** Delete as the service runs it.  Statements act on `tx`; only COMMIT publishes it.  The
      one ambiguous ending is a commit whose acknowledgement is lost. */
  method Delete(pool: Pool, p: nat) returns (result: Outcome)
    requires Inv(pool.db)
    modifies pool
    ensures result.NotFound? ==> pool.db == old(pool.db) && !Live(old(pool.db), p)
    ensures result.Committed? ==> Live(old(pool.db), p) && Deletable(old(pool.db), p) &&
                                  pool.db == Deleted(old(pool.db), p)
    ensures result.Failed? && pool.db != old(pool.db) ==>
              && Live(old(pool.db), p) && Deletable(old(pool.db), p) && pool.db == Deleted(old(pool.db), p)
              && exists n: nat :: pool.net(n).Unacked?
    ensures pool.sent >= old(pool.sent)
    ensures result.Failed? ==>
              Faulty(pool.net, old(pool.sent), pool.sent) || (Live(old(pool.db), p) && !Deletable(old(pool.db), p))
    ensures (forall n :: pool.net(n).Delivered?) ==>
              && (result.NotFound? <==> !Live(old(pool.db), p))
              && (result.Committed? <==> Live(old(pool.db), p) && Deletable(old(pool.db), p))
  {
    hide Deleted, Deletable, Inv;
    var db := pool.db;
    var got := pool.net(pool.sent).Delivered?;
    pool.sent := pool.sent + 1;
    if !got { return Failed; }
    if !(p in db.projects && !db.projects[p].deleted) { return NotFound; }
    var tx, ok := Teardown(pool, p);
    if !ok { return Failed; }
    var fate := pool.net(pool.sent);
    pool.sent := pool.sent + 1;
    if !fate.Lost? { pool.db := tx; }
    return if fate.Delivered? then Committed else Failed;
  }

  /** Everything between BEGIN and COMMIT: mark, revoke, list, then the drops in their order. */
  method Teardown(pool: Pool, p: nat) returns (tx: DB, ok: bool)
    requires Inv(pool.db) && Live(pool.db, p)
    modifies pool`sent
    ensures ok ==> tx == Deleted(pool.db, p) && Deletable(pool.db, p)
    ensures pool.sent >= old(pool.sent)
    ensures !ok ==> Faulty(pool.net, old(pool.sent), pool.sent) || !Deletable(pool.db, p)
  {
    hide Torn, Deleted, HoldsElsewhere, Exec, HasPrivs;
    hide MintedRolesRecorded, RowsConsistent, ProjectsConsistent, OwnershipConsistent;
    var db := pool.db;
    MarksAndSchema(db, p);
    tx, ok := InTx(pool, db, MarkDeleted(p));
    if !ok { return; }
    tx, ok := InTx(pool, tx, RevokeKeys(p));
    if !ok { return; }
    var names;
    ok, names := pool.SelectRows(Logins(pool.db, p));
    if !ok { return; }
    tx, ok := InTx(pool, tx, DropSchema(db.projects[p].pgSchema));
    if !ok { return; }
    ghost var done: set<Name> := {};
    for i := 0 to |names|
      invariant done == set j | 0 <= j < i :: names[j].0
      invariant tx == Torn(db, p, done) && pool.sent >= old(pool.sent)
    {
      tx, ok := DropLogin(pool, tx, names[i].0, db, p, done);
      if !ok { return; }
      done := done + {names[i].0};
    }
    assert forall r :: r in done <==> r in Logins(db, p);
    assert done == Logins(db, p);
    TenantRole(db, p);
    tx, ok := InTx(pool, tx, DropRole(db.projects[p].pgRole));
  }

  /** The three statements for one login. */
  method DropLogin(pool: Pool, tx: DB, r: Name, ghost db: DB, ghost p: nat, ghost done: set<Name>)
    returns (tx': DB, ok: bool)
    requires Inv(db) && Live(db, p) && r in Logins(db, p) && r !in done && tx == Torn(db, p, done)
    modifies pool`sent
    ensures ok ==> tx' == Torn(db, p, done + {r})
    ensures pool.sent >= old(pool.sent)
    ensures !ok ==> Faulty(pool.net, old(pool.sent), pool.sent)
  {
    hide Torn, Exec, Inv, Live;
    OneLogin(db, p, done, r);
    tx', ok := InTx(pool, tx, Grant(r));
    if !ok { return; }
    tx', ok := InTx(pool, tx', DropOwned(r));
    if !ok { return; }
    tx', ok := InTx(pool, tx', DropRole(r));
  }

  /** One statement of an open transaction. */
  method InTx(pool: Pool, tx: DB, stmt: Stmt) returns (tx': DB, ok: bool)
    modifies pool`sent
    ensures (tx', ok) == Send(tx, stmt, pool.net(old(pool.sent)))
    ensures pool.sent == old(pool.sent) + 1
  {
    var r := Send(tx, stmt, pool.net(pool.sent));
    tx', ok := r.0, r.1;
    pool.sent := pool.sent + 1;
  }
}
