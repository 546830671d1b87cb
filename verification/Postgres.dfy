/**
 The part of a Postgres cluster that pwrapd's credential code reads and writes:
 login roles and the role each was created IN ROLE, the memberships of pwrapd's own
 login, schemas, objects with their owners and privileges, and the control-plane
 tables `projects`, `api_keys` and `ephemeral_roles`.

 Each SQL statement is a value; `Exec` gives its effect, or `Refused` when Postgres
 raises an error.  A refused statement changes nothing.
 */
module Postgres {
  import opened Wrappers

  /** A role or schema name.  Statements only ever compare names, so they are numbered. */
  type Name = int

  datatype Row = Row(project: nat, expires: int)
  datatype Project = Project(pgRole: Name, pgSchema: Name, deleted: bool)
  datatype Object = Object(schema: Name, owner: Name)
  datatype Key = Key(project: nat, revoked: bool)

  /** `roles` maps an existing role to the role it was created IN ROLE: `Some` for a
      minted login, `None` for a tenant role.  `super` and `granted` describe pwrapd's
      own login.  `privileges` are grants held on objects by roles other than the owner. */
  datatype DB = DB(
    roles: map<Name, Option<Name>>,
    super: bool,
    granted: set<Name>,
    schemas: map<Name, Name>,
    objects: map<nat, Object>,
    privileges: set<(nat, Name)>,
    rows: map<Name, Row>,
    projects: map<nat, Project>,
    keys: map<nat, Key>)

  datatype Stmt =
    | Grant(role: Name)                         // GRANT role TO CURRENT_USER
    | ReassignOwned(role: Name, to: Name)
    | DropOwned(role: Name)
    | DropRole(role: Name)                      // DROP ROLE IF EXISTS
    | DropSchema(schema: Name)                  // DROP SCHEMA IF EXISTS ... CASCADE; its owner's privileges needed
    | DeleteRow(role: Name)                     // DELETE FROM ephemeral_roles WHERE role_name = role
    | DeleteProjectRows(project: nat)             // DELETE FROM ephemeral_roles WHERE project_id = project
    | MarkDeleted(project: nat)                   // UPDATE projects SET deleted_at = now()
    | RevokeKeys(project: nat)                    // UPDATE api_keys SET revoked_at = now()

  datatype Reply = Refused | Ran(db: DB)

  /** has_privs_of_role for pwrapd's login: a superuser has them, and INHERIT carries a
      membership in a minted role on to the tenant role that one belongs to. */
  predicate HasPrivs(db: DB, role: Name) {
    db.super || role in db.granted ||
    exists g :: g in db.granted && g in db.roles && db.roles[g] == Some(role)
  }

  /** What makes Postgres refuse DROP ROLE: ownership, privileges, or remaining members. */
  predicate Depended(db: DB, role: Name) {
    || (exists s :: s in db.schemas && db.schemas[s] == role)
    || (exists o :: o in db.objects && db.objects[o].owner == role)
    || (exists p :: p in db.privileges && p.1 == role)
    || (exists m :: m in db.roles && db.roles[m] == Some(role))
  }

  function WithoutObjects(db: DB, gone: set<nat>): DB {
    db.(objects := db.objects - gone,
        privileges := set p | p in db.privileges && p.0 !in gone)
  }

  function OwnedBy(db: DB, role: Name): set<nat> {
    set o | o in db.objects && db.objects[o].owner == role
  }

  function InSchema(db: DB, schema: Name): set<nat> {
    set o | o in db.objects && db.objects[o].schema == schema
  }

  function Exec(db: DB, stmt: Stmt): Reply {
    match stmt
    case Grant(r) =>
      if r in db.roles then Ran(db.(granted := db.granted + {r})) else Refused
    case ReassignOwned(r, t) =>
      if r in db.roles && t in db.roles && HasPrivs(db, r) && HasPrivs(db, t) then
        Ran(db.(
          objects := map o | o in db.objects ::
            if db.objects[o].owner == r then db.objects[o].(owner := t) else db.objects[o],
          schemas := map s | s in db.schemas ::
            if db.schemas[s] == r then t else db.schemas[s]))
      else Refused
    case DropOwned(r) =>
      if r in db.roles && HasPrivs(db, r) then
        var d := WithoutObjects(db, OwnedBy(db, r));
        Ran(d.(privileges := set p | p in d.privileges && p.1 != r))
      else Refused
    case DropRole(r) =>
      if r !in db.roles then Ran(db)
      else if Depended(db, r) then Refused
      else Ran(db.(roles := db.roles - {r}, granted := db.granted - {r}))
    case DropSchema(s) =>
      if s in db.schemas && !HasPrivs(db, db.schemas[s]) then Refused
      else
        var d := WithoutObjects(db, InSchema(db, s));
        Ran(d.(schemas := d.schemas - {s}))
    case DeleteRow(r) => Ran(db.(rows := db.rows - {r}))
    case DeleteProjectRows(p) =>
      Ran(db.(rows := map r | r in db.rows && db.rows[r].project != p :: db.rows[r]))
    case MarkDeleted(p) =>
      if p in db.projects then
        Ran(db.(projects := db.projects[p := db.projects[p].(deleted := true)]))
      else Ran(db)
    case RevokeKeys(p) =>
      Ran(db.(keys := map k | k in db.keys ::
        if db.keys[k].project == p then db.keys[k].(revoked := true) else db.keys[k]))
  }

  // --- What every reachable state satisfies ------------------------------------

  /** Every minted role is on the sweeper's work list, for a project that is still live,
      and is a member of exactly that project's tenant role. */
  predicate MintedRolesRecorded(db: DB) {
    forall r :: r in db.roles && db.roles[r].Some? ==>
      && r in db.rows
      && db.rows[r].project in db.projects
      && !db.projects[db.rows[r].project].deleted
      && db.roles[r].value == db.projects[db.rows[r].project].pgRole
  }

  /** Foreign keys, and names that do not clash: a recorded name never names a tenant role. */
  predicate RowsConsistent(db: DB) {
    forall r :: r in db.rows ==>
      db.rows[r].project in db.projects && (r in db.roles ==> db.roles[r].Some?)
  }

  predicate ProjectsConsistent(db: DB) {
    && (forall p :: p in db.projects && !db.projects[p].deleted ==>
          && db.projects[p].pgRole in db.roles
          && db.roles[db.projects[p].pgRole].None?
          && db.projects[p].pgSchema in db.schemas
          && db.schemas[db.projects[p].pgSchema] == db.projects[p].pgRole)
    && (forall p, q :: p in db.projects && q in db.projects && p != q ==>
          db.projects[p].pgRole != db.projects[q].pgRole &&
          db.projects[p].pgSchema != db.projects[q].pgSchema)
    && (forall p :: p in db.projects && db.projects[p].deleted ==>
          db.projects[p].pgRole !in db.roles)
  }

  predicate OwnershipConsistent(db: DB) {
    && (forall o :: o in db.objects ==>
          db.objects[o].owner in db.roles && db.objects[o].schema in db.schemas)
    && (forall s :: s in db.schemas ==>
          db.schemas[s] in db.roles && db.roles[db.schemas[s]].None?)
    && (forall p :: p in db.privileges ==> p.0 in db.objects && p.1 in db.roles)
    && (forall g :: g in db.granted ==> g in db.roles)
  }

  predicate Inv(db: DB) {
    MintedRolesRecorded(db) && RowsConsistent(db) && ProjectsConsistent(db) && OwnershipConsistent(db)
  }

  /** The tenant role a recorded name belongs to (the JOIN of the work-list queries). */
  function TenantOf(db: DB, r: Name): Name
    requires RowsConsistent(db) && r in db.rows
  {
    db.projects[db.rows[r].project].pgRole
  }

  // --- A connection that can fail ------------------------------------------------

  function Send(db: DB, stmt: Stmt, fault: Fault): (r: (DB, bool)) {
    var reply := if fault.Lost? then Refused else Exec(db, stmt);
    (if reply.Ran? then reply.db else db, reply.Ran? && fault.Delivered?)
  }

  /** One of the round trips `from` .. `until` was not delivered. */
  predicate Faulty(net: nat -> Fault, from: nat, until: nat) {
    exists n: nat :: from <= n < until && !net(n).Delivered?
  }

  /** pgxpool.Pool as seen by the control plane.  `net` fixes the fate of the n-th trip. */
  class Pool {
    var db: DB
    var sent: nat
    const net: nat -> Fault

    constructor (db: DB, net: nat -> Fault)
      ensures this.db == db && this.net == net && sent == 0
    {
      this.db, this.net, this.sent := db, net, 0;
    }

    method Exec(stmt: Stmt) returns (ok: bool)
      modifies this
      ensures (db, ok) == Send(old(db), stmt, net(old(sent)))
      ensures sent == old(sent) + 1
    {
      var r := Send(db, stmt, net(sent));
      db, ok, sent := r.0, r.1, sent + 1;
    }

    /** SELECT EXISTS (SELECT 1 FROM pg_roles WHERE rolname = role) */
    method RoleExists(role: Name) returns (ok: bool, exists_: bool)
      modifies this`sent
      ensures sent == old(sent) + 1
      ensures ok == net(old(sent)).Delivered?
      ensures exists_ == (role in db.roles)
    {
      ok, exists_, sent := net(sent).Delivered?, role in db.roles, sent + 1;
    }

    /** SELECT pg_has_role(current_user, role, 'USAGE'), which errors on an unknown role. */
    method HasRole(role: Name) returns (ok: bool, has: bool)
      modifies this`sent
      ensures sent == old(sent) + 1
      ensures ok == (net(old(sent)).Delivered? && role in db.roles)
      ensures has == HasPrivs(db, role)
    {
      ok, has, sent := net(sent).Delivered? && role in db.roles, HasPrivs(db, role), sent + 1;
    }

    /** A work-list query: the recorded names in `wanted` with their tenant roles, in
        whatever order Postgres returns them. */
    method SelectRows(wanted: set<Name>) returns (ok: bool, names: seq<(Name, Name)>)
      requires RowsConsistent(db) && wanted <= db.rows.Keys
      modifies this`sent
      ensures sent == old(sent) + 1
      ensures ok == net(old(sent)).Delivered?
      ensures Lists(names, wanted, db)
    {
      hide Lists, RowsConsistent, TenantOf;
      ok, sent := net(sent).Delivered?, sent + 1;
      names := [];
      ListsNone(db);
      var left := wanted;
      assert wanted - left == {};
      while left != {}
        invariant left <= wanted && sent == old(sent) + 1
        invariant Lists(names, wanted - left, db)
        decreases left
      {
        var r := Pick(left);
        ListsOneMore(names, wanted - left, db, r);
        assert wanted - left + {r} == wanted - (left - {r});
        left := left - {r};
        names := names + [(r, TenantOf(db, r))];
      }
      assert wanted - left == wanted;
    }
  }

  method Pick(names: set<Name>) returns (r: Name)
    requires names != {}
    ensures r in names
  {
    ghost var member := SomeMember(names);
    r :| r in names;
  }

  /** `names` lists every recorded name in `wanted` exactly once, with its tenant role. */
  predicate Lists(names: seq<(Name, Name)>, wanted: set<Name>, db: DB)
    requires RowsConsistent(db) && wanted <= db.rows.Keys
  {
    && |names| == |wanted|
    && (forall i :: 0 <= i < |names| ==> names[i].0 in wanted && names[i].1 == TenantOf(db, names[i].0))
    && (forall i, j :: 0 <= i < j < |names| ==> names[i].0 != names[j].0)
    && (forall r :: r in wanted ==> exists i :: 0 <= i < |names| && names[i].0 == r)
  }

  lemma ListsNone(db: DB)
    requires RowsConsistent(db)
    ensures Lists([], {}, db)
  {
  }

  lemma ListsOneMore(names: seq<(Name, Name)>, listed: set<Name>, db: DB, r: Name)
    requires RowsConsistent(db) && listed <= db.rows.Keys && r in db.rows && r !in listed
    requires Lists(names, listed, db)
    ensures Lists(names + [(r, TenantOf(db, r))], listed + {r}, db)
  {
    var more := names + [(r, TenantOf(db, r))];
    assert more[|names|].0 == r;
    forall x | x in listed + {r}
      ensures exists i :: 0 <= i < |more| && more[i].0 == x
    {
      if x in listed {
        var i :| 0 <= i < |names| && names[i].0 == x;
        assert more[i].0 == x;
      }
    }
  }
}
