/**
 Two sweepers and a reused role name: runs from an empty cluster that reach the two situations
 in which a mint's name matters (internal/controlplane/tenancy/ephemeral.go:98-146, 201-231).
 */
module SweeperRaces {
  import opened Wrappers
  import opened Postgres
  import opened Ephemeral
  import opened Lifecycle
  import opened Conservation

  /** Some run from an empty cluster, all of whose mints drew free and harmless names. */
  ghost predicate Reachable(super: bool, s: System) {
    exists steps :: Leads(super, steps, s)
  }

  ghost predicate Leads(super: bool, steps: seq<Step>, s: System) {
    && Possible(Fresh(super), steps) && NamesFree(Fresh(super), steps) && NamesHarmless(Fresh(super), steps)
    && Run(Fresh(super), steps) == s
  }

  lemma {:induction false} RunAppends(s: System, steps: seq<Step>, step: Step)
    requires Possible(s, steps) && NamesFree(s, steps) && NamesHarmless(s, steps)
    requires var t := Run(s, steps); Enabled(t, step) && NameFree(t, step) && NameHarmless(t, step)
    ensures var more := steps + [step];
            && Possible(s, more) && NamesFree(s, more) && NamesHarmless(s, more)
            && Run(s, more) == Do(Run(s, steps), step)
    decreases |steps|
  {
    hide Enabled, NameFree, NameHarmless, Do;
    if steps == [] {
      assert Run(s, steps) == s;
      assert steps + [step] == [step];
      OneStep(s, step);
    } else {
      assert (steps + [step])[1..] == steps[1..] + [step];
      RunAppends(Do(s, steps[0]), steps[1..], step);
    }
  }

  lemma Extends(super: bool, s: System, step: Step)
    requires Reachable(super, s) && Enabled(s, step) && NameFree(s, step) && NameHarmless(s, step)
    ensures Reachable(super, Do(s, step))
  {
    var steps :| Leads(super, steps, s);
    RunAppends(Fresh(super), steps, step);
    assert Leads(super, steps + [step], Do(s, step));
  }

  // --- The scene: one project, one expired login, two sweepers that both listed it -----------

  const TENANT: Name := 1
  const SCHEMA: Name := 2
  const LOGIN: Name := 3
  const NOW: int := SWEEP_GRACE + 1

  function Cluster(super: bool, there: bool, recorded: bool, expires: int): DB {
    DB(if there then map[TENANT := None, LOGIN := Some(TENANT)] else map[TENANT := None],
       super, {}, map[SCHEMA := TENANT], map[], {},
       if recorded then map[LOGIN := Row(0, expires)] else map[],
       map[0 := Project(TENANT, SCHEMA, false)], map[])
  }

  function Busy(stage: Stage): Worker { Worker([(LOGIN, TENANT)], stage, {}, NOW) }

  function Scene(there: bool, recorded: bool, a: Worker, b: Worker): System {
    System(Cluster(true, there, recorded, 0), map[0 := a, 1 := b])
  }

  lemma Setup(super: bool)
    ensures Reachable(super, System(Cluster(super, true, true, 0), map[0 := Busy(CheckExists), 1 := Busy(CheckExists)]))
  {
    assert Leads(super, [], Fresh(super));
    var s1 := System(Cluster(super, false, false, 0), map[]);
    Extends(super, Fresh(super), CreateProject(0, TENANT, SCHEMA));
    assert Do(Fresh(super), CreateProject(0, TENANT, SCHEMA)) == s1;
    var s2 := System(Cluster(super, true, true, 0), map[]);
    Extends(super, s1, MintRole(LOGIN, 0, 0));
    assert Do(s1, MintRole(LOGIN, 0, 0)) == s2;
    var list := [(LOGIN, TENANT)];
    Listing(super);
    var s3 := System(Cluster(super, true, true, 0), map[0 := Busy(CheckExists)]);
    Extends(super, s2, Begin(0, NOW, list));
    assert Do(s2, Begin(0, NOW, list)) == s3;
    Extends(super, s3, Begin(1, NOW, list));
    assert Do(s3, Begin(1, NOW, list)).workers == map[0 := Busy(CheckExists), 1 := Busy(CheckExists)];
  }

  lemma Listing(super: bool)
    ensures RowsConsistent(Cluster(super, true, true, 0))
    ensures Lists([(LOGIN, TENANT)], Eligible(Cluster(super, true, true, 0), NOW), Cluster(super, true, true, 0))
  {
    assert Eligible(Cluster(super, true, true, 0), NOW) == {LOGIN};
    assert [(LOGIN, TENANT)][0].0 == LOGIN;
  }

  /** The first sweeper's way through the statements. */
  function Next(stage: Stage): Stage {
    match stage
    case CheckExists => CheckRole
    case CheckRole => CheckTenant
    case CheckTenant => Reassign
    case Reassign => ClearOwned
    case ClearOwned => DropIt
    case _ => ForgetRow
  }

  predicate OnTheWay(stage: Stage) {
    stage in {CheckExists, CheckRole, CheckTenant, Reassign, ClearOwned, DropIt}
  }

  lemma Statements(expires: int)
    ensures var db := Cluster(true, true, true, expires);
            && Exec(db, ReassignOwned(LOGIN, TENANT)) == Ran(db)
            && Exec(db, Stmt.DropOwned(LOGIN)) == Ran(db)
            && Exec(db, Stmt.DropRole(LOGIN)) == Ran(Cluster(true, false, true, expires))
  {
    var db := Cluster(true, true, true, expires);
    assert (map s | s in db.schemas :: if db.schemas[s] == LOGIN then TENANT else db.schemas[s]) == db.schemas;
    assert OwnedBy(db, LOGIN) == {};
    assert WithoutObjects(db, {}) == db;
    assert db.roles - {LOGIN} == Cluster(true, false, true, expires).roles;
  }

  lemma Moves(s: System, id: nat, stage: Stage, expires: int)
    requires OnTheWay(stage) && s.db == Cluster(true, true, true, expires)
    requires id in s.workers && s.workers[id] == Busy(stage)
    ensures DoAdvance(s, id, Delivered)
         == System(Cluster(true, stage != DropIt, true, expires), s.workers[id := Busy(Next(stage))])
  {
    Statements(expires);
    hide Exec;
  }

  lemma Walks(stage: Stage, b: Worker)
    requires OnTheWay(stage) && Reachable(true, Scene(true, true, Busy(stage), b))
    ensures Reachable(true, Scene(stage != DropIt, true, Busy(Next(stage)), b))
  {
    var s := Scene(true, true, Busy(stage), b);
    Extends(true, s, Advance(0, Delivered));
    Moves(s, 0, stage, 0);
    assert DoAdvance(s, 0, Delivered) == Scene(stage != DropIt, true, Busy(Next(stage)), b);
  }

  function Left(stage: Stage): nat {
    match stage
    case CheckExists => 6
    case CheckRole => 5
    case CheckTenant => 4
    case Reassign => 3
    case ClearOwned => 2
    case DropIt => 1
    case _ => 0
  }

  /** An undisturbed sweeper drops the role at the head of its list. */
  lemma Drops(s: System, id: nat, stage: Stage, expires: int) returns (steps: seq<Step>)
    requires OnTheWay(stage) && s.db == Cluster(true, true, true, expires)
    requires id in s.workers && s.workers[id] == Busy(stage)
    ensures Possible(s, steps) && NamesFree(s, steps) && NamesHarmless(s, steps)
    ensures Run(s, steps) == System(Cluster(true, false, true, expires), s.workers[id := Busy(ForgetRow)])
    decreases Left(stage)
  {
    Moves(s, id, stage, expires);
    hide Cluster, DoAdvance;
    var t := DoAdvance(s, id, Delivered);
    if stage == DropIt {
      steps := [Advance(id, Delivered)];
      OneStep(s, Advance(id, Delivered));
    } else {
      var rest := Drops(t, id, Next(stage), expires);
      steps := [Advance(id, Delivered)] + rest;
      assert steps[1..] == rest;
    }
  }

  /** The first sweeper has dropped the role and is about to forget its row; the second has not
      looked yet. */
  lemma FirstHasDropped()
    ensures Reachable(true, Scene(false, true, Busy(ForgetRow), Busy(CheckExists)))
  {
    Setup(true);
    assert Scene(true, true, Busy(CheckExists), Busy(CheckExists)) ==
           System(Cluster(true, true, true, 0), map[0 := Busy(CheckExists), 1 := Busy(CheckExists)]);
    hide Reachable, Scene;
    Walks(CheckExists, Busy(CheckExists));
    Walks(CheckRole, Busy(CheckExists));
    Walks(CheckTenant, Busy(CheckExists));
    Walks(Reassign, Busy(CheckExists));
    Walks(ClearOwned, Busy(CheckExists));
    Walks(DropIt, Busy(CheckExists));
  }

  lemma FirstForgets(b: Worker)
    requires Reachable(true, Scene(false, true, Busy(ForgetRow), b))
    ensures Reachable(true, Scene(false, false, NextName(Busy(ForgetRow)), b))
  {
    var s := Scene(false, true, Busy(ForgetRow), b);
    Extends(true, s, Advance(0, Delivered));
    assert s.db.rows - {LOGIN} == map[];
    assert DoAdvance(s, 0, Delivered) == Scene(false, false, NextName(Busy(ForgetRow)), b);
  }

  /** The second sweeper finds the role gone, the first forgets its row, the name is minted
      again, and the second forgets the new row: a role that is recorded nowhere. */
  lemma TwoSweepersLoseReusedName(expires: int) returns (s: System)
    ensures Reachable(true, s)
    ensures var mint := MintRole(LOGIN, 0, expires);
            && Enabled(s, mint) && Commits(s, mint) && !NameFree(s, mint)
            && Enabled(Do(s, mint), Advance(1, Delivered))
            && !MintedRolesRecorded(Do(Do(s, mint), Advance(1, Delivered)).db)
  {
    s := SecondHasLooked();
    var mint := MintRole(LOGIN, 0, expires);
    ReachableIsGood(true, s);
    ForgottenAtOnce(s, mint, 1);
  }

  lemma SecondHasLooked() returns (s: System)
    ensures Reachable(true, s) && s == Scene(false, false, NextName(Busy(ForgetRow)), Busy(ForgetRow))
  {
    FirstHasDropped();
    var s1 := Scene(false, true, Busy(ForgetRow), Busy(CheckExists));
    Extends(true, s1, Advance(1, Delivered));
    assert DoAdvance(s1, 1, Delivered) == Scene(false, true, Busy(ForgetRow), Busy(ForgetRow));
    FirstForgets(Busy(ForgetRow));
    s := Scene(false, false, NextName(Busy(ForgetRow)), Busy(ForgetRow));
  }

  /** If the second sweeper looks only after the name was minted again, it retires the new role,
      however far that is from its expiry. */
  lemma TwoSweepersRetireReusedName(expires: int) returns (s: System, steps: seq<Step>)
    requires expires >= NOW
    ensures Reachable(true, s)
    ensures var mint := MintRole(LOGIN, 0, expires);
            && Enabled(s, mint) && Commits(s, mint) && NameFree(s, mint) && !NameHarmless(s, mint)
            && var t := Do(s, mint);
               && LOGIN in t.db.roles && Possible(t, steps) && NamesFree(t, steps) && NamesHarmless(t, steps)
               && LOGIN !in Run(t, steps).db.roles
  {
    FirstHasDropped();
    FirstForgets(Busy(CheckExists));
    s := Scene(false, false, NextName(Busy(ForgetRow)), Busy(CheckExists));
    var mint := MintRole(LOGIN, 0, expires);
    assert s.workers[1].todo[0].0 == LOGIN;
    var t := Do(s, mint);
    assert t == System(Cluster(true, true, true, expires), s.workers);
    steps := Drops(t, 1, CheckExists, expires);
  }

  lemma ReachableIsGood(super: bool, s: System)
    requires Reachable(super, s)
    ensures Good(s) && AllMeant(s)
  {
    var steps :| Leads(super, steps, s);
    FreshClusterIsGood(super);
    RunKeepsMeant(Fresh(super), steps);
  }

  // --- An object created too late --------------------------------------------------------------

  /** A client creates an object as the login after the sweeper has reassigned what the login owned:
      the sweeper's next statement destroys it. */
  lemma LateObjectIsLost(o: nat) returns (s: System)
    ensures Reachable(true, s)
    ensures Enabled(s, Advance(0, Delivered)) && o in s.db.objects && s.db.objects[o] == Object(SCHEMA, LOGIN)
    ensures o !in Do(s, Advance(0, Delivered)).db.objects
  {
    Setup(true);
    var b := Busy(CheckExists);
    assert Scene(true, true, b, b) == System(Cluster(true, true, true, 0), map[0 := b, 1 := b]);
    hide Reachable, Scene;
    Walks(CheckExists, b);
    Walks(CheckRole, b);
    Walks(CheckTenant, b);
    Walks(Reassign, b);
    s := CreatesLate(o, b);
  }

  lemma CreatesLate(o: nat, b: Worker) returns (s: System)
    requires Reachable(true, Scene(true, true, Busy(ClearOwned), b))
    ensures Reachable(true, s)
    ensures Enabled(s, Advance(0, Delivered)) && o in s.db.objects && s.db.objects[o] == Object(SCHEMA, LOGIN)
    ensures o !in Do(s, Advance(0, Delivered)).db.objects
  {
    var before := Scene(true, true, Busy(ClearOwned), b);
    Extends(true, before, CreateObject(o, SCHEMA, LOGIN));
    s := Do(before, CreateObject(o, SCHEMA, LOGIN));
    ReachableIsGood(true, s);
    ObjectGoesIff(s, 0, Delivered, o);
  }

  // --- A second grant ----------------------------------------------------------------------------

  /** The cluster of an administrator that is no superuser and has been granted some roles. */
  function Plain(there: bool, granted: set<Name>): DB {
    Cluster(false, there, true, 0).(granted := granted)
  }

  function PlainScene(there: bool, granted: set<Name>, a: Stage, b: Stage): System {
    System(Plain(there, granted), map[0 := Busy(a), 1 := Busy(b)])
  }

  lemma PlainStatements()
    ensures var db := Plain(true, {LOGIN});
            && Exec(db, ReassignOwned(LOGIN, TENANT)) == Ran(db)
            && Exec(db, Stmt.DropOwned(LOGIN)) == Ran(db)
            && Exec(db, Stmt.DropRole(LOGIN)) == Ran(Plain(false, {}))
            && HasPrivs(db, LOGIN) && HasPrivs(db, TENANT)
    ensures Exec(Plain(true, {}), Grant(LOGIN)) == Ran(Plain(true, {LOGIN})) && !HasPrivs(Plain(true, {}), LOGIN)
    ensures Exec(Plain(false, {}), Grant(TENANT)) == Ran(Plain(false, {TENANT})) && !HasPrivs(Plain(false, {}), TENANT)
  {
    var db := Plain(true, {LOGIN});
    assert db.roles[LOGIN] == Some(TENANT);
    assert (map s | s in db.schemas :: if db.schemas[s] == LOGIN then TENANT else db.schemas[s]) == db.schemas;
    assert OwnedBy(db, LOGIN) == {};
    assert WithoutObjects(db, {}) == db;
    assert db.roles - {LOGIN} == Plain(false, {}).roles;
    assert {LOGIN} - {LOGIN} == {};
    assert {} + {LOGIN} == {LOGIN} && {} + {TENANT} == {TENANT};
  }

  lemma Advances(super: bool, s: System, id: nat, t: System)
    requires Reachable(super, s) && id in s.workers && s.workers[id].todo != [] && DoAdvance(s, id, Delivered) == t
    ensures Reachable(super, t)
  {
    Extends(super, s, Advance(id, Delivered));
  }

  lemma FirstMoves()
    ensures DoAdvance(PlainScene(true, {}, CheckExists, CheckExists), 0, Delivered)
         == PlainScene(true, {}, CheckRole, CheckExists)
    ensures DoAdvance(PlainScene(true, {}, CheckRole, CheckExists), 0, Delivered)
         == PlainScene(true, {}, GrantRole, CheckExists)
    ensures DoAdvance(PlainScene(true, {}, GrantRole, CheckExists), 0, Delivered)
         == PlainScene(true, {LOGIN}, CheckTenant, CheckExists)
  {
    PlainStatements();
    hide Exec, HasPrivs;
  }

  /** The first sweeper up to its grant of the login. */
  lemma FirstGrantsItself()
    ensures Reachable(false, PlainScene(true, {LOGIN}, CheckTenant, CheckExists))
  {
    Setup(false);
    var s0 := PlainScene(true, {}, CheckExists, CheckExists);
    assert s0 == System(Cluster(false, true, true, 0), map[0 := Busy(CheckExists), 1 := Busy(CheckExists)]);
    FirstMoves();
    hide DoAdvance, Reachable, Cluster;
    Advances(false, s0, 0, PlainScene(true, {}, CheckRole, CheckExists));
    Advances(false, PlainScene(true, {}, CheckRole, CheckExists), 0, PlainScene(true, {}, GrantRole, CheckExists));
    Advances(false, PlainScene(true, {}, GrantRole, CheckExists), 0,
             PlainScene(true, {LOGIN}, CheckTenant, CheckExists));
  }

  function SecondAfter(stage: Stage): System {
    if stage == DropIt then PlainScene(false, {}, CheckTenant, ForgetRow)
    else PlainScene(true, {LOGIN}, CheckTenant, Next(stage))
  }

  lemma SecondMoves(stage: Stage)
    requires OnTheWay(stage)
    ensures DoAdvance(PlainScene(true, {LOGIN}, CheckTenant, stage), 1, Delivered) == SecondAfter(stage)
  {
    PlainStatements();
    hide Exec, HasPrivs;
    assert map[0 := Busy(CheckTenant), 1 := Busy(stage)][1 := Busy(Next(stage))]
        == map[0 := Busy(CheckTenant), 1 := Busy(Next(stage))];
  }

  /** The second sweeper's statements, one at a time. */
  lemma SecondWalks(stage: Stage)
    requires OnTheWay(stage) && Reachable(false, PlainScene(true, {LOGIN}, CheckTenant, stage))
    ensures Reachable(false, SecondAfter(stage))
  {
    SecondMoves(stage);
    hide DoAdvance, Reachable, Cluster;
    Advances(false, PlainScene(true, {LOGIN}, CheckTenant, stage), 1, SecondAfter(stage));
  }

  /** Between the first sweeper's two checks the second drops the login, and with it goes the
      membership: the first grants itself the tenant role, which nobody ever revokes. */
  lemma TwoSweepersGrantTenant() returns (s: System)
    ensures Reachable(false, s) && Enabled(s, Advance(0, Delivered))
    ensures s.workers[0].todo != [] && s.workers[0].stage == GrantTenant
    ensures Do(s, Advance(0, Delivered)).db.granted == {TENANT}
  {
    FirstGrantsItself();
    hide Reachable, PlainScene;
    SecondWalks(CheckExists);
    SecondWalks(CheckRole);
    SecondWalks(CheckTenant);
    SecondWalks(Reassign);
    SecondWalks(ClearOwned);
    SecondWalks(DropIt);
    assert SecondAfter(DropIt) == PlainScene(false, {}, CheckTenant, ForgetRow);
    s := FirstFindsItGone();
  }

  lemma FirstFindsItGone() returns (s: System)
    requires Reachable(false, PlainScene(false, {}, CheckTenant, ForgetRow))
    ensures Reachable(false, s) && Enabled(s, Advance(0, Delivered))
    ensures s.workers[0].todo != [] && s.workers[0].stage == GrantTenant
    ensures Do(s, Advance(0, Delivered)).db.granted == {TENANT}
  {
    LastMoves();
    hide DoAdvance, Reachable, Cluster;
    s := PlainScene(false, {}, GrantTenant, ForgetRow);
    Advances(false, PlainScene(false, {}, CheckTenant, ForgetRow), 0, s);
  }

  lemma LastMoves()
    ensures DoAdvance(PlainScene(false, {}, CheckTenant, ForgetRow), 0, Delivered)
         == PlainScene(false, {}, GrantTenant, ForgetRow)
    ensures DoAdvance(PlainScene(false, {}, GrantTenant, ForgetRow), 0, Delivered).db.granted == {TENANT}
  {
    PlainStatements();
    hide Exec, HasPrivs;
  }
}
