/**
 A sweeper of `Lifecycle` with nobody else at work, one round trip after the other: what the methods
 of `Sweeper` are proved to do, whatever becomes of each trip.
 */
module SweepTrips {
  import opened Wrappers
  import opened Postgres
  import opened Lifecycle

  function Alone(db: DB, w: Worker): System { System(db, map[0 := w]) }

  /** The next n round trips, the first of which has number `from`. */
  function Trips(s: System, net: nat -> Fault, from: nat, n: nat): System
    decreases n
  {
    if n == 0 || 0 !in s.workers || s.workers[0].todo == [] then s
    else Trips(DoAdvance(s, 0, net(from)), net, from + 1, n - 1)
  }

  lemma {:induction false} TripsCompose(s: System, net: nat -> Fault, from: nat, a: nat, b: nat)
    ensures Trips(s, net, from, a + b) == Trips(Trips(s, net, from, a), net, from + a, b)
    decreases a
  {
    hide DoAdvance;
    if a > 0 && 0 in s.workers && s.workers[0].todo != [] {
      TripsCompose(DoAdvance(s, 0, net(from)), net, from + 1, a - 1, b);
    }
  }

  /** From `s` the trips `from` .. `until` lead to `t`. */
  predicate Leads(s: System, net: nat -> Fault, from: nat, until: nat, t: System) {
    from <= until && Trips(s, net, from, until - from) == t
  }

  lemma NoTrip(s: System, net: nat -> Fault, n: nat)
    ensures Leads(s, net, n, n, s)
  {
  }

  lemma ThenTrips(s: System, net: nat -> Fault, from: nat, mid: nat, until: nat, t: System, u: System)
    requires Leads(s, net, from, mid, t) && Leads(t, net, mid, until, u)
    ensures Leads(s, net, from, until, u)
  {
    hide Trips;
    TripsCompose(s, net, from, mid - from, until - mid);
  }

  lemma OneTrip(db: DB, w: Worker, net: nat -> Fault, n: nat)
    requires w.todo != []
    ensures Leads(Alone(db, w), net, n, n + 1, DoAdvance(Alone(db, w), 0, net(n)))
  {
    hide DoAdvance;
    assert Trips(DoAdvance(Alone(db, w), 0, net(n)), net, n + 1, 0) == DoAdvance(Alone(db, w), 0, net(n));
  }

  /** A look and what comes of it. */
  lemma LookTrip(db: DB, w: Worker, net: nat -> Fault, n: nat, answered: bool, then_: Stage)
    requires w.todo != [] && DoAdvance(Alone(db, w), 0, net(n)) == Look(Alone(db, w), 0, answered, then_)
    ensures Leads(Alone(db, w), net, n, n + 1, Alone(db, if answered then w.(stage := then_) else NextName(w)))
  {
    OneTrip(db, w, net, n);
    assert map[0 := w][0 := if answered then w.(stage := then_) else NextName(w)]
        == map[0 := if answered then w.(stage := then_) else NextName(w)];
  }

  /** A statement and what comes of it. */
  lemma TryTrip(db: DB, w: Worker, net: nat -> Fault, n: nat, stmt: Stmt, then_: Worker)
    requires w.todo != [] && DoAdvance(Alone(db, w), 0, net(n)) == Try(Alone(db, w), 0, stmt, net(n), then_)
    ensures var (d, ok) := Send(db, stmt, net(n));
            Leads(Alone(db, w), net, n, n + 1, Alone(d, if ok then then_ else NextName(w)))
  {
    hide Send;
    OneTrip(db, w, net, n);
    var ok := Send(db, stmt, net(n)).1;
    assert map[0 := w][0 := if ok then then_ else NextName(w)] == map[0 := if ok then then_ else NextName(w)];
  }

  lemma ExistsTrip(db: DB, w: Worker, net: nat -> Fault, n: nat)
    requires w.todo != [] && w.stage == CheckExists
    ensures Leads(Alone(db, w), net, n, n + 1,
                  Alone(db, if !net(n).Delivered? then NextName(w)
                            else w.(stage := if w.todo[0].0 in db.roles then CheckRole else ForgetRow)))
  {
    LookTrip(db, w, net, n, net(n).Delivered?, if w.todo[0].0 in db.roles then CheckRole else ForgetRow);
  }

  /** The two membership checks. */
  function Checked(w: Worker, second: bool): Name
    requires w.todo != []
  {
    if second then w.todo[0].1 else w.todo[0].0
  }

  function CheckStage(second: bool): Stage { if second then CheckTenant else CheckRole }
  function GrantStage(second: bool): Stage { if second then GrantTenant else GrantRole }
  function AfterCheck(second: bool): Stage { if second then Reassign else CheckTenant }

  lemma CheckTrip(db: DB, w: Worker, second: bool, net: nat -> Fault, n: nat)
    requires w.todo != [] && w.stage == CheckStage(second)
    ensures var r := Checked(w, second);
            Leads(Alone(db, w), net, n, n + 1,
                  Alone(db, if !(net(n).Delivered? && r in db.roles) then NextName(w)
                            else w.(stage := if HasPrivs(db, r) then AfterCheck(second) else GrantStage(second))))
  {
    hide HasPrivs;
    var r := Checked(w, second);
    LookTrip(db, w, net, n, net(n).Delivered? && r in db.roles,
             if HasPrivs(db, r) then AfterCheck(second) else GrantStage(second));
  }

  lemma GrantTrip(db: DB, w: Worker, second: bool, net: nat -> Fault, n: nat)
    requires w.todo != [] && w.stage == GrantStage(second)
    ensures var (d, ok) := Send(db, Grant(Checked(w, second)), net(n));
            Leads(Alone(db, w), net, n, n + 1, Alone(d, if ok then w.(stage := AfterCheck(second)) else NextName(w)))
  {
    hide Send;
    TryTrip(db, w, net, n, Grant(Checked(w, second)), w.(stage := AfterCheck(second)));
  }

  /** The statement at each of the other stages, and where it leads. */
  lemma StatementTrip(db: DB, w: Worker, net: nat -> Fault, n: nat)
    requires w.todo != [] && w.window == {} && w.stage in {Reassign, ClearOwned, DropIt, ForgetRow}
    ensures var (r, tenant) := w.todo[0];
            var stmt := match w.stage
                        case Reassign => ReassignOwned(r, tenant)
                        case ClearOwned => Stmt.DropOwned(r)
                        case DropIt => Stmt.DropRole(r)
                        case _ => DeleteRow(r);
            var then_ := match w.stage
                         case Reassign => w.(stage := ClearOwned)
                         case ClearOwned => w.(stage := DropIt)
                         case DropIt => w.(stage := ForgetRow)
                         case _ => NextName(w);
            var (d, ok) := Send(db, stmt, net(n));
            Leads(Alone(db, w), net, n, n + 1, Alone(d, if ok then then_ else NextName(w)))
  {
    hide Send;
    var (r, tenant) := w.todo[0];
    match w.stage
    case Reassign => TryTrip(db, w, net, n, ReassignOwned(r, tenant), w.(stage := ClearOwned));
    case ClearOwned => TryTrip(db, w, net, n, Stmt.DropOwned(r), w.(stage := DropIt));
    case DropIt => TryTrip(db, w, net, n, Stmt.DropRole(r), w.(stage := ForgetRow));
    case ForgetRow => TryTrip(db, w, net, n, DeleteRow(r), NextName(w));
  }
}
