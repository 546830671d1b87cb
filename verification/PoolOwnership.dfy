/**
 Who owns the Go client's connection pools: the refresh loop, the clients derived with
 `WithUser`, the delayed closes and `Close` (sdk/go/pwrap/client.go:68-75, 147-187, 219-286).
 */
module PoolOwnership {
  type User = string
  type PoolId = nat

  /** A client: the user it is bound to, and whether it holds the refresh handles. */
  datatype Handle = Handle(user: User, root: bool)

  /** The refresh goroutine: between refreshes, with a new pool being pinged, or gone. */
  datatype Loop = Idle | Pinging(pool: PoolId) | Exited

  /** `open[p]` says whether pool p is open; `grace` are the pools that wait for their delayed
      close; `cancelled` that `Close` has asked the loop to stop, `closed` that it has returned. */
  datatype State = State(open: seq<bool>, current: PoolId, grace: set<PoolId>,
                         loop: Loop, cancelled: bool, closed: bool)

  const INITIAL := State([true], 0, {}, Idle, false, false)

  datatype Step =
    | ExchangeFails            // no credentials, or no pool: nothing to undo
    | Opens                    // new credentials, new pool
    | PingFails                // the new pool is closed again
    | Swap                     // the new pool becomes the current one
    | GraceCloses(pool: PoolId)
    | CloseStarts(handle: Handle)
    | LoopExits
    | CloseEnds                // `Close` has seen the loop exit and closes the pool

  predicate Enabled(s: State, step: Step) {
    match step
    case ExchangeFails => s.loop == Idle
    case Opens => s.loop == Idle
    case PingFails => s.loop.Pinging?
    case Swap => s.loop.Pinging?
    case GraceCloses(p) => p in s.grace
    case CloseStarts(_) => true
    case LoopExits => s.cancelled && s.loop == Idle
    case CloseEnds => s.cancelled && s.loop == Exited
  }

  function Do(s: State, step: Step): State
    requires Shape(s) && Enabled(s, step)
  {
    match step
    case ExchangeFails => s
    case Opens => s.(open := s.open + [true], loop := Pinging(|s.open|))
    case PingFails => s.(open := s.open[s.loop.pool := false], loop := Idle)
    case Swap => s.(current := s.loop.pool, grace := s.grace + {s.current}, loop := Idle)
    case GraceCloses(p) => s.(open := s.open[p := false], grace := s.grace - {p})
    case CloseStarts(h) =>
      if h.user != "" then s
      else if h.root then s.(cancelled := true)
      else s.(open := s.open[s.current := false])
    case LoopExits => s.(loop := Exited)
    case CloseEnds => s.(open := s.open[s.current := false], closed := true)
  }

  predicate Shape(s: State) {
    && s.current < |s.open|
    && (forall p :: p in s.grace ==> p < |s.open|)
    && (s.loop.Pinging? ==> s.loop.pool < |s.open|)
  }

  // --- What every step keeps ------------------------------------------------------------------

  /** The three owners never share a pool, and an open pool has an owner: none leaks. */
  predicate Owned(s: State) {
    && Shape(s)
    && s.current !in s.grace
    && (s.loop.Pinging? ==> s.loop.pool == |s.open| - 1 && s.loop.pool != s.current && s.loop.pool !in s.grace)
    && (s.loop.Pinging? ==> s.open[s.loop.pool])
    && (forall p :: 0 <= p < |s.open| && s.open[p] ==> p == s.current || p in s.grace || s.loop == Pinging(p))
    && (s.closed ==> s.cancelled && s.loop == Exited && !s.open[s.current])
  }

  /** What is waiting for its close is still open, and so is the pool in use until `Close`. */
  predicate Sound(s: State) {
    && Owned(s)
    && (forall p :: p in s.grace ==> s.open[p])
    && (s.open[s.current] <==> !s.closed)
  }

  /** `Close` on a derived client that is bound to no user. */
  predicate Stray(step: Step) { step.CloseStarts? && step.handle.user == "" && !step.handle.root }

  lemma StepKeepsOwned(s: State, step: Step)
    requires Owned(s) && Enabled(s, step)
    ensures Owned(Do(s, step))
    ensures Sound(s) && !Stray(step) ==> Sound(Do(s, step))
  {
  }

  // --- Runs -----------------------------------------------------------------------------------

  ghost predicate Reaches(steps: seq<Step>, s: State) {
    if steps == [] then s == INITIAL
    else
      exists before ::
        && Shape(before)
        && Reaches(steps[..|steps| - 1], before)
        && Enabled(before, steps[|steps| - 1])
        && s == Do(before, steps[|steps| - 1])
  }

  function Openings(steps: seq<Step>): nat {
    if steps == [] then 0
    else Openings(steps[..|steps| - 1]) + if steps[|steps| - 1] == Opens then 1 else 0
  }

  /** The pool of the latest exchange that went through to the end, read off the steps. */
  function Latest(steps: seq<Step>): PoolId {
    if steps == [] then 0
    else if steps[|steps| - 1] == Swap then Openings(steps[..|steps| - 1])
    else Latest(steps[..|steps| - 1])
  }

  /** Something closed the current pool since it became current. */
  predicate CutOff(steps: seq<Step>) {
    if steps == [] || steps[|steps| - 1] == Swap then false
    else steps[|steps| - 1] == CloseEnds || Stray(steps[|steps| - 1]) || CutOff(steps[..|steps| - 1])
  }

  /** Over every run: no pool leaks or has two owners; the current one belongs to the latest
      successful exchange; it is open exactly if nothing closed it since. */
  lemma {:induction false} EveryRun(steps: seq<Step>, s: State)
    requires Reaches(steps, s)
    ensures Owned(s)
    ensures |s.open| == 1 + Openings(steps)
    ensures s.current == Latest(steps)
    ensures s.open[s.current] <==> !CutOff(steps)
    ensures s.closed <==> CloseEnds in steps
    decreases |steps|
  {
    if steps != [] {
      var rest, step := steps[..|steps| - 1], steps[|steps| - 1];
      var before :| Shape(before) && Reaches(rest, before) && Enabled(before, step) && s == Do(before, step);
      EveryRun(rest, before);
      StepKeepsOwned(before, step);
      StepEffect(before, step);
      LastEntry(steps);
      hide Owned, Do, Enabled, Reaches, Openings, Latest, CutOff, Stray;
    }
  }

  lemma LastEntry(steps: seq<Step>)
    requires steps != []
    ensures var rest, step := steps[..|steps| - 1], steps[|steps| - 1];
            && Openings(steps) == Openings(rest) + (if step.Opens? then 1 else 0)
            && Latest(steps) == (if step.Swap? then Openings(rest) else Latest(rest))
            && (CutOff(steps) <==> !step.Swap? && (step.CloseEnds? || Stray(step) || CutOff(rest)))
            && (CloseEnds in steps <==> CloseEnds in rest || step.CloseEnds?)
  {
    assert steps == steps[..|steps| - 1] + [steps[|steps| - 1]];
  }

  lemma StepEffect(s: State, step: Step)
    requires Owned(s) && Enabled(s, step)
    ensures var t := Do(s, step);
            && |t.open| == |s.open| + (if step.Opens? then 1 else 0)
            && t.current == (if step.Swap? then |s.open| - 1 else s.current) < |t.open|
            && (t.open[t.current] <==> step.Swap? || (s.open[s.current] && !step.CloseEnds? && !Stray(step)))
            && (t.closed <==> s.closed || step.CloseEnds?)
  {
  }

  /** As long as no derived client without a user is closed, every pool is exactly one of in
      use, being tried, awaiting its close, or closed; the pool in use is open until `Close`
      returns, and none is open and in use after. */
  lemma {:induction false} EveryRunSound(steps: seq<Step>, s: State)
    requires Reaches(steps, s) && forall i :: 0 <= i < |steps| ==> !Stray(steps[i])
    ensures Sound(s)
    decreases |steps|
  {
    if steps != [] {
      var rest, step := steps[..|steps| - 1], steps[|steps| - 1];
      var before :| Shape(before) && Reaches(rest, before) && Enabled(before, step) && s == Do(before, step);
      EveryRunSound(rest, before);
      StepKeepsOwned(before, step);
    }
  }

  /** Once `Close` has returned, whatever still happens, nothing is opened, and when the delayed
      closes have run every pool ever opened is closed. */
  lemma NothingAfterClose(steps: seq<Step>, s: State, step: Step)
    requires Reaches(steps, s) && CloseEnds in steps && Enabled(s, step)
    ensures Shape(s) && Do(s, step).current == s.current && Do(s, step).closed
    ensures forall p :: 0 <= p < |Do(s, step).open| ==>
              p < |s.open| && (Do(s, step).open[p] ==> s.open[p] && p in s.grace)
    ensures s.grace == {} ==> forall p :: 0 <= p < |s.open| ==> !s.open[p]
  {
    EveryRun(steps, s);
  }

  /** Closing a derived client is harmless exactly when it is bound to a user: for the empty
      user the pool that every other client uses is closed under them. */
  lemma CloseOnDerived(steps: seq<Step>, s: State, user: User)
    requires Reaches(steps, s) && !CutOff(steps)
    ensures Shape(s) && (Do(s, CloseStarts(Handle(user, false))) == s <==> user != "")
  {
    EveryRun(steps, s);
  }

  // --- The client and the state it shares -------------------------------------------------------

  class Conn {
    var state: State

    constructor ()
      ensures state == INITIAL
    {
      state := INITIAL;
    }

    /** One refresh: `gotPool` and `pinged` say how far it gets.  Errors leave the pool alone. */
    method Refresh(gotPool: bool, pinged: bool) returns (ok: bool)
      requires Sound(state) && state.loop == Idle
      modifies this
      ensures Sound(state) && state.loop == Idle && state.closed == old(state).closed
      ensures ok == (gotPool && pinged)
      ensures ok ==> state.current == |old(state).open| && state.grace == old(state).grace + {old(state).current}
      ensures !ok ==> state.current == old(state).current && state.grace == old(state).grace
      ensures state.open == old(state).open + if gotPool then [pinged] else []
    {
      if !gotPool { return false; }
      StepKeepsOwned(state, Opens);
      var newPool := |state.open|;
      state := state.(open := state.open + [true], loop := Pinging(newPool));
      if !pinged {
        StepKeepsOwned(state, PingFails);
        state := state.(open := state.open[newPool := false], loop := Idle);
        return false;
      }
      StepKeepsOwned(state, Swap);
      var previous := state.current;
      state := state.(current := newPool, loop := Idle);
      state := state.(grace := state.grace + {previous});
      return true;
    }
  }

  class Client {
    const conn: Conn
    const handle: Handle

    constructor (conn: Conn, handle: Handle)
      ensures this.conn == conn && this.handle == handle
    {
      this.conn, this.handle := conn, handle;
    }

    function Pool(): PoolId
      reads conn
    {
      conn.state.current
    }

    /** A copy that shares the pool and never the refresh handles. */
    method WithUser(user: User) returns (clone: Client)
      ensures fresh(clone) && clone.conn == conn && clone.handle == Handle(user, false)
      ensures clone.Pool() == Pool()
    {
      clone := new Client(conn, Handle(user, false));
    }

    /** A refresh that is pinging its new pool when the loop is cancelled still ends one way or the
        other (`pinged`) before the loop exits, which `Close` waits for. */
    method Close(pinged: bool)
      requires Sound(conn.state) && (conn.state.loop == Exited ==> conn.state.cancelled)
      modifies conn
      ensures handle.user != "" ==> conn.state == old(conn.state)
      ensures handle.user == "" && handle.root ==>
                && Sound(conn.state) && conn.state.closed && !conn.state.open[Pool()]
                && |conn.state.open| == |old(conn.state).open|
                && (if pinged && old(conn.state).loop.Pinging?
                    then Pool() == old(conn.state).loop.pool &&
                         conn.state.grace == old(conn.state).grace + {old(Pool())}
                    else Pool() == old(Pool()) && conn.state.grace == old(conn.state).grace)
      ensures handle.user == "" && !handle.root ==>
                conn.state == old(conn.state).(open := old(conn.state).open[old(Pool()) := false])
    {
      if handle.user != "" { return; }
      if handle.root {
        StepKeepsOwned(conn.state, CloseStarts(handle));
        conn.state := conn.state.(cancelled := true);
        if conn.state.loop.Pinging? { EndRefresh(pinged); }
        if conn.state.loop == Idle {
          StepKeepsOwned(conn.state, LoopExits);
          conn.state := conn.state.(loop := Exited);
        }
        StepKeepsOwned(conn.state, CloseEnds);
        conn.state := conn.state.(closed := true);
      }
      conn.state := conn.state.(open := conn.state.open[conn.state.current := false]);
    }

    method EndRefresh(pinged: bool)
      requires Sound(conn.state) && conn.state.loop.Pinging?
      modifies conn
      ensures conn.state == Do(old(conn.state), if pinged then Swap else PingFails) && Sound(conn.state)
    {
      var step := if pinged then Swap else PingFails;
      StepKeepsOwned(conn.state, step);
      conn.state := Do(conn.state, step);
    }
  }
}
