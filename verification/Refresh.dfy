/**
 The timed loop by which each SDK replaces its credential before Postgres stops accepting
 it (sdk/go/pwrap/client.go:220-286, sdk/py/pwrap/client.py:178-217,
 sdk/ts/src/client.ts:292-331, internal/controlplane/tenancy/ephemeral.go:52-76).
 Times are in seconds on one clock shared by client and server.
 */
module Refresh {
  /** Wake `lead` before expiry but never in less than `floor`; after a failed attempt sleep
      `retry` before looking at the clock again. */
  datatype Policy = Policy(lead: real, floor: real, retry: real)

  const GO := Policy(120.0, 30.0, 60.0)
  const PYTHON := Policy(120.0, 30.0, 60.0)
  const TYPESCRIPT := Policy(120.0, 30.0, 0.0)

  /** `expires` is the server's expires_at.  `read` is the client's copy, which a JavaScript
      Date trims to milliseconds. */
  datatype Credential = Credential(expires: real, read: real)

  /** VALID UNTIL is written in RFC 3339 without a fraction. */
  function ValidUntil(c: Credential): real {
    c.expires.Floor as real
  }

  const TRIM: real := 0.001

  datatype Attempt =
    | Failed(duration: real)
    | Succeeded(duration: real, minted: real, trimmed: real)   // when in the attempt the role was minted

  predicate Lasts(a: Attempt, limit: real) {
    && 0.0 <= a.duration <= limit
    && (a.Succeeded? ==> 0.0 <= a.minted <= a.duration && 0.0 <= a.trimmed < TRIM)
  }

  function Max(a: real, b: real): real { if a >= b then a else b }

  /** The loop as the source runs it: one turn is the sleep, the attempt, and on failure the
      retry sleep. */
  class Loop {
    const policy: Policy
    const ttl: real
    var current: Credential
    var clock: real

    constructor (policy: Policy, ttl: real, current: Credential, clock: real)
      ensures this.policy == policy && this.ttl == ttl && this.current == current && this.clock == clock
    {
      this.policy, this.ttl, this.current, this.clock := policy, ttl, current, clock;
    }

    method Turn(a: Attempt)
      modifies this
      ensures State(current, clock) == After(policy, ttl, State(old(current), old(clock)), a)
    {
      var wake := current.read - policy.lead - clock;
      if wake < policy.floor {
        wake := policy.floor;
      }
      clock := clock + wake;
      var began := clock;
      clock := clock + a.duration;
      match a {
        case Succeeded(_, minted, trimmed) =>
          var expires := began + minted + ttl;
          current := Credential(expires, expires - trimmed);
        case Failed(_) =>
          clock := clock + policy.retry;
      }
    }
  }

  datatype State = State(current: Credential, clock: real)

  function Began(p: Policy, s: State): real {
    s.clock + Max(s.current.read - p.lead - s.clock, p.floor)
  }

  function After(p: Policy, ttl: real, s: State, a: Attempt): State {
    var ended := Began(p, s) + a.duration;
    match a
    case Failed(_) => State(s.current, ended + p.retry)
    case Succeeded(_, minted, trimmed) =>
      var expires := Began(p, s) + minted + ttl;
      State(Credential(expires, expires - trimmed), ended)
  }

  /** Throughout every turn, up to the swap, the credential in use is one Postgres accepts. */
  predicate AlwaysValid(p: Policy, ttl: real, s: State, run: seq<Attempt>)
    decreases |run|
  {
    run == [] ||
    (After(p, ttl, s, run[0]).clock <= ValidUntil(s.current) &&
     AlwaysValid(p, ttl, After(p, ttl, s, run[0]), run[1..]))
  }

  /** Attempts last at most `limit`, and never more than `k` in a row fail (`failed` so far). */
  predicate Tolerable(run: seq<Attempt>, limit: real, k: nat, failed: nat) {
    run == [] ||
    (Lasts(run[0], limit) &&
     if run[0].Failed? then failed < k && Tolerable(run[1..], limit, k, failed + 1)
     else Tolerable(run[1..], limit, k, 0))
  }

  /** The loop's first state: connected by an exchange that took at most `limit`. */
  predicate Connected(s: State, ttl: real, limit: real) {
    var minted := s.current.expires - ttl;
    minted <= s.clock <= minted + limit && s.current.expires - TRIM < s.current.read <= s.current.expires
  }

  /** How long before expiry the first attempt of a cycle begins at the latest. */
  function Head(p: Policy, ttl: real, limit: real): real {
    if p.lead <= ttl - p.floor - limit then p.lead else ttl - p.floor - limit
  }

  /** The longest time from the start of a cycle's first attempt to the end of its n-th. */
  function Spent(p: Policy, limit: real, n: nat): real
    requires n > 0
  {
    (n - 1) as real * (p.floor + p.retry) + n as real * limit
  }

  /** The margin covers `k` failed attempts, one more, and the second lost to truncation. */
  predicate Enough(p: Policy, ttl: real, limit: real, k: nat) {
    Head(p, ttl, limit) >= 1.0 + Spent(p, limit, k + 1)
  }

  predicate ValidPolicy(p: Policy, ttl: real, limit: real) {
    p.lead >= 0.0 && p.floor >= 0.0 && p.retry >= 0.0 && ttl > 0.0 && limit >= 0.0
  }

  // --- Safety ------------------------------------------------------------------------------

  /** Where the loop stands after `failed` failures in a row. */
  predicate OnTime(p: Policy, ttl: real, limit: real, s: State, failed: nat) {
    && s.current.read <= s.current.expires
    && (if failed == 0 then s.clock <= s.current.expires - ttl + limit
        else && s.clock >= s.current.read - p.lead
             && s.clock <= s.current.expires - Head(p, ttl, limit) + Spent(p, limit, failed) + p.retry)
  }

  lemma SpentOneMore(p: Policy, limit: real, n: nat)
    requires n > 0
    ensures Spent(p, limit, n + 1) == Spent(p, limit, n) + p.retry + p.floor + limit
  {
    var x := p.floor + p.retry;
    assert (n as real) == (n - 1) as real + 1.0;
    assert ((n - 1) as real + 1.0) * x == (n - 1) as real * x + x;
    assert ((n + 1) as real) == n as real + 1.0;
    assert (n as real + 1.0) * limit == n as real * limit + limit;
  }

  lemma SpentGrows(p: Policy, limit: real, n: nat, k: nat)
    requires p.floor >= 0.0 && p.retry >= 0.0 && limit >= 0.0 && 0 < n <= k
    ensures Spent(p, limit, n) <= Spent(p, limit, k)
    decreases k - n
  {
    if n < k {
      SpentOneMore(p, limit, n);
      SpentGrows(p, limit, n + 1, k);
    }
  }

  /** The n-th attempt of a cycle has ended in time. */
  lemma EndsInTime(p: Policy, ttl: real, limit: real, s: State, a: Attempt, failed: nat)
    requires ValidPolicy(p, ttl, limit) && OnTime(p, ttl, limit, s, failed) && Lasts(a, limit)
    ensures Began(p, s) + a.duration <= s.current.expires - Head(p, ttl, limit) + Spent(p, limit, failed + 1)
    ensures Began(p, s) >= s.current.read - p.lead
  {
    if failed > 0 { SpentOneMore(p, limit, failed); }
  }

  lemma TurnIsValid(p: Policy, ttl: real, limit: real, k: nat, s: State, a: Attempt, failed: nat)
    requires ValidPolicy(p, ttl, limit) && Enough(p, ttl, limit, k)
    requires OnTime(p, ttl, limit, s, failed) && Lasts(a, limit)
    requires if a.Failed? then failed < k else failed <= k
    ensures After(p, ttl, s, a).clock <= ValidUntil(s.current)
    ensures OnTime(p, ttl, limit, After(p, ttl, s, a), if a.Failed? then failed + 1 else 0)
  {
    EndsInTime(p, ttl, limit, s, a, failed);
    if a.Failed? {
      SpentOneMore(p, limit, failed + 1);
      SpentGrows(p, limit, failed + 2, k + 1);
    } else {
      SpentGrows(p, limit, failed + 1, k + 1);
    }
  }

  lemma {:induction false} EnoughKeepsValid(p: Policy, ttl: real, limit: real, k: nat, s: State,
                                           run: seq<Attempt>, failed: nat)
    requires ValidPolicy(p, ttl, limit) && Enough(p, ttl, limit, k)
    requires OnTime(p, ttl, limit, s, failed) && failed <= k && Tolerable(run, limit, k, failed)
    ensures AlwaysValid(p, ttl, s, run)
    decreases |run|
  {
    if run != [] {
      TurnIsValid(p, ttl, limit, k, s, run[0], failed);
      EnoughKeepsValid(p, ttl, limit, k, After(p, ttl, s, run[0]), run[1..], if run[0].Failed? then failed + 1 else 0);
    }
  }

  // --- And only then -------------------------------------------------------------------------

  function Failures(n: nat, duration: real): seq<Attempt> {
    seq(n, i => Failed(duration))
  }

  /** `n` failures of the longest duration after the first attempt has begun. */
  lemma {:induction false} FailuresDelay(p: Policy, ttl: real, limit: real, s: State, n: nat, last: Attempt)
    requires ValidPolicy(p, ttl, limit) && last.duration == limit
    requires s.clock >= s.current.read - p.lead
    requires AlwaysValid(p, ttl, s, Failures(n, limit) + [last])
    ensures s.clock + p.floor + Spent(p, limit, n + 1)
          + (if last.Failed? then p.retry else 0.0) <= ValidUntil(s.current)
    decreases n
  {
    var run := Failures(n, limit) + [last];
    if n == 0 {
      assert run[0] == last;
    } else {
      assert run[0] == Failed(limit);
      assert run[1..] == Failures(n - 1, limit) + [last];
      SpentOneMore(p, limit, n);
      FailuresDelay(p, ttl, limit, After(p, ttl, s, run[0]), n - 1, last);
    }
  }

  /** A margin that is too small fails some run: a slow exchange, then `k` slow failures,
      then a slow success, with an expiry whose fraction of a second is nearly one. */
  lemma TooLittleShows(p: Policy, ttl: real, limit: real, k: nat) returns (s: State, run: seq<Attempt>)
    requires ValidPolicy(p, ttl, limit) && !Enough(p, ttl, limit, k)
    ensures Connected(s, ttl, limit) && Tolerable(run, limit, k, 0) && !AlwaysValid(p, ttl, s, run)
  {
    var excess := 1.0 + Spent(p, limit, k + 1) - Head(p, ttl, limit);
    var fraction := if excess < 1.0 then 1.0 - excess / 2.0 else 0.5;
    var whole := ttl.Floor + 1;
    var expires := whole as real + fraction;
    assert expires.Floor == whole;
    s := State(Credential(expires, expires), expires - ttl + limit);
    var last := Succeeded(limit, 0.0, 0.0);
    run := Failures(k, limit) + [last];
    TolerableFailures(limit, k, k, last);
    assert Began(p, s) == expires - Head(p, ttl, limit);
    assert k == 0 ==> run[0] == last;
    if AlwaysValid(p, ttl, s, run) {
      if k > 0 {
        assert run[0] == Failed(limit) && run[1..] == Failures(k - 1, limit) + [last];
        SpentOneMore(p, limit, k);
        FailuresDelay(p, ttl, limit, After(p, ttl, s, run[0]), k - 1, last);
      }
    }
  }

  lemma {:induction false} TolerableFailures(limit: real, k: nat, n: nat, last: Attempt)
    requires n <= k && limit >= 0.0 && last.Succeeded? && Lasts(last, limit)
    ensures Tolerable(Failures(n, limit) + [last], limit, k, k - n)
    decreases n
  {
    var run := Failures(n, limit) + [last];
    if n == 0 {
      assert run[0] == last && run[1..] == [];
    } else {
      assert run[0] == Failed(limit) && run[1..] == Failures(n - 1, limit) + [last];
      TolerableFailures(limit, k, n - 1, last);
    }
  }

  /** The exact margin, over every run: whatever the first exchange and however attempts
      fall out, a loop that never fails more than `k` times in a row always holds a
      credential Postgres accepts, if and only if the margin is enough. */
  lemma AlwaysValidIffEnough(p: Policy, ttl: real, limit: real, k: nat)
    requires ValidPolicy(p, ttl, limit)
    ensures (forall s, run :: Connected(s, ttl, limit) && Tolerable(run, limit, k, 0) ==> AlwaysValid(p, ttl, s, run))
        <==> Enough(p, ttl, limit, k)
  {
    if Enough(p, ttl, limit, k) {
      forall s, run | Connected(s, ttl, limit) && Tolerable(run, limit, k, 0)
        ensures AlwaysValid(p, ttl, s, run)
      {
        EnoughKeepsValid(p, ttl, limit, k, s, run, 0);
      }
    } else {
      var s, run := TooLittleShows(p, ttl, limit, k);
    }
  }

  /** With instantaneous attempts and a TTL of at least 150 s: one failure in a row is
      survived by Go and Python and three by TypeScript, and no more. */
  lemma InstantAttempts(ttl: real)
    requires ttl >= 150.0
    ensures Enough(GO, ttl, 0.0, 1) && !Enough(GO, ttl, 0.0, 2)
    ensures Enough(PYTHON, ttl, 0.0, 1) && !Enough(PYTHON, ttl, 0.0, 2)
    ensures Enough(TYPESCRIPT, ttl, 0.0, 3) && !Enough(TYPESCRIPT, ttl, 0.0, 4)
  {
    assert Spent(GO, 0.0, 3) == 180.0;
    assert Spent(TYPESCRIPT, 0.0, 5) == 120.0;
  }

  /** With slow attempts the same promises hold exactly up to 14.5 s and 7.25 s an attempt,
      so an attempt that uses up the SDKs' 15 s HTTP timeout is already too slow. */
  lemma SlowAttempts(ttl: real, limit: real)
    requires ttl >= 165.0 && 0.0 <= limit <= 15.0
    ensures Enough(GO, ttl, limit, 1) <==> limit <= 14.5
    ensures Enough(PYTHON, ttl, limit, 1) <==> limit <= 14.5
    ensures Enough(TYPESCRIPT, ttl, limit, 3) <==> limit <= 7.25
  {
    assert Spent(GO, limit, 2) == 90.0 + 2.0 * limit;
    assert Spent(TYPESCRIPT, limit, 4) == 90.0 + 4.0 * limit;
  }
}
