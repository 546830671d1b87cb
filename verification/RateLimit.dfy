/**
 The per-key token-bucket limiter with TTL eviction (internal/auth/ratelimit.go:12-77).
 Time and tokens are real numbers; a bucket starts full, refills at `rps`, is capped at
 `burst`, and a request takes one token if there is one.
 */
module RateLimit {
  import opened Wrappers

  datatype Config = Config(rps: real, burst: nat, ttl: real)

  predicate ValidConfig(c: Config) {
    c.rps >= 0.0 && c.ttl > 0.0
  }

  datatype Bucket = Bucket(tokens: real, last: real)
  datatype Entry = Entry(bucket: Bucket, lastAccess: real)
  type Table = map<string, Entry>

  function Min(a: real, b: real): real { if a <= b then a else b }

  /** The tokens in a bucket at time `t`. */
  function Tokens(c: Config, b: Bucket, t: real): real {
    Min(c.burst as real, b.tokens + Refill(c.rps, t - b.last))
  }

  /** What flows in over a span of time. */
  function Refill(rps: real, span: real): real { rps * span }

  function Take(c: Config, b: Bucket, now: real): (Bucket, bool) {
    var available := Tokens(c, b, now);
    if available >= 1.0 then (Bucket(available - 1.0, now), true) else (b, false)
  }

  function Full(c: Config, now: real): Bucket {
    Bucket(c.burst as real, now)
  }

  function AllowStep(c: Config, m: Table, key: string, now: real): (Table, bool) {
    if key == "" then (m, true)
    else
      var bucket := if key in m then m[key].bucket else Full(c, now);
      var (b, ok) := Take(c, bucket, now);
      (m[key := Entry(b, now)], ok)
  }

  /** Entries idle for longer than the TTL go. */
  function Evict(c: Config, m: Table, now: real): Table {
    map k | k in m && now - m[k].lastAccess <= c.ttl :: m[k]
  }

  class Limiter {
    var limiters: Table
    const config: Config

    constructor (config: Config)
      ensures limiters == map[] && this.config == config
    {
      limiters, this.config := map[], config;
    }

    method Allow(key: string, now: real) returns (ok: bool)
      modifies this
      ensures (limiters, ok) == AllowStep(config, old(limiters), key, now)
    {
      if key == "" { return true; }
      if key !in limiters {
        limiters := limiters[key := Entry(Full(config, now), now)];
      }
      var taken := Take(config, limiters[key].bucket, now);
      limiters := limiters[key := Entry(taken.0, now)];
      ok := taken.1;
      assert limiters == old(limiters)[key := Entry(taken.0, now)];
    }

    /** One tick of StartCleanup: the entries are visited in an arbitrary order. */
    method Cleanup(now: real)
      modifies this
      ensures limiters == Evict(config, old(limiters), now)
    {
      var all := limiters;
      var left := limiters.Keys;
      while left != {}
        invariant left <= all.Keys
        invariant limiters == map k | k in all && (k in left || now - all[k].lastAccess <= config.ttl) :: all[k]
        decreases left
      {
        ghost var member := SomeMember(left);
        var k :| k in left;
        if now - limiters[k].lastAccess > config.ttl {
          limiters := limiters - {k};
        }
        left := left - {k};
      }
    }
  }

  // --- Runs --------------------------------------------------------------------------

  datatype Event = Request(key: string, at: real) | Tick(at: real)

  /** Time does not run backwards. */
  predicate Timed(events: seq<Event>, from: real) {
    events == [] || (from <= events[0].at && Timed(events[1..], events[0].at))
  }

  /** The table after an event; without eviction a tick does nothing. */
  function After(c: Config, evicting: bool, m: Table, e: Event): Table {
    match e
    case Request(key, at) => AllowStep(c, m, key, at).0
    case Tick(at) => if evicting then Evict(c, m, at) else m
  }

  function Answer(c: Config, m: Table, e: Event): seq<bool> {
    if e.Request? then [AllowStep(c, m, e.key, e.at).1] else []
  }

  function Answers(c: Config, evicting: bool, m: Table, events: seq<Event>): seq<bool>
    decreases |events|
  {
    if events == [] then []
    else Answer(c, m, events[0]) + Answers(c, evicting, After(c, evicting, m, events[0]), events[1..])
  }

  // --- Eviction is invisible -----------------------------------------------------------

  lemma MulMonotone(x: real, a: real, b: real)
    requires x >= 0.0 && a <= b
    ensures x * a <= x * b
  {
  }

  lemma MulNonNegative(x: real, a: real)
    requires x >= 0.0 && a >= 0.0
    ensures x * a >= 0.0
  {
  }

  lemma MulSplit(x: real, a: real, b: real)
    ensures x * (a + b) == x * a + x * b
  {
  }

  lemma RefillSplit(x: real, a: real, b: real)
    ensures Refill(x, a + b) == Refill(x, a) + Refill(x, b)
  {
    MulSplit(x, a, b);
  }

  lemma RefillAtLeast(x: real, a: real, b: real)
    requires x >= 0.0 && 0.0 <= a <= b
    ensures Refill(x, a) <= Refill(x, b) && 0.0 <= Refill(x, b)
  {
    MulMonotone(x, a, b);
    MulNonNegative(x, b);
  }

  /** What a bucket will hold later depends only on what it holds now. */
  lemma TokensLater(c: Config, b: Bucket, now: real, later: real)
    requires ValidConfig(c) && now <= later
    ensures Tokens(c, b, later) == Min(c.burst as real, Tokens(c, b, now) + Refill(c.rps, later - now))
    ensures Tokens(c, b, later) >= Tokens(c, b, now)
  {
    hide Refill;
    var before, since := now - b.last, later - now;
    RefillSplit(c.rps, before, since);
    assert before + since == later - b.last;
    RefillAtLeast(c.rps, 0.0, since);
  }

  predicate Sane(c: Config, e: Entry, now: real) {
    e.bucket.last <= e.lastAccess <= now && e.bucket.tokens >= 0.0
  }

  /** The evicting table `m` against the one that never evicts, `n`: the same buckets, and a
      key that was evicted would by now be full anyway. */
  predicate Agree(c: Config, m: Table, n: Table, now: real) {
    && (forall k :: k in m ==>
          && k in n && Sane(c, m[k], now) && m[k].lastAccess == n[k].lastAccess
          && Tokens(c, m[k].bucket, now) == Tokens(c, n[k].bucket, now))
    && (forall k :: k in n ==> Sane(c, n[k], now))
    && (forall k :: k in n && k !in m ==> Tokens(c, n[k].bucket, now) == c.burst as real)
  }

  lemma AgreeLater(c: Config, m: Table, n: Table, now: real, later: real)
    requires ValidConfig(c) && Agree(c, m, n, now) && now <= later
    ensures Agree(c, m, n, later)
  {
    forall k | k in n ensures Tokens(c, n[k].bucket, later) >= Tokens(c, n[k].bucket, now)
                           && (k in m ==> Tokens(c, m[k].bucket, later) == Tokens(c, n[k].bucket, later)) {
      TokensLater(c, n[k].bucket, now, later);
      if k in m { TokensLater(c, m[k].bucket, now, later); }
    }
  }

  lemma IdleIsFull(c: Config, e: Entry, now: real)
    requires ValidConfig(c) && Refill(c.rps, c.ttl) >= c.burst as real
    requires Sane(c, e, now) && now - e.lastAccess > c.ttl
    ensures Tokens(c, e.bucket, now) == c.burst as real
  {
    hide Refill;
    RefillAtLeast(c.rps, c.ttl, now - e.bucket.last);
  }

  lemma AgreeAfter(c: Config, m: Table, n: Table, e: Event)
    requires ValidConfig(c) && Refill(c.rps, c.ttl) >= c.burst as real
    requires Agree(c, m, n, e.at)
    ensures Agree(c, After(c, true, m, e), After(c, false, n, e), e.at)
    ensures Answer(c, m, e) == Answer(c, n, e)
  {
    match e
    case Request(key, at) =>
      if key != "" {
        assert Tokens(c, Full(c, at), at) == c.burst as real;
      }
    case Tick(at) =>
      forall k | k in m && k !in Evict(c, m, at) ensures Tokens(c, n[k].bucket, at) == c.burst as real {
        IdleIsFull(c, n[k], at);
      }
  }

  function TableAfter(c: Config, evicting: bool, m: Table, events: seq<Event>): Table
    decreases |events|
  {
    if events == [] then m else TableAfter(c, evicting, After(c, evicting, m, events[0]), events[1..])
  }

  predicate Spends(c: Config, m: Table, key: string, e: Event) {
    e.Request? && e.key == key && AllowStep(c, m, key, e.at).1
  }

  /** How many requests for `key` get through. */
  function Admitted(c: Config, evicting: bool, m: Table, events: seq<Event>, key: string): nat
    decreases |events|
  {
    if events == [] then 0
    else
      var e := events[0];
      (if Spends(c, m, key, e) then 1 else 0)
      + Admitted(c, evicting, After(c, evicting, m, e), events[1..], key)
  }

  /** While a bucket refills completely within the TTL, evicting it changes no answer. */
  lemma {:induction false} EvictionInvisible(c: Config, m: Table, n: Table, events: seq<Event>, now: real, key: string)
    requires ValidConfig(c) && Refill(c.rps, c.ttl) >= c.burst as real
    requires Agree(c, m, n, now) && Timed(events, now)
    ensures Answers(c, true, m, events) == Answers(c, false, n, events)
    ensures Admitted(c, true, m, events, key) == Admitted(c, false, n, events, key)
    ensures Agree(c, TableAfter(c, true, m, events), TableAfter(c, false, n, events),
                  if events == [] then now else events[|events| - 1].at)
    decreases |events|
  {
    if events != [] {
      var e := events[0];
      AgreeLater(c, m, n, now, e.at);
      AgreeAfter(c, m, n, e);
      EvictionInvisible(c, After(c, true, m, e), After(c, false, n, e), events[1..], e.at, key);
      if |events| > 1 { assert events[1..][|events| - 2] == events[|events| - 1]; }
    }
  }

  // --- The admission bound ---------------------------------------------------------------

  function Available(c: Config, m: Table, key: string, t: real): real {
    if key in m then Tokens(c, m[key].bucket, t) else c.burst as real
  }

  lemma AvailableLater(c: Config, m: Table, key: string, now: real, later: real)
    requires ValidConfig(c) && now <= later
    ensures Available(c, m, key, later) == Min(c.burst as real, Available(c, m, key, now) + Refill(c.rps, later - now))
    ensures Available(c, m, key, now) >= 0.0 ==> Available(c, m, key, later) >= 0.0
  {
    hide Refill, Tokens;
    RefillAtLeast(c.rps, 0.0, later - now);
    if key in m { TokensLater(c, m[key].bucket, now, later); }
  }

  /** An admitted request costs one token, anything else leaves the key's tokens alone. */
  lemma AvailableAfter(c: Config, m: Table, key: string, e: Event)
    requires ValidConfig(c) && key != ""
    ensures Available(c, After(c, false, m, e), key, e.at)
         == Available(c, m, key, e.at) - (if Spends(c, m, key, e) then 1.0 else 0.0)
    ensures Spends(c, m, key, e) ==> Available(c, m, key, e.at) >= 1.0
  {
    TokensNow(c, c.burst as real, e.at);
    if Spends(c, m, key, e) {
      TokensNow(c, Available(c, m, key, e.at) - 1.0, e.at);
    }
  }

  lemma TokensNow(c: Config, tokens: real, now: real)
    ensures Tokens(c, Bucket(tokens, now), now) == Min(c.burst as real, tokens)
  {
  }

  lemma {:induction false} SpentWithinRefill(c: Config, m: Table, events: seq<Event>, key: string,
                                            from: real, until: real)
    requires ValidConfig(c) && key != "" && Timed(events, from) && from <= until
    requires forall e :: e in events ==> e.at <= until
    requires Available(c, m, key, from) >= 0.0
    ensures Admitted(c, false, m, events, key) as real <= Available(c, m, key, from) + Refill(c.rps, until - from)
    decreases |events|
  {
    hide Refill, Available, After, Spends;
    RefillAtLeast(c.rps, 0.0, until - from);
    if events == [] {
      AdmittedNone(c, m, key);
    } else {
      var e := events[0];
      assert e in events;
      var at, m' := e.at, After(c, false, m, e);
      AvailableLater(c, m, key, from, at);
      AvailableAfter(c, m, key, e);
      RefillAtLeast(c.rps, 0.0, at - from);
      SpentWithinRefill(c, m', events[1..], key, at, until);
      assert (at - from) + (until - at) == until - from;
      RefillSplit(c.rps, at - from, until - at);
    }
  }

  lemma {:induction false} TimedSplit(a: seq<Event>, b: seq<Event>, from: real)
    requires Timed(a + b, from)
    ensures Timed(a, from) && Timed(b, if a == [] then from else a[|a| - 1].at)
    decreases |a|
  {
    if a == [] {
      assert a + b == b;
    } else {
      assert (a + b)[1..] == a[1..] + b;
      TimedSplit(a[1..], b, a[0].at);
      if |a| > 1 { assert a[1..][|a| - 2] == a[|a| - 1]; }
    }
  }

  lemma {:induction false} TimedLater(events: seq<Event>, from: real, start: real)
    requires Timed(events, from) && (events != [] ==> start <= events[0].at)
    ensures Timed(events, start)
  {
  }

  /** In any window of any run, across evictions and whatever other keys do, a key gets at
      most its burst plus what refills during the window. */
  lemma WindowBound(c: Config, history: seq<Event>, window: seq<Event>, key: string, t1: real, t2: real)
    requires ValidConfig(c) && Refill(c.rps, c.ttl) >= c.burst as real && key != ""
    requires Timed(history + window, 0.0) && t1 <= t2
    requires forall e :: e in window ==> t1 <= e.at <= t2
    ensures Admitted(c, true, TableAfter(c, true, map[], history), window, key) as real
         <= c.burst as real + Refill(c.rps, t2 - t1)
  {
    hide Tokens, After, Admitted, Answers, TableAfter, Timed, Refill, Agree, Sane, Available;
    var m, n := TableAfter(c, true, map[], history), TableAfter(c, false, map[], history);
    var now := if history == [] then 0.0 else history[|history| - 1].at;
    TimedSplit(history, window, 0.0);
    NothingYet(c);
    EvictionInvisible(c, map[], map[], history, 0.0, key);
    EvictionInvisible(c, m, n, window, now, key);
    RefillAtLeast(c.rps, 0.0, t2 - t1);
    if window == [] {
      AdmittedNone(c, n, key);
    } else {
      assert window[0] in window;
      TimedStart(window, now);
      WindowFrom(c, m, n, window, key, now, t2);
      RefillAtLeast(c.rps, t2 - window[0].at, t2 - t1);
    }
  }

  lemma NothingYet(c: Config)
    ensures Agree(c, map[], map[], 0.0)
  {
  }

  lemma AdmittedNone(c: Config, m: Table, key: string)
    ensures Admitted(c, false, m, [], key) == 0
  {
  }

  lemma TimedStart(events: seq<Event>, from: real)
    requires Timed(events, from) && events != []
    ensures from <= events[0].at && Timed(events, events[0].at)
  {
  }

  lemma StartsNonNegative(c: Config, n: Table, key: string, now: real, start: real)
    requires ValidConfig(c) && (key in n ==> Sane(c, n[key], now)) && now <= start
    ensures 0.0 <= Available(c, n, key, start) <= c.burst as real
  {
    hide Refill;
    if key in n { RefillAtLeast(c.rps, 0.0, start - n[key].bucket.last); }
  }

  lemma WindowFrom(c: Config, m: Table, n: Table, window: seq<Event>, key: string, now: real, until: real)
    requires ValidConfig(c) && key != "" && Agree(c, m, n, now)
    requires window != [] && Timed(window, window[0].at) && now <= window[0].at <= until
    requires forall e :: e in window ==> e.at <= until
    ensures Admitted(c, false, n, window, key) as real <= c.burst as real + Refill(c.rps, until - window[0].at)
  {
    hide Refill, Admitted, Tokens;
    StartsNonNegative(c, n, key, now, window[0].at);
    SpentWithinRefill(c, n, window, key, window[0].at, until);
  }

  // --- When eviction shows ------------------------------------------------------------------

  /** The ticker fires only at whole multiples of the TTL. */
  predicate OnTheTick(c: Config, events: seq<Event>) {
    forall e :: e in events && e.Tick? ==> e.at == c.ttl || e.at == 2.0 * c.ttl
  }

  function Spend(key: string, at: real, n: nat): seq<Event> {
    seq(n, i => Request(key, at))
  }

  lemma {:induction false} SpendAll(c: Config, evicting: bool, m: Table, key: string, at: real, n: nat)
    requires ValidConfig(c) && key != "" && Available(c, m, key, at) >= n as real
    ensures Admitted(c, evicting, m, Spend(key, at, n), key) == n
    ensures var m' := TableAfter(c, evicting, m, Spend(key, at, n));
            && Available(c, m', key, at) == Available(c, m, key, at) - n as real
            && (n > 0 ==> key in m' && m'[key].lastAccess == at)
            && (forall k :: k in m' ==> k in m || k == key)
    decreases n
  {
    if n > 0 {
      var s := Spend(key, at, n);
      assert s[1..] == Spend(key, at, n - 1);
      AvailableAfter(c, m, key, s[0]);
      SpendAll(c, evicting, After(c, evicting, m, s[0]), key, at, n - 1);
      if n == 1 { assert s[1..] == []; }
    }
  }

  lemma {:induction false} Concat(c: Config, evicting: bool, m: Table, a: seq<Event>, b: seq<Event>, key: string)
    ensures var m' := TableAfter(c, evicting, m, a);
            && TableAfter(c, evicting, m, a + b) == TableAfter(c, evicting, m', b)
            && Admitted(c, evicting, m, a + b, key)
            == Admitted(c, evicting, m, a, key) + Admitted(c, evicting, m', b, key)
    decreases |a|
  {
    if a == [] {
      assert a + b == b;
    } else {
      assert (a + b)[1..] == a[1..] + b;
      Concat(c, evicting, After(c, evicting, m, a[0]), a[1..], b, key);
    }
  }

  function Trues(answers: seq<bool>): nat {
    if answers == [] then 0 else (if answers[0] then 1 else 0) + Trues(answers[1..])
  }

  lemma {:induction false} AdmittedAreTrues(c: Config, evicting: bool, m: Table, events: seq<Event>, key: string)
    requires forall e :: e in events && e.Request? ==> e.key == key
    ensures Admitted(c, evicting, m, events, key) == Trues(Answers(c, evicting, m, events))
    decreases |events|
  {
    if events != [] {
      var e, m' := events[0], After(c, evicting, m, events[0]);
      assert e in events;
      AdmittedAreTrues(c, evicting, m', events[1..], key);
      var rest := Answers(c, evicting, m', events[1..]);
      if e.Request? {
        assert (Answer(c, m, e) + rest)[1..] == rest;
      } else {
        assert Answer(c, m, e) + rest == rest;
      }
    }
  }

  /** A wait longer than the TTL after which a drained bucket is still not full. */
  lemma ShortRefill(c: Config) returns (extra: real)
    requires ValidConfig(c) && Refill(c.rps, c.ttl) < c.burst as real
    ensures 0.0 < extra < c.ttl && c.rps * (c.ttl + extra) < c.burst as real
  {
    extra := c.ttl / 2.0;
    MulSplit(c.rps, c.ttl, extra);
    if c.rps * (c.ttl + extra) >= c.burst as real {
      var missing := c.burst as real - Refill(c.rps, c.ttl);
      extra := missing / (2.0 * c.rps);
      assert c.rps * extra == missing / 2.0;
      MulSplit(c.rps, c.ttl, extra);
      if extra >= c.ttl { MulMonotone(c.rps, c.ttl / 2.0, extra); }
    }
  }

  function Ticks(c: Config): seq<Event> {
    [Tick(c.ttl), Tick(2.0 * c.ttl)]
  }

  lemma AfterTicks(c: Config, evicting: bool, m: Table, key: string)
    ensures var m' := After(c, evicting, m, Tick(c.ttl));
            TableAfter(c, evicting, m, Ticks(c)) == After(c, evicting, m', Tick(2.0 * c.ttl))
    ensures Admitted(c, evicting, m, Ticks(c), key) == 0
  {
    var m' := After(c, evicting, m, Tick(c.ttl));
    var m'' := After(c, evicting, m', Tick(2.0 * c.ttl));
    assert Ticks(c)[1..] == [Tick(2.0 * c.ttl)];
    assert [Tick(2.0 * c.ttl)][1..] == [];
    assert TableAfter(c, evicting, m'', []) == m'';
    assert TableAfter(c, evicting, m', [Tick(2.0 * c.ttl)]) == m'';
    assert Admitted(c, evicting, m', [Tick(2.0 * c.ttl)], key) == 0;
  }

  /** Draining a key at `t0` and again at the second tick. */
  function DrainTwice(c: Config, key: string, t0: real): seq<Event> {
    Spend(key, t0, c.burst) + (Ticks(c) + Spend(key, 2.0 * c.ttl, c.burst))
  }

  lemma DrainTwiceAdmits(c: Config, evicting: bool, key: string, t0: real)
    requires ValidConfig(c) && key != ""
    ensures var drained := TableAfter(c, evicting, map[], Spend(key, t0, c.burst));
            Admitted(c, evicting, map[], DrainTwice(c, key, t0), key) == c.burst +
              Admitted(c, evicting, TableAfter(c, evicting, drained, Ticks(c)), Spend(key, 2.0 * c.ttl, c.burst), key)
  {
    var drained := TableAfter(c, evicting, map[], Spend(key, t0, c.burst));
    SpendAll(c, evicting, map[], key, t0, c.burst);
    Concat(c, evicting, map[], Spend(key, t0, c.burst), Ticks(c) + Spend(key, 2.0 * c.ttl, c.burst), key);
    Concat(c, evicting, drained, Ticks(c), Spend(key, 2.0 * c.ttl, c.burst), key);
    AfterTicks(c, evicting, drained, key);
  }

  lemma EvictedAdmitsAll(c: Config, key: string, t0: real)
    requires ValidConfig(c) && key != "" && 0.0 <= t0 < c.ttl
    ensures Admitted(c, true, map[], DrainTwice(c, key, t0), key) == 2 * c.burst
  {
    DrainTwiceAdmits(c, true, key, t0);
    SpendAll(c, true, map[], key, t0, c.burst);
    var drained := TableAfter(c, true, map[], Spend(key, t0, c.burst));
    AfterTicks(c, true, drained, key);
    var m := TableAfter(c, true, drained, Ticks(c));
    assert key !in m;
    SpendAll(c, true, m, key, 2.0 * c.ttl, c.burst);
  }

  lemma KeptAdmitsFewer(c: Config, key: string, t0: real)
    requires ValidConfig(c) && key != "" && 0.0 <= t0 < c.ttl
    requires var wait := 2.0 * c.ttl - t0; c.rps * wait < c.burst as real
    ensures Admitted(c, false, map[], DrainTwice(c, key, t0), key) < 2 * c.burst
  {
    hide Tokens, TableAfter, Admitted, Spend, Spends, DrainTwice;
    DrainTwiceAdmits(c, false, key, t0);
    SpendAll(c, false, map[], key, t0, c.burst);
    var drained := TableAfter(c, false, map[], Spend(key, t0, c.burst));
    AfterTicks(c, false, drained, key);
    SecondDrainFallsShort(c, drained, key, t0, 2.0 * c.ttl);
  }

  lemma SecondDrainFallsShort(c: Config, drained: Table, key: string, t0: real, at: real)
    requires ValidConfig(c) && key != "" && t0 <= at && Available(c, drained, key, t0) == 0.0
    requires c.rps * (at - t0) < c.burst as real
    ensures Admitted(c, false, drained, Spend(key, at, c.burst), key) < c.burst
  {
    MulNonNegative(c.rps, at - t0);
    AvailableLater(c, drained, key, t0, at);
    SpendTimed(key, at, c.burst);
    SpentWithinRefill(c, drained, Spend(key, at, c.burst), key, at, at);
  }

  /** If a bucket does not refill within the TTL, some run tells the two limiters apart:
      drain a key, let the ticker evict it, and it is full again too soon. */
  lemma EvictionShows(c: Config) returns (events: seq<Event>)
    requires ValidConfig(c) && Refill(c.rps, c.ttl) < c.burst as real
    ensures Timed(events, 0.0) && OnTheTick(c, events)
    ensures Answers(c, true, map[], events) != Answers(c, false, map[], events)
  {
    var extra := ShortRefill(c);
    var t0, key := c.ttl - extra, "k";
    events := DrainTwice(c, key, t0);
    assert 2.0 * c.ttl - t0 == c.ttl + extra;
    EvictedAdmitsAll(c, key, t0);
    KeptAdmitsFewer(c, key, t0);
    AdmittedAreTrues(c, true, map[], events, key);
    AdmittedAreTrues(c, false, map[], events, key);
    EventsTimed(c, key, t0, c.burst);
  }

  lemma {:induction false} SpendTimed(key: string, at: real, n: nat)
    ensures Timed(Spend(key, at, n), at)
    decreases n
  {
    if n > 0 {
      assert Spend(key, at, n)[1..] == Spend(key, at, n - 1);
      SpendTimed(key, at, n - 1);
    }
  }

  lemma {:induction false} EventsTimed(c: Config, key: string, t0: real, n: nat)
    requires ValidConfig(c) && 0.0 <= t0 < c.ttl
    ensures Timed(Spend(key, t0, n) + (Ticks(c) + Spend(key, 2.0 * c.ttl, n)), 0.0)
  {
    var tail := Ticks(c) + Spend(key, 2.0 * c.ttl, n);
    SpendTimed(key, 2.0 * c.ttl, n);
    assert tail[1..] == [Tick(2.0 * c.ttl)] + Spend(key, 2.0 * c.ttl, n);
    assert tail[1..][1..] == Spend(key, 2.0 * c.ttl, n);
    assert Timed(tail, t0);
    PrependSpend(key, t0, n, tail);
    TimedLater(Spend(key, t0, n) + tail, t0, 0.0);
  }

  lemma {:induction false} PrependSpend(key: string, at: real, n: nat, tail: seq<Event>)
    requires Timed(tail, at)
    ensures Timed(Spend(key, at, n) + tail, at)
    decreases n
  {
    if n == 0 {
      assert Spend(key, at, n) + tail == tail;
    } else {
      assert (Spend(key, at, n) + tail)[1..] == Spend(key, at, n - 1) + tail;
      PrependSpend(key, at, n - 1, tail);
    }
  }

  /** The exact condition, over all runs from an empty table. */
  lemma InvisibleIffRefilledWithinTtl(c: Config)
    requires ValidConfig(c)
    ensures (forall events :: Timed(events, 0.0) ==>
               Answers(c, true, map[], events) == Answers(c, false, map[], events))
        <==> Refill(c.rps, c.ttl) >= c.burst as real
  {
    if Refill(c.rps, c.ttl) >= c.burst as real {
      forall events | Timed(events, 0.0)
        ensures Answers(c, true, map[], events) == Answers(c, false, map[], events)
      {
        EvictionInvisible(c, map[], map[], events, 0.0, "");
      }
    } else {
      var events := EvictionShows(c);
    }
  }

  /** The bound for one window of one run. */
  predicate WithinBound(c: Config, history: seq<Event>, window: seq<Event>, key: string, t1: real, t2: real) {
    Admitted(c, true, TableAfter(c, true, map[], history), window, key) as real
    <= c.burst as real + Refill(c.rps, t2 - t1)
  }

  predicate IsWindow(history: seq<Event>, window: seq<Event>, t1: real, t2: real) {
    Timed(history + window, 0.0) && t1 <= t2 && forall e :: e in window ==> t1 <= e.at <= t2
  }

  /** If a bucket does not refill within the TTL, some window admits too many: drained, evicted and
      drained again, a key gets two bursts in less time than one takes to flow in. */
  lemma BoundExceeded(c: Config) returns (window: seq<Event>, key: string, t1: real, t2: real)
    requires ValidConfig(c) && Refill(c.rps, c.ttl) < c.burst as real
    ensures key != "" && IsWindow([], window, t1, t2) && !WithinBound(c, [], window, key, t1, t2)
  {
    hide Timed, Admitted, TableAfter, DrainTwice;
    var extra := ShortRefill(c);
    t1, t2, key := c.ttl - extra, 2.0 * c.ttl, "k";
    window := DrainTwice(c, key, t1);
    assert t2 - t1 == c.ttl + extra;
    EvictedAdmitsAll(c, key, t1);
    DrainTwiceIsWindow(c, key, t1);
    assert TableAfter(c, true, map[], []) == map[] by { NoTable(c); }
  }

  lemma NoTable(c: Config)
    ensures TableAfter(c, true, map[], []) == map[]
  {
  }

  lemma DrainTwiceIsWindow(c: Config, key: string, t0: real)
    requires ValidConfig(c) && 0.0 <= t0 < c.ttl
    ensures IsWindow([], DrainTwice(c, key, t0), t0, 2.0 * c.ttl)
  {
    EventsTimed(c, key, t0, c.burst);
    hide Timed;
    var window := DrainTwice(c, key, t0);
    assert [] + window == window;
    forall e | e in window ensures t0 <= e.at <= 2.0 * c.ttl {
      assert e in Spend(key, t0, c.burst) || e in Ticks(c) || e in Spend(key, 2.0 * c.ttl, c.burst);
    }
  }

  /** The admission bound holds for every window of every run if and only if a bucket refills within
      the TTL. */
  lemma WindowBoundIff(c: Config)
    requires ValidConfig(c)
    ensures (forall history, window, key, t1, t2 :: key != "" && IsWindow(history, window, t1, t2) ==>
               WithinBound(c, history, window, key, t1, t2))
        <==> Refill(c.rps, c.ttl) >= c.burst as real
  {
    if Refill(c.rps, c.ttl) >= c.burst as real {
      forall history, window, key, t1, t2 | key != "" && IsWindow(history, window, t1, t2)
        ensures WithinBound(c, history, window, key, t1, t2)
      {
        WindowBound(c, history, window, key, t1, t2);
      }
    } else {
      var window, key, t1, t2 := BoundExceeded(c);
    }
  }

  // --- What is admitted -----------------------------------------------------------------------------

  /** The empty key is never limited and never kept. */
  lemma EmptyKeyIsFree(c: Config, m: Table, now: real)
    ensures AllowStep(c, m, "", now) == (m, true)
  {
  }

  /** A request is decided by its own key's bucket and touches no other. */
  lemma OtherKeysUntouched(c: Config, m: Table, key: string, now: real)
    ensures var (after, _) := AllowStep(c, m, key, now);
            forall k :: k != key ==> (k in after <==> k in m) && (k in m ==> after[k] == m[k])
  {
  }

  /** A key nobody has used gets exactly its burst at once, and not one more. */
  lemma BurstExactly(c: Config, m: Table, key: string, at: real)
    requires ValidConfig(c) && key != "" && key !in m
    ensures Admitted(c, false, m, Spend(key, at, c.burst), key) == c.burst
    ensures !AllowStep(c, TableAfter(c, false, m, Spend(key, at, c.burst)), key, at).1
  {
    SpendAll(c, false, m, key, at, c.burst);
    NotEnough(c, TableAfter(c, false, m, Spend(key, at, c.burst)), key, at);
  }

  lemma NotEnough(c: Config, m: Table, key: string, at: real)
    requires key != "" && Available(c, m, key, at) == 0.0
    ensures !AllowStep(c, m, key, at).1
  {
  }

  /** A drained key is admitted again exactly when one token has flowed in, at `rps` a second. */
  lemma AdmittedAgainIff(c: Config, m: Table, key: string, drained: real, now: real)
    requires ValidConfig(c) && c.burst >= 1 && key in m && key != "" && drained <= now
    requires Available(c, m, key, drained) == 0.0
    ensures AllowStep(c, m, key, now).1 <==> c.rps * (now - drained) >= 1.0
  {
    AvailableLater(c, m, key, drained, now);
    assert Refill(c.rps, now - drained) == c.rps * (now - drained);
    hide Refill, Tokens;
    assert AllowStep(c, m, key, now).1 <==> Available(c, m, key, now) >= 1.0;
  }

  /** The limiter pwrapd runs: 10 requests a second, bursts of 20, a ten-minute TTL. */
  const DEPLOYED := Config(10.0, 20, 600.0)

  lemma DeployedLimiter(history: seq<Event>, window: seq<Event>, key: string, t1: real, t2: real)
    requires Timed(history + window, 0.0) && t1 <= t2 && key != ""
    requires forall e :: e in window ==> t1 <= e.at <= t2
    ensures Admitted(DEPLOYED, true, TableAfter(DEPLOYED, true, map[], history), window, key) as real
         <= 20.0 + 10.0 * (t2 - t1)
  {
    WindowBound(DEPLOYED, history, window, key, t1, t2);
  }

  /** Exactly: 20 requests at once, one more after each tenth of a second, and a bucket is forgotten
      when its key has been idle for more than ten minutes. */
  lemma DeployedLimiterAdmits(m: Table, key: string, at: real, now: real)
    requires key != "" && key !in m && at <= now
    ensures Admitted(DEPLOYED, false, m, Spend(key, at, 20), key) == 20
    ensures var drained := TableAfter(DEPLOYED, false, m, Spend(key, at, 20));
            && (AllowStep(DEPLOYED, drained, key, now).1 <==> 10.0 * (now - at) >= 1.0)
            && (key in Evict(DEPLOYED, drained, now) <==> now - at <= 600.0)
  {
    SpendAll(DEPLOYED, false, m, key, at, 20);
    AdmittedAgainIff(DEPLOYED, TableAfter(DEPLOYED, false, m, Spend(key, at, 20)), key, at, now);
  }
}
