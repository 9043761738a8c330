/** The keyed token-bucket rate limiter: refill, debit, refund, the bounded
    table, its sweep and the eviction of its least recently debited bucket.

    Tokens and time are reals; a clock reading is seconds since some origin. */
module RateLimit {
  import opened Options

  /** What a bucket earns over a number of seconds, and the ceiling it opens
      at. The table works for any accrual; the configured one is linear. */
  datatype Limit = Limit(earn: real -> real, burst: real)

  ghost predicate Linear(limit: Limit, rate: real) {
    forall s :: EarnsAt(limit, rate, s)
  }

  ghost predicate EarnsAt(limit: Limit, rate: real, seconds: real) {
    limit.earn(seconds) == rate * seconds
  }

  /** A configured limit that is switched on: a non-positive rate or burst
      turns it off, which callers check before touching the table. */
  ghost predicate Enabled(limit: Limit, rate: real) {
    Linear(limit, rate) && 0.0 < rate && 0.0 < limit.burst
  }

  /** Earning is additive over time and never negative. */
  ghost predicate Steady(limit: Limit) {
    0.0 <= limit.burst && forall s, t :: Adds(limit, s, t)
  }

  ghost predicate Adds(limit: Limit, s: real, t: real) {
    0.0 <= s && 0.0 <= t ==>
      limit.earn(s + t) == limit.earn(s) + limit.earn(t) && 0.0 <= limit.earn(s) && 0.0 <= limit.earn(t)
  }

  lemma EnabledIsSteady(limit: Limit, rate: real)
    requires Enabled(limit, rate)
    ensures Steady(limit)
  {
    forall s, t | 0.0 <= s && 0.0 <= t
      ensures Adds(limit, s, t)
    {
      assert EarnsAt(limit, rate, s) && EarnsAt(limit, rate, t) && EarnsAt(limit, rate, s + t);
      Product(rate, s);
      Product(rate, t);
    }
  }

  lemma Product(x: real, y: real)
    requires 0.0 <= x && 0.0 <= y
    ensures 0.0 <= x * y
  {
  }

  /** A key's last debit and the allowance that debit left. */
  datatype Bucket = Bucket(last: real, tokens: real)

  type Table<K> = map<K, Bucket>

  /** A refusal carries the tokens it found, from which `RetryAfter` tells the
      client how long to wait. */
  datatype Outcome = Admitted | Exceeded(tokens: real)

  function Min(x: real, y: real): real {
    if x < y then x else y
  }

  function Max(x: real, y: real): real {
    if x < y then y else x
  }

  /** `Instant::duration_since` saturates at zero. */
  function Elapsed(last: real, now: real): real {
    if now < last then 0.0 else now - last
  }

  /** What a bucket has refilled to, before its ceiling is applied. */
  function Accrued(b: Bucket, limit: Limit, now: real): real {
    limit.earn(Elapsed(b.last, now)) + b.tokens
  }

  function Refill(b: Bucket, limit: Limit, now: real): real {
    Min(Accrued(b, limit, now), limit.burst)
  }

  function Ceiling(x: real): int {
    -((-x).Floor)
  }

  /** The wait for one whole token, rounded up to the millisecond. */
  function RetryAfter(rate: real, tokens: real): Option<real> {
    if rate <= 0.0 then None
    else Some(Ceiling(Max((1.0 - tokens) / rate, 0.0) * 1000.0) as real / 1000.0)
  }

  /** The answer a bucket gives, and the bucket afterwards: a refusal leaves it
      as it was, an admission restarts its clock. */
  function DebitOutcome(b: Bucket, limit: Limit, now: real): Outcome {
    var tokens := Refill(b, limit, now);
    if tokens < 1.0 then Exceeded(tokens) else Admitted
  }

  function Debited(b: Bucket, limit: Limit, now: real): Bucket {
    var tokens := Refill(b, limit, now);
    if tokens < 1.0 then b else Bucket(now, tokens - 1.0)
  }

  function Refunded<K(!new)>(t: Table<K>, key: K, limit: Limit): Table<K> {
    if key in t then t[key := Bucket(t[key].last, Min(t[key].tokens + 1.0, limit.burst))] else t
  }

  /** The buckets a sweep keeps: the ones still below their ceiling. */
  ghost function Swept<K(!new)>(t: Table<K>, limit: Limit, now: real): Table<K> {
    map k | k in t && Accrued(t[k], limit, now) < limit.burst :: t[k]
  }

  ghost predicate IsOldest<K(!new)>(t: Table<K>, key: K) {
    key in t && forall k :: k in t ==> t[key].last <= t[k].last
  }

  ghost predicate OldestOf<K(!new)>(t: Table<K>, oldest: Option<K>) {
    if oldest.None? then t == map[] else IsOldest(t, oldest.value)
  }

  lemma OldestPush<K(!new)>(t: Table<K>, oldest: Option<K>, key: K, b: Bucket)
    requires OldestOf(t, oldest) && key !in t
    ensures OldestOf(t[key := b], if oldest.None? || b.last < t[oldest.value].last then Some(key) else oldest)
  {
  }

  /** What `evict` may leave: the hash map's iteration order decides between
      buckets debited at the same instant. */
  ghost predicate EvictResult<K(!new)>(t: Table<K>, limit: Limit, now: real, cap: nat, t': Table<K>) {
    var swept := Swept(t, limit, now);
    if |swept| >= cap && swept != map[]
    then exists key :: IsOldest(swept, key) && t' == swept - {key}
    else t' == swept
  }

  ghost predicate MadeRoom<K(!new)>(t: Table<K>, limit: Limit, now: real, cap: nat, room: Table<K>) {
    if |t| >= cap then EvictResult(t, limit, now, cap, room) else room == t
  }

  ghost predicate CheckResult<K(!new)>(t: Table<K>, key: K, limit: Limit, now: real, cap: nat,
                                       t': Table<K>, outcome: Outcome) {
    if key in t then
      && outcome == DebitOutcome(t[key], limit, now)
      && t' == t[key := Debited(t[key], limit, now)]
    else
      var opening := Bucket(now, limit.burst);
      && outcome == DebitOutcome(opening, limit, now)
      && exists room: Table<K> :: OpensInto(t, key, limit, now, cap, t', room)
  }

  /** The new bucket is debited in the table that made room for it. */
  ghost predicate OpensInto<K(!new)>(t: Table<K>, key: K, limit: Limit, now: real, cap: nat, t': Table<K>, room: Table<K>) {
    MadeRoom(t, limit, now, cap, room) && t' == room[key := Debited(Bucket(now, limit.burst), limit, now)]
  }

  /** `Ratelimiter`: the table behind its mutex, so each call is one step. */
  class Ratelimiter<K(!new,==)> {
    var buckets: Table<K>

    constructor ()
      ensures buckets == map[]
    {
      buckets := map[];
    }

    method CheckAt(key: K, limit: Limit, now: real, cap: nat) returns (outcome: Outcome)
      requires 0 < cap && |buckets| <= cap
      modifies this
      ensures CheckResult(old(buckets), key, limit, now, cap, buckets, outcome)
    {
      if key in buckets {
        outcome := DebitOutcome(buckets[key], limit, now);
        buckets := buckets[key := Debited(buckets[key], limit, now)];
        return;
      }
      if |buckets| >= cap {
        Evict(limit, now, cap);
      }
      ghost var room := buckets;
      var opening := Bucket(now, limit.burst);
      outcome := DebitOutcome(opening, limit, now);
      assert MadeRoom(old(buckets), limit, now, cap, room);
      buckets := buckets[key := Debited(opening, limit, now)];
      assert OpensInto(old(buckets), key, limit, now, cap, buckets, room);
    }

    method Evict(limit: Limit, now: real, cap: nat)
      modifies this
      ensures EvictResult(old(buckets), limit, now, cap, buckets)
      ensures buckets.Keys <= old(buckets.Keys)
    {
      var oldest: Option<K> := None;
      var kept: Table<K> := map[];
      var todo := buckets.Keys;
      while todo != {}
        invariant todo <= buckets.Keys && buckets == old(buckets)
        invariant forall k :: k in kept <==> k in buckets && k !in todo && Accrued(buckets[k], limit, now) < limit.burst
        invariant forall k :: k in kept ==> kept[k] == buckets[k]
        invariant OldestOf(kept, oldest)
        decreases |todo|
      {
        var key :| key in todo;
        todo := todo - {key};
        if Accrued(buckets[key], limit, now) < limit.burst {
          OldestPush(kept, oldest, key, buckets[key]);
          if oldest == None || buckets[key].last < kept[oldest.value].last {
            oldest := Some(key);
          }
          kept := kept[key := buckets[key]];
        }
      }
      assert kept == Swept(buckets, limit, now);
      buckets := kept;
      if |buckets| >= cap && oldest.Some? {
        buckets := buckets - {oldest.value};
      }
    }

    method Refund(key: K, limit: Limit)
      modifies this
      ensures buckets == Refunded(old(buckets), key, limit)
    {
      if key in buckets {
        buckets := buckets[key := Bucket(buckets[key].last, Min(buckets[key].tokens + 1.0, limit.burst))];
      }
    }
  }

  // ---------------------------------------------------------------------
  // Runs: every interleaving of checks and refunds over any keys.

  datatype Event<K> =
    | Check(key: K, at: real, outcome: Outcome)
    | Refund(key: K, at: real)

  ghost predicate Step<K(!new)>(limit: Limit, cap: nat, t: Table<K>, e: Event<K>, t': Table<K>) {
    match e
    case Check(key, at, outcome) => CheckResult(t, key, limit, at, cap, t', outcome)
    case Refund(key, _) => t' == Refunded(t, key, limit)
  }

  /** Every bucket holds between nothing and its ceiling, and was last debited
      no later than `now`. */
  ghost predicate Valid<K(!new)>(t: Table<K>, limit: Limit, now: real) {
    forall k :: k in t ==> t[k].last <= now && 0.0 <= t[k].tokens <= limit.burst
  }

  /** A run as its history: the table it started with and when, then each
      event and the table it left. */
  datatype Run<K> =
    | Start(at: real, table: Table<K>)
    | Then(before: Run<K>, event: Event<K>, table: Table<K>)
  {
    function Clock(): real {
      if Start? then at else event.at
    }

    function StartTime(): real {
      if Start? then at else before.StartTime()
    }

    function StartTable(): Table<K> {
      if Start? then table else before.StartTable()
    }
  }

  /** Each event is a step of the table, and the clock never runs backwards. */
  ghost predicate IsRun<K(!new)>(limit: Limit, cap: nat, r: Run<K>) {
    match r
    case Start(at, t) => Valid(t, limit, at)
    case Then(b, e, t) => IsRun(limit, cap, b) && b.Clock() <= e.at && Step(limit, cap, b.table, e, t)
  }

  /** What a check of `key` would find: an absent bucket opens full. */
  ghost function Available<K(!new)>(t: Table<K>, key: K, limit: Limit, now: real): real {
    if key in t then Refill(t[key], limit, now) else limit.burst
  }

  /** The step drops `key`'s bucket while it is still below its ceiling. */
  ghost predicate DropsBelowCeiling<K(!new)>(limit: Limit, t: Table<K>, e: Event<K>, t': Table<K>, key: K) {
    key in t && key !in t' && Accrued(t[key], limit, e.at) < limit.burst
  }

  /** Admissions of `key` less refunds to it. */
  ghost function Net<K(!new)>(r: Run<K>, key: K): real {
    match r
    case Start(_, _) => 0.0
    case Then(b, e, _) => Net(b, key) + Spent(e, key)
  }

  ghost function Spent<K>(e: Event<K>, key: K): real {
    if e.key != key then 0.0 else if e.Refund? then -1.0 else if e.outcome.Admitted? then 1.0 else 0.0
  }

  /** How often the run dropped `key`'s bucket below its ceiling. */
  ghost function Drops<K(!new)>(limit: Limit, r: Run<K>, key: K): nat {
    match r
    case Start(_, _) => 0
    case Then(b, e, t) => Drops(limit, b, key) + (if DropsBelowCeiling(limit, b.table, e, t, key) then 1 else 0)
  }

  // --- the arithmetic of one bucket

  lemma AccruedGrows(b: Bucket, limit: Limit, t0: real, t1: real)
    requires Steady(limit) && b.last <= t0 <= t1
    ensures Accrued(b, limit, t1) == Accrued(b, limit, t0) + limit.earn(t1 - t0)
    ensures b.tokens <= Accrued(b, limit, t0) && 0.0 <= limit.earn(t1 - t0)
  {
    assert Adds(limit, t0 - b.last, t1 - t0);
    assert (t0 - b.last) + (t1 - t0) == t1 - b.last;
  }

  lemma RefillComposes(b: Bucket, limit: Limit, t0: real, t1: real)
    requires Steady(limit) && b.last <= t0 <= t1
    ensures Refill(Bucket(t0, Refill(b, limit, t0)), limit, t1) == Refill(b, limit, t1)
  {
    AccruedGrows(b, limit, t0, t1);
  }

  // --- one step of the table

  lemma StepKeepsValid<K(!new)>(limit: Limit, cap: nat, t: Table<K>, e: Event<K>, t': Table<K>, clock: real)
    requires Steady(limit)
    requires Valid(t, limit, clock) && clock <= e.at && Step(limit, cap, t, e, t')
    ensures Valid(t', limit, e.at)
  {
  }

  /** What one step does to what `key` may still spend. */
  lemma StepAvailable<K(!new)>(limit: Limit, cap: nat, t: Table<K>, e: Event<K>, t': Table<K>, key: K)
    requires Steady(limit)
    requires Valid(t, limit, e.at) && Step(limit, cap, t, e, t')
    ensures DropsBelowCeiling(limit, t, e, t', key) ==>
              Spent(e, key) == 0.0 && Available(t', key, limit, e.at) == limit.burst
    ensures !DropsBelowCeiling(limit, t, e, t', key) ==>
              Available(t', key, limit, e.at) <= Available(t, key, limit, e.at) - Spent(e, key)
  {
    assert Adds(limit, 0.0, 0.0);
    if key in t {
      AccruedGrows(t[key], limit, e.at, e.at);
    }
  }

  lemma AvailableGrows<K(!new)>(t: Table<K>, limit: Limit, key: K, t0: real, t1: real)
    requires Steady(limit) && Valid(t, limit, t0) && t0 <= t1
    ensures 0.0 <= Available(t, key, limit, t0) <= limit.burst && 0.0 <= limit.earn(t1 - t0)
    ensures Available(t, key, limit, t1) <= Available(t, key, limit, t0) + limit.earn(t1 - t0)
  {
    assert Adds(limit, t1 - t0, t1 - t0);
    if key in t {
      AccruedGrows(t[key], limit, t0, t1);
    }
  }

  // --- whole runs

  lemma {:induction false} RunStaysValid<K(!new)>(limit: Limit, cap: nat, r: Run<K>)
    requires Steady(limit) && IsRun(limit, cap, r)
    ensures Valid(r.table, limit, r.Clock()) && r.StartTime() <= r.Clock()
  {
    match r
    case Start(_, _) =>
    case Then(b, e, t) =>
      RunStaysValid(limit, cap, b);
      StepKeepsValid(limit, cap, b.table, e, t, b.Clock());
  }

  lemma EarnsOnward(limit: Limit, t0: real, t1: real, t2: real)
    requires Steady(limit) && t0 <= t1 <= t2
    ensures limit.earn(t2 - t0) == limit.earn(t1 - t0) + limit.earn(t2 - t1)
  {
    assert Adds(limit, t1 - t0, t2 - t1);
    assert (t1 - t0) + (t2 - t1) == t2 - t0;
  }

  /** One step, and the time before it: what it spends was available, earned, or
      given away. */
  lemma StepIsPaidFor<K(!new)>(limit: Limit, cap: nat, t: Table<K>, e: Event<K>, t': Table<K>, key: K, clock: real)
    requires Steady(limit) && Valid(t, limit, clock) && clock <= e.at && Step(limit, cap, t, e, t')
    ensures Spent(e, key) + Available(t', key, limit, e.at)
              <= Available(t, key, limit, clock) + limit.earn(e.at - clock)
                 + (if DropsBelowCeiling(limit, t, e, t', key) then limit.burst else 0.0)
  {
    AvailableGrows(t, limit, key, clock, e.at);
    StepAvailable(limit, cap, t, e, t', key);
  }

  /** The potential argument: what was spent is what was available and is not
      any more, plus what time earned and what dropped buckets gave away. */
  lemma {:induction false} SpendingIsPaidFor<K(!new)>(limit: Limit, cap: nat, r: Run<K>, key: K)
    requires Steady(limit) && IsRun(limit, cap, r)
    ensures Net(r, key)
              <= limit.burst - Available(r.table, key, limit, r.Clock())
                 + limit.earn(r.Clock() - r.StartTime()) + Gifts(limit, r, key)
  {
    match r
    case Start(at, t) =>
      AvailableGrows(t, limit, key, at, at);
    case Then(b, e, t) =>
      SpendingIsPaidFor(limit, cap, b, key);
      RunStaysValid(limit, cap, b);
      StepIsPaidFor(limit, cap, b.table, e, t, key, b.Clock());
      EarnsOnward(limit, b.StartTime(), b.Clock(), e.at);
  }

  /** A dropped bucket reopens full, which gives away at most one burst. */
  ghost function Gifts<K(!new)>(limit: Limit, r: Run<K>, key: K): real {
    match r
    case Start(_, _) => 0.0
    case Then(b, e, t) =>
      Gifts(limit, b, key) + (if DropsBelowCeiling(limit, b.table, e, t, key) then limit.burst else 0.0)
  }

  lemma {:induction false} GiftsAreBursts<K(!new)>(limit: Limit, r: Run<K>, key: K)
    ensures Gifts(limit, r, key) == limit.burst * Drops(limit, r, key) as real
  {
    if r.Then? {
      GiftsAreBursts(limit, r.before, key);
      var n := Drops(limit, r.before, key);
      assert limit.burst * (n + 1) as real == limit.burst * n as real + limit.burst;
    }
  }

  lemma SteadyBound<K(!new)>(limit: Limit, cap: nat, r: Run<K>, key: K)
    requires Steady(limit) && IsRun(limit, cap, r)
    ensures Net(r, key) <= limit.burst + limit.earn(r.Clock() - r.StartTime()) + Gifts(limit, r, key)
  {
    SpendingIsPaidFor(limit, cap, r, key);
    RunStaysValid(limit, cap, r);
    AvailableGrows(r.table, limit, key, r.Clock(), r.Clock());
  }

  /** A burst, and what the rate earns over the run. */
  ghost function PlainBound<K(!new)>(limit: Limit, rate: real, r: Run<K>): real {
    limit.burst + rate * (r.Clock() - r.StartTime())
  }

  /** A burst for each time the key's bucket was dropped below its ceiling. */
  ghost function DropCost<K(!new)>(limit: Limit, r: Run<K>, key: K): real {
    limit.burst * Drops(limit, r, key) as real
  }

  lemma PlainBoundIs<K(!new)>(limit: Limit, rate: real, r: Run<K>)
    requires Linear(limit, rate)
    ensures PlainBound(limit, rate, r) == limit.burst + limit.earn(r.Clock() - r.StartTime())
  {
    assert EarnsAt(limit, rate, r.Clock() - r.StartTime());
  }

  lemma DropCostIs<K(!new)>(limit: Limit, r: Run<K>, key: K)
    ensures DropCost(limit, r, key) == Gifts(limit, r, key)
  {
    GiftsAreBursts(limit, r, key);
  }

  /** Over any interleaving on any keys, a key is admitted (net of refunds) at
      most `burst + rate * (end - start)` times, and each time its bucket is
      dropped below its ceiling costs at most one further burst. */
  lemma AdmissionBound<K(!new)>(limit: Limit, rate: real, cap: nat, r: Run<K>, key: K)
    requires Enabled(limit, rate) && IsRun(limit, cap, r)
    ensures Net(r, key) <= PlainBound(limit, rate, r) + DropCost(limit, r, key)
  {
    EnabledIsSteady(limit, rate);
    SteadyBound(limit, cap, r, key);
    PlainBoundIs(limit, rate, r);
    DropCostIs(limit, r, key);
  }

  // --- the bounded table against one that never drops a bucket

  ghost function Held<K(!new)>(u: Table<K>, key: K, limit: Limit, now: real): Bucket {
    if key in u then u[key] else Bucket(now, limit.burst)
  }

  /** The same events on a table with no cap and no sweep. */
  ghost function Unbounded<K(!new)>(limit: Limit, r: Run<K>): Table<K> {
    match r
    case Start(_, t) => t
    case Then(b, e, _) =>
      var u := Unbounded(limit, b);
      if e.Refund? then Refunded(u, e.key, limit)
      else u[e.key := Debited(Held(u, e.key, limit, e.at), limit, e.at)]
  }

  ghost predicate AnswersAsUnbounded<K(!new)>(limit: Limit, r: Run<K>) {
    match r
    case Start(_, _) => true
    case Then(b, e, _) =>
      && AnswersAsUnbounded(limit, b)
      && (e.Check? ==> e.outcome == DebitOutcome(Held(Unbounded(limit, b), e.key, limit, e.at), limit, e.at))
  }

  ghost predicate NothingDroppedBelowCeiling<K(!new)>(limit: Limit, r: Run<K>) {
    match r
    case Start(_, _) => true
    case Then(b, e, t) =>
      && NothingDroppedBelowCeiling(limit, b)
      && forall k :: k in b.table ==> !DropsBelowCeiling(limit, b.table, e, t, k)
  }

  ghost predicate Full<K(!new)>(t: Table<K>, key: K, limit: Limit, now: real) {
    key in t ==> limit.burst <= Accrued(t[key], limit, now)
  }

  /** Two tables no check can tell apart: each key has the same bucket in
      both, or is at its ceiling (or absent, which is the same) in both. */
  ghost predicate Alike<K(!new)>(t: Table<K>, u: Table<K>, limit: Limit, now: real) {
    forall k :: AlikeAt(t, u, k, limit, now)
  }

  ghost predicate AlikeAt<K(!new)>(t: Table<K>, u: Table<K>, k: K, limit: Limit, now: real) {
    (k in t && k in u && t[k] == u[k]) || (Full(t, k, limit, now) && Full(u, k, limit, now))
  }

  lemma AlikeLater<K(!new)>(t: Table<K>, u: Table<K>, limit: Limit, t0: real, t1: real)
    requires Steady(limit) && Valid(t, limit, t0) && Valid(u, limit, t0) && t0 <= t1 && Alike(t, u, limit, t0)
    ensures Alike(t, u, limit, t1)
  {
    forall k ensures AlikeAt(t, u, k, limit, t1) {
      assert AlikeAt(t, u, k, limit, t0);
      if k in t { AccruedGrows(t[k], limit, t0, t1); }
      if k in u { AccruedGrows(u[k], limit, t0, t1); }
    }
  }

  lemma CheckKeepsAlike<K(!new)>(limit: Limit, cap: nat, t: Table<K>, e: Event<K>, t': Table<K>, u: Table<K>)
    requires Steady(limit) && Valid(t, limit, e.at) && Valid(u, limit, e.at)
    requires Step(limit, cap, t, e, t') && AlikeAt(t, u, e.key, limit, e.at) && e.Check?
    ensures e.outcome == DebitOutcome(Held(u, e.key, limit, e.at), limit, e.at)
    ensures AlikeAt(t', u[e.key := Debited(Held(u, e.key, limit, e.at), limit, e.at)], e.key, limit, e.at)
  {
    assert Adds(limit, 0.0, 0.0);
    if e.key in t { AccruedGrows(t[e.key], limit, e.at, e.at); }
    if e.key in u { AccruedGrows(u[e.key], limit, e.at, e.at); }
  }

  lemma StepKeepsAlike<K(!new)>(limit: Limit, cap: nat, t: Table<K>, e: Event<K>, t': Table<K>, u: Table<K>, k: K)
    requires Steady(limit) && Valid(t, limit, e.at) && Valid(u, limit, e.at)
    requires Step(limit, cap, t, e, t') && AlikeAt(t, u, k, limit, e.at)
    requires !DropsBelowCeiling(limit, t, e, t', k)
    ensures e.Check? && e.key == k ==> e.outcome == DebitOutcome(Held(u, k, limit, e.at), limit, e.at)
    ensures AlikeAt(t', if e.Refund? then Refunded(u, e.key, limit)
                        else u[e.key := Debited(Held(u, e.key, limit, e.at), limit, e.at)], k, limit, e.at)
  {
    if e.Check? && e.key == k {
      CheckKeepsAlike(limit, cap, t, e, t', u);
    } else {
      assert Adds(limit, 0.0, 0.0);
      if k in t { AccruedGrows(t[k], limit, e.at, e.at); }
      if k in u { AccruedGrows(u[k], limit, e.at, e.at); }
    }
  }

  /** On every run where no bucket below its ceiling is dropped, the capped and
      swept table answers every check as the unbounded one does. */
  lemma {:induction false} SweepIsInvisible<K(!new)>(limit: Limit, cap: nat, r: Run<K>)
    requires Steady(limit) && IsRun(limit, cap, r) && NothingDroppedBelowCeiling(limit, r)
    ensures AnswersAsUnbounded(limit, r)
    ensures Alike(r.table, Unbounded(limit, r), limit, r.Clock()) && Valid(Unbounded(limit, r), limit, r.Clock())
  {
    match r
    case Start(at, t) =>
    case Then(b, e, t) =>
      SweepIsInvisible(limit, cap, b);
      RunStaysValid(limit, cap, b);
      var u := Unbounded(limit, b);
      AlikeLater(b.table, u, limit, b.Clock(), e.at);
      assert Adds(limit, 0.0, 0.0);
      forall k ensures AlikeAt(t, Unbounded(limit, r), k, limit, e.at)
               ensures e.Check? && e.key == k ==> e.outcome == DebitOutcome(Held(u, k, limit, e.at), limit, e.at)
      {
        assert AlikeAt(b.table, u, k, limit, e.at);
        assert !DropsBelowCeiling(limit, b.table, e, t, k);
        StepKeepsAlike(limit, cap, b.table, e, t, u, k);
      }
  }

  // --- exactly when the cap cannot be seen

  /** Only keys of `keys` are in the table to begin with, or come up. */
  ghost predicate Over<K(!new)>(r: Run<K>, keys: set<K>) {
    match r
    case Start(_, t) => t.Keys <= keys
    case Then(b, e, _) => Over(b, keys) && e.key in keys
  }

  lemma {:induction false} FewKeysNeverDrop<K(!new)>(limit: Limit, cap: nat, r: Run<K>, keys: set<K>)
    requires IsRun(limit, cap, r) && Over(r, keys) && |keys| <= cap
    ensures r.table.Keys <= keys && NothingDroppedBelowCeiling(limit, r)
    ensures forall key :: Drops(limit, r, key) == 0
  {
    match r
    case Start(_, _) =>
    case Then(b, e, t) =>
      FewKeysNeverDrop(limit, cap, b, keys);
      if e.key !in b.table {
        Subset(b.table.Keys + {e.key}, keys);
        assert e.Check? ==> t == b.table[e.key := Debited(Bucket(e.at, limit.burst), limit, e.at)];
      }
  }

  /** The table once `key` has spent `n` whole tokens at once. */
  ghost function Down<K(!new)>(key: K, n: nat, burst: real): Table<K> {
    if n == 0 then map[] else map[key := Bucket(0.0, burst - n as real)]
  }

  lemma DrainsOne<K(!new)>(limit: Limit, cap: nat, key: K, n: nat)
    requires Steady(limit) && 0 < cap && (n + 1) as real <= limit.burst
    ensures var (t, held) := (Down(key, n, limit.burst), Held(Down(key, n, limit.burst), key, limit, 0.0));
            && CheckResult(t, key, limit, 0.0, cap, Down(key, n + 1, limit.burst), Admitted)
            && t[key := Debited(held, limit, 0.0)] == Down(key, n + 1, limit.burst)
  {
    assert Adds(limit, 0.0, 0.0);
    var t := Down(key, n, limit.burst);
    assert t[key := Bucket(0.0, limit.burst - (n + 1) as real)] == Down(key, n + 1, limit.burst);
    assert n == 0 ==> OpensInto(t, key, limit, 0.0, cap, Down(key, n + 1, limit.burst), t);
  }

  /** `key` spends `n` whole tokens at once. */
  lemma {:induction false} Drain<K(!new)>(limit: Limit, cap: nat, key: K, n: nat) returns (r: Run<K>)
    requires Steady(limit) && 0 < cap && n as real <= limit.burst
    ensures IsRun(limit, cap, r) && Over(r, {key}) && r.StartTime() == r.Clock() == 0.0 && Net(r, key) == n as real
    ensures r.table == Unbounded(limit, r) == Down(key, n, limit.burst)
  {
    if n == 0 {
      r := Start(0.0, Down(key, 0, limit.burst));
    } else {
      var b := Drain(limit, cap, key, n - 1);
      DrainsOne(limit, cap, key, n - 1);
      assert Step(limit, cap, b.table, Check(key, 0.0, Admitted), Down(key, n, limit.burst));
      r := Then(b, Check(key, 0.0, Admitted), Down(key, n, limit.burst));
    }
  }

  /** One old bucket, and one checked once at `at` for each of `others`. */
  ghost function Crowd<K(!new)>(key: K, old_: Bucket, others: set<K>, at: real, burst: real): Table<K> {
    map k | k in others + {key} :: if k == key then old_ else Bucket(at, burst - 1.0)
  }

  /** The run has spent `key` down to `old_`, and crowded the table with `others`. */
  ghost predicate Crowded<K(!new)>(limit: Limit, cap: nat, r: Run<K>, key: K, old_: Bucket, others: set<K>, at: real) {
    && IsRun(limit, cap, r) && Over(r, others + {key}) && r.StartTime() == 0.0 && r.Clock() <= at
    && r.table == Crowd(key, old_, others, at, limit.burst)
    && key in Unbounded(limit, r) && Unbounded(limit, r)[key] == old_
  }

  lemma {:induction false} OverMore<K(!new)>(r: Run<K>, keys: set<K>, more: set<K>)
    requires Over(r, keys) && keys <= more
    ensures Over(r, more)
  {
    if r.Then? { OverMore(r.before, keys, more); }
  }

  lemma {:induction false} Fill<K(!new)>(limit: Limit, cap: nat, start: Run<K>, key: K, old_: Bucket, others: set<K>, at: real) returns (r: Run<K>)
    requires Steady(limit) && 1.0 <= limit.burst && key !in others && |others| < cap
    requires Crowded(limit, cap, start, key, old_, {}, at)
    ensures Crowded(limit, cap, r, key, old_, others, at) && Net(r, key) == Net(start, key)
  {
    if others == {} {
      r := start;
    } else {
      var x :| x in others;
      var rest := others - {x};
      assert rest + {x} == others;
      var b := Fill(limit, cap, start, key, old_, rest, at);
      r := OneMore(limit, cap, b, key, old_, rest, x, at);
    }
  }

  lemma OneMore<K(!new)>(limit: Limit, cap: nat, b: Run<K>, key: K, old_: Bucket, others: set<K>, x: K, at: real) returns (r: Run<K>)
    requires Steady(limit) && 1.0 <= limit.burst && key !in others + {x} && x !in others && |others| + 1 < cap
    requires Crowded(limit, cap, b, key, old_, others, at)
    ensures Crowded(limit, cap, r, key, old_, others + {x}, at) && Net(r, key) == Net(b, key)
  {
    r := Then(b, Check(x, at, Admitted), Crowd(key, old_, others + {x}, at, limit.burst));
    OpensWithRoom(limit, cap, key, old_, others, x, at);
    OverMore(b, others + {key}, others + {x} + {key});
  }

  lemma OpensWithRoom<K(!new)>(limit: Limit, cap: nat, key: K, old_: Bucket, others: set<K>, x: K, at: real)
    requires Steady(limit) && 1.0 <= limit.burst && key !in others + {x} && x !in others && |others| + 1 < cap
    ensures CheckResult(Crowd(key, old_, others, at, limit.burst), x, limit, at, cap,
                        Crowd(key, old_, others + {x}, at, limit.burst), Admitted)
  {
    var (t, opening) := (Crowd(key, old_, others, at, limit.burst), Bucket(at, limit.burst));
    assert Adds(limit, 0.0, 0.0);
    assert t.Keys == others + {key};
    assert t[x := Debited(opening, limit, at)] == Crowd(key, old_, others + {x}, at, limit.burst);
    assert OpensInto(t, x, limit, at, cap, Crowd(key, old_, others + {x}, at, limit.burst), t);
  }

  lemma MakesRoom<K(!new)>(limit: Limit, cap: nat, key: K, old_: Bucket, others: set<K>, at: real)
    requires Steady(limit) && 1.0 <= limit.burst && key !in others && |others| + 1 == cap
    requires old_.last <= at && Accrued(old_, limit, at) < 1.0
    ensures var t := Crowd(key, old_, others, at, limit.burst); MadeRoom(t, limit, at, cap, t - {key})
  {
    var t := Crowd(key, old_, others, at, limit.burst);
    assert Adds(limit, 0.0, 0.0);
    assert t.Keys == others + {key};
    assert Swept(t, limit, at) == t;
    assert IsOldest(t, key);
    assert EvictResult(t, limit, at, cap, t - {key});
  }

  /** One key too many: the old bucket, still short of a token, makes room. */
  lemma Displace<K(!new)>(limit: Limit, cap: nat, b: Run<K>, key: K, old_: Bucket, others: set<K>, x: K, at: real) returns (r: Run<K>)
    requires Steady(limit) && 1.0 <= limit.burst && key !in others + {x} && x !in others && |others| + 1 == cap
    requires Crowded(limit, cap, b, key, old_, others, at)
    requires old_.last <= at && Accrued(old_, limit, at) < 1.0
    ensures IsRun(limit, cap, r) && Over(r, others + {x} + {key}) && r.StartTime() == 0.0 && r.Clock() == at
    ensures Net(r, key) == Net(b, key) && r.table.Keys == others + {x}
    ensures forall k :: k in r.table ==> r.table[k] == Bucket(at, limit.burst - 1.0)
    ensures key in Unbounded(limit, r) && Unbounded(limit, r)[key] == old_
  {
    var t' := OpensInstead(limit, cap, key, old_, others, x, at);
    r := Then(b, Check(x, at, Admitted), t');
    OverMore(b, others + {key}, others + {x} + {key});
  }

  lemma OpensInstead<K(!new)>(limit: Limit, cap: nat, key: K, old_: Bucket, others: set<K>, x: K, at: real) returns (t': Table<K>)
    requires Steady(limit) && 1.0 <= limit.burst && key !in others + {x} && x !in others && |others| + 1 == cap
    requires old_.last <= at && Accrued(old_, limit, at) < 1.0
    ensures CheckResult(Crowd(key, old_, others, at, limit.burst), x, limit, at, cap, t', Admitted)
    ensures t'.Keys == others + {x} && forall k :: k in t' ==> t'[k] == Bucket(at, limit.burst - 1.0)
  {
    assert Adds(limit, 0.0, 0.0);
    MakesRoom(limit, cap, key, old_, others, at);
    var t := Crowd(key, old_, others, at, limit.burst);
    t' := (t - {key})[x := Debited(Bucket(at, limit.burst), limit, at)];
    assert OpensInto(t, x, limit, at, cap, t', t - {key});
  }

  /** The displaced key comes back to a full bucket. */
  lemma ComeBack<K(!new)>(limit: Limit, cap: nat, b: Run<K>, key: K, old_: Bucket, keys: set<K>, at: real) returns (r: Run<K>)
    requires Steady(limit) && 1.0 <= limit.burst && 0 < cap && |b.table| == cap && key !in b.table && key in keys
    requires IsRun(limit, cap, b) && Over(b, keys) && b.StartTime() == 0.0 && b.Clock() == at
    requires forall k :: k in b.table ==> b.table[k] == Bucket(at, limit.burst - 1.0)
    requires key in Unbounded(limit, b) && Unbounded(limit, b)[key] == old_
    requires old_.last <= at && Accrued(old_, limit, at) < 1.0
    ensures IsRun(limit, cap, r) && Over(r, keys) && r.StartTime() == 0.0 && r.Clock() == at
    ensures Net(r, key) == Net(b, key) + 1.0 && !AnswersAsUnbounded(limit, r)
  {
    var t' := OpensAgain(limit, cap, b.table, key, at);
    assert Adds(limit, 0.0, 0.0);
    r := Then(b, Check(key, at, Admitted), t');
  }

  lemma OpensAgain<K(!new)>(limit: Limit, cap: nat, t: Table<K>, key: K, at: real) returns (t': Table<K>)
    requires Steady(limit) && 1.0 <= limit.burst && 0 < cap == |t| && key !in t
    requires forall k :: k in t ==> t[k] == Bucket(at, limit.burst - 1.0)
    ensures CheckResult(t, key, limit, at, cap, t', Admitted)
  {
    assert Adds(limit, 0.0, 0.0);
    assert Swept(t, limit, at) == t;
    var z :| z in t;
    assert IsOldest(t, z);
    assert EvictResult(t, limit, at, cap, t - {z});
    t' := (t - {z})[key := Debited(Bucket(at, limit.burst), limit, at)];
    assert OpensInto(t, key, limit, at, cap, t', t - {z});
  }

  lemma {:induction false} SomeOf<K(!new)>(s: set<K>, n: nat) returns (some: set<K>)
    requires n <= |s|
    ensures some <= s && |some| == n
  {
    if n == 0 {
      some := {};
    } else {
      var x :| x in s;
      var rest := SomeOf(s - {x}, n - 1);
      some := rest + {x};
    }
  }

  /** Enough time to earn half of `part`. */
  lemma HalfTheWay(limit: Limit, rate: real, part: real) returns (at: real)
    requires Enabled(limit, rate) && 0.0 < part
    ensures 0.0 < at && limit.earn(at) == rate * at == part / 2.0
  {
    at := part / (2.0 * rate);
    assert EarnsAt(limit, rate, at);
    assert rate * at == part / 2.0;
    if at <= 0.0 { Product(rate, -at); }
  }

  /** A key spends all its whole tokens, and others fill the table behind it. */
  lemma Overfill<K(!new)>(limit: Limit, cap: nat, key: K, others: set<K>, n: nat, at: real) returns (r: Run<K>)
    requires Steady(limit) && 1.0 <= limit.burst && 0 < n && n as real <= limit.burst && 0.0 <= at
    requires key !in others && |others| < cap
    ensures Crowded(limit, cap, r, key, Bucket(0.0, limit.burst - n as real), others, at) && Net(r, key) == n as real
  {
    var old_ := Bucket(0.0, limit.burst - n as real);
    var drained := Drain(limit, cap, key, n);
    assert drained.table == Crowd(key, old_, {}, at, limit.burst);
    OverMore(drained, {key}, {} + {key});
    r := Fill(limit, cap, drained, key, old_, others, at);
  }

  lemma CrowdOut<K(!new)>(limit: Limit, cap: nat, keys: set<K>, key: K, x: K, others: set<K>, n: nat, at: real) returns (r: Run<K>)
    requires Steady(limit) && 1.0 <= limit.burst && 0 < n && n as real <= limit.burst && 0.0 <= at
    requires key !in others + {x} && x !in others && |others| + 1 == cap && others + {x} + {key} <= keys
    requires Accrued(Bucket(0.0, limit.burst - n as real), limit, at) < 1.0
    ensures IsRun(limit, cap, r) && Over(r, keys) && r.StartTime() == 0.0 && r.Clock() == at
    ensures Net(r, key) == n as real + 1.0 && !AnswersAsUnbounded(limit, r)
  {
    var old_ := Bucket(0.0, limit.burst - n as real);
    var filled := Overfill(limit, cap, key, others, n, at);
    var displaced := Displace(limit, cap, filled, key, old_, others, x, at);
    OverMore(displaced, others + {x} + {key}, keys);
    assert |displaced.table.Keys| == |others + {x}| == cap;
    r := ComeBack(limit, cap, displaced, key, old_, keys, at);
  }

  ghost predicate WithinPlainBound<K(!new)>(limit: Limit, rate: real, r: Run<K>, key: K) {
    Net(r, key) <= PlainBound(limit, rate, r)
  }

  /** Without the allowance for drops the bound fails, and the cap shows, as soon
      as there is one key more than the table holds: a key spends what it can, the
      others displace its bucket, and it comes back to a full one. */
  lemma DropsBreakThePlainBound<K(!new)>(limit: Limit, rate: real, cap: nat, keys: set<K>) returns (r: Run<K>, key: K)
    requires Enabled(limit, rate) && 0 < cap && 1.0 <= limit.burst && cap < |keys|
    ensures IsRun(limit, cap, r) && Over(r, keys)
    ensures !WithinPlainBound(limit, rate, r, key)
    ensures !AnswersAsUnbounded(limit, r)
  {
    EnabledIsSteady(limit, rate);
    key :| key in keys;
    var some := SomeOf(keys - {key}, cap);
    var x :| x in some;
    var n := limit.burst.Floor;
    var at := HalfTheWay(limit, rate, n as real + 1.0 - limit.burst);
    assert at - 0.0 == at;
    r := CrowdOut(limit, cap, keys, key, x, some - {x}, n, at);
  }

  /** If it is a run over the keys, it meets the plain bound. */
  ghost predicate MeetsBound<K(!new)>(limit: Limit, rate: real, cap: nat, keys: set<K>, r: Run<K>, key: K) {
    IsRun(limit, cap, r) && Over(r, keys) ==> WithinPlainBound(limit, rate, r, key)
  }

  lemma FewKeysMeetTheBound<K(!new)>(limit: Limit, rate: real, cap: nat, keys: set<K>, r: Run<K>, key: K)
    requires Enabled(limit, rate) && |keys| <= cap
    ensures MeetsBound(limit, rate, cap, keys, r, key)
  {
    if IsRun(limit, cap, r) && Over(r, keys) {
      FewKeysNeverDrop(limit, cap, r, keys);
      AdmissionBound(limit, rate, cap, r, key);
      assert limit.burst * 0.0 == 0.0;
    }
  }

  /** Every run over some keys meets the plain bound if and only if the table has
      room for them all. */
  lemma PlainBoundIff<K(!new)>(limit: Limit, rate: real, cap: nat, keys: set<K>)
    requires Enabled(limit, rate) && 0 < cap && 1.0 <= limit.burst
    ensures (forall r: Run<K>, key: K :: MeetsBound(limit, rate, cap, keys, r, key)) <==> |keys| <= cap
  {
    if |keys| <= cap {
      forall r: Run<K>, key: K ensures MeetsBound(limit, rate, cap, keys, r, key) {
        FewKeysMeetTheBound(limit, rate, cap, keys, r, key);
      }
    } else {
      var r, key := DropsBreakThePlainBound(limit, rate, cap, keys);
      assert !MeetsBound(limit, rate, cap, keys, r, key);
    }
  }

  /** On every run over some keys the capped and swept table answers as one that
      never drops a bucket, if and only if it has room for them all. */
  lemma InvisibleIff<K(!new)>(limit: Limit, rate: real, cap: nat, keys: set<K>)
    requires Enabled(limit, rate) && 0 < cap && 1.0 <= limit.burst
    ensures (forall r: Run<K> :: IsRun(limit, cap, r) && Over(r, keys) ==> AnswersAsUnbounded(limit, r)) <==> |keys| <= cap
  {
    EnabledIsSteady(limit, rate);
    if |keys| <= cap {
      forall r: Run<K> | IsRun(limit, cap, r) && Over(r, keys) ensures AnswersAsUnbounded(limit, r) {
        FewKeysNeverDrop(limit, cap, r, keys);
        SweepIsInvisible(limit, cap, r);
      }
    } else {
      var r, key := DropsBreakThePlainBound(limit, rate, cap, keys);
    }
  }

  // --- the cap

  lemma {:induction false} RunStaysWithinCap<K(!new)>(limit: Limit, cap: nat, r: Run<K>)
    requires 0 < cap && IsRun(limit, cap, r) && |r.StartTable()| <= cap
    ensures |r.table| <= cap
  {
    match r
    case Start(_, _) =>
    case Then(b, e, t) =>
      RunStaysWithinCap(limit, cap, b);
      StepStaysWithinCap(limit, cap, b.table, e, t);
  }

  lemma StepStaysWithinCap<K(!new)>(limit: Limit, cap: nat, t: Table<K>, e: Event<K>, t': Table<K>)
    requires 0 < cap && |t| <= cap && Step(limit, cap, t, e, t')
    ensures |t'| <= cap
  {
    if e.key in t || e.Refund? {
      assert t'.Keys == t.Keys;
    } else {
      var room := OpensIn(limit, cap, t, e, t');
      MadeRoomHasRoom(t, limit, e.at, cap, room);
    }
  }

  lemma MadeRoomHasRoom<K(!new)>(t: Table<K>, limit: Limit, now: real, cap: nat, room: Table<K>)
    requires 0 < cap && |t| <= cap && MadeRoom(t, limit, now, cap, room)
    ensures |room| < cap
  {
    var swept := Swept(t, limit, now);
    Subset(swept.Keys, t.Keys);
    if |t| >= cap && |swept| >= cap && swept != map[] {
      var oldest :| IsOldest(swept, oldest) && room == swept - {oldest};
      assert room.Keys == swept.Keys - {oldest};
    }
  }

  lemma Subset<T>(a: set<T>, b: set<T>)
    requires a <= b
    ensures |a| <= |b| && (|a| == |b| ==> a == b)
  {
    assert b == a + (b - a);
  }

  /** A key with no bucket is always admitted once a burst buys one request,
      and the only bucket a check ever drops below its ceiling is one with the
      least recent debit, in a full table whose sweep freed nothing. */
  lemma NewKeysDisplaceOnlyTheOldest<K(!new)>(limit: Limit, cap: nat, t: Table<K>, e: Event<K>, t': Table<K>, dropped: K)
    requires Steady(limit) && 0 < cap && |t| <= cap && Step(limit, cap, t, e, t')
    ensures e.Check? && e.key !in t && 1.0 <= limit.burst ==> e.outcome.Admitted? && e.key in t'
    ensures DropsBelowCeiling(limit, t, e, t', dropped) ==>
              && e.Check? && e.key !in t && |t| == cap
              && (forall k :: k in t ==> Accrued(t[k], limit, e.at) < limit.burst && t[dropped].last <= t[k].last)
              && t'.Keys == t.Keys - {dropped} + {e.key}
  {
    assert Adds(limit, 0.0, 0.0);
    if DropsBelowCeiling(limit, t, e, t', dropped) {
      var swept := Swept(t, limit, e.at);
      Subset(swept.Keys, t.Keys);
      var room :| OpensInto(t, e.key, limit, e.at, cap, t', room);
      assert dropped in swept && dropped !in room;
      var oldest :| IsOldest(swept, oldest) && room == swept - {oldest};
      assert swept.Keys == t.Keys;
      assert swept == t;
    }
  }

  /** At its ceiling: its level and what it earned since come to a burst. */
  ghost predicate AtCeiling(b: Bucket, limit: Limit, now: real) {
    limit.burst <= b.tokens + limit.earn(now - b.last)
  }

  /** What a new key costs the others. In a table with room, nothing. In a full one
      every bucket at its ceiling goes and no other, if there is one; if there is
      none, just one goes, with the least recent debit. What stays is untouched. */
  ghost predicate RoomFor<K(!new)>(limit: Limit, cap: nat, t: Table<K>, key: K, now: real, t': Table<K>) {
    && (forall k :: k in t' && k != key ==> k in t && t'[k] == t[k])
    && if |t| < cap then t'.Keys == t.Keys + {key}
       else if AnyAtCeiling(t, limit, now) then FullOnesGo(t, limit, now, t')
       else exists d :: Displaced(t, d, key, t')
  }

  ghost predicate AnyAtCeiling<K(!new)>(t: Table<K>, limit: Limit, now: real) {
    exists k :: k in t && AtCeiling(t[k], limit, now)
  }

  ghost predicate FullOnesGo<K(!new)>(t: Table<K>, limit: Limit, now: real, t': Table<K>) {
    forall k :: k in t ==> (k in t' <==> !AtCeiling(t[k], limit, now))
  }

  ghost predicate Displaced<K(!new)>(t: Table<K>, d: K, key: K, t': Table<K>) {
    d in t && (forall k :: k in t ==> t[d].last <= t[k].last) && t'.Keys == t.Keys - {d} + {key}
  }

  lemma SweptIs<K(!new)>(t: Table<K>, limit: Limit, now: real)
    requires Valid(t, limit, now)
    ensures forall k :: k in Swept(t, limit, now) <==> k in t && !AtCeiling(t[k], limit, now)
    ensures !AnyAtCeiling(t, limit, now) ==> Swept(t, limit, now) == t
    ensures AnyAtCeiling(t, limit, now) ==> |Swept(t, limit, now)| < |t|
  {
    var swept := Swept(t, limit, now);
    Subset(swept.Keys, t.Keys);
  }

  lemma RoomBySweep<K(!new)>(limit: Limit, cap: nat, t: Table<K>, key: K, now: real, room: Table<K>, t': Table<K>)
    requires |t| == cap && Valid(t, limit, now) && MadeRoom(t, limit, now, cap, room) && AnyAtCeiling(t, limit, now)
    requires key !in t && t'.Keys == room.Keys + {key} && forall k :: k in room ==> t'[k] == room[k]
    ensures RoomFor(limit, cap, t, key, now, t')
  {
    SweptIs(t, limit, now);
    assert room == Swept(t, limit, now);
  }

  lemma RoomByAge<K(!new)>(limit: Limit, cap: nat, t: Table<K>, key: K, now: real, room: Table<K>, t': Table<K>)
    requires 0 < cap == |t| && Valid(t, limit, now) && MadeRoom(t, limit, now, cap, room) && !AnyAtCeiling(t, limit, now)
    requires key !in t && t'.Keys == room.Keys + {key} && forall k :: k in room ==> t'[k] == room[k]
    ensures RoomFor(limit, cap, t, key, now, t')
  {
    SweptIs(t, limit, now);
    var d :| IsOldest(t, d) && room == t - {d};
    assert Displaced(t, d, key, t');
  }

  lemma NewKeyCosts<K(!new)>(limit: Limit, cap: nat, t: Table<K>, e: Event<K>, t': Table<K>)
    requires 0 < cap && |t| <= cap && Valid(t, limit, e.at) && Step(limit, cap, t, e, t') && e.Check? && e.key !in t
    ensures RoomFor(limit, cap, t, e.key, e.at, t')
  {
    var room := OpensIn(limit, cap, t, e, t');
    if |t| < cap {
      RoomAlready(limit, cap, t, e.key, e.at, t');
    } else if AnyAtCeiling(t, limit, e.at) {
      RoomBySweep(limit, cap, t, e.key, e.at, room, t');
    } else {
      RoomByAge(limit, cap, t, e.key, e.at, room, t');
    }
  }

  lemma OpensIn<K(!new)>(limit: Limit, cap: nat, t: Table<K>, e: Event<K>, t': Table<K>) returns (room: Table<K>)
    requires Step(limit, cap, t, e, t') && e.Check? && e.key !in t
    ensures MadeRoom(t, limit, e.at, cap, room) && t'.Keys == room.Keys + {e.key}
    ensures e.key !in room && forall k :: k in room ==> t'[k] == room[k]
  {
    room :| OpensInto(t, e.key, limit, e.at, cap, t', room);
    MadeRoomIsPart(limit, cap, t, e.at, room);
  }

  lemma MadeRoomIsPart<K(!new)>(limit: Limit, cap: nat, t: Table<K>, now: real, room: Table<K>)
    requires MadeRoom(t, limit, now, cap, room)
    ensures room.Keys <= t.Keys
  {
  }

  lemma RoomAlready<K(!new)>(limit: Limit, cap: nat, t: Table<K>, key: K, now: real, t': Table<K>)
    requires |t| < cap && key !in t && t'.Keys == t.Keys + {key} && forall k :: k in t ==> t'[k] == t[k]
    ensures RoomFor(limit, cap, t, key, now, t')
  {
  }

  /** At every check of every run a new key costs the others no more than that. */
  lemma NewKeysMakeRoom<K(!new)>(limit: Limit, cap: nat, r: Run<K>)
    requires Steady(limit) && 0 < cap && IsRun(limit, cap, r) && |r.StartTable()| <= cap
    requires r.Then? && r.event.Check? && r.event.key !in r.before.table
    ensures RoomFor(limit, cap, r.before.table, r.event.key, r.event.at, r.table)
  {
    RunStaysValid(limit, cap, r.before);
    RunStaysWithinCap(limit, cap, r.before);
    NewKeyCosts(limit, cap, r.before.table, r.event, r.table);
  }

  // --- refusals and refunds

  lemma CeilingIsTight(x: real)
    ensures x <= Ceiling(x) as real < x + 1.0
  {
  }

  lemma WaitEarns(rate: real, tokens: real, w: real)
    requires 0.0 < rate
    ensures w >= (1.0 - tokens) / rate <==> tokens + rate * w >= 1.0
  {
  }

  /** A refused client that waits at least the time it was told is admitted if
      nothing else debits the key, exactly when a burst buys one request; one
      that comes back a full millisecond early is refused. */
  lemma RetryAfterIsExact(limit: Limit, rate: real, b: Bucket, now: real, w: real)
    requires Enabled(limit, rate) && b.last <= now && 0.0 <= w
    requires DebitOutcome(b, limit, now).Exceeded?
    ensures
      var wait := RetryAfter(rate, Refill(b, limit, now)).value;
      && (wait <= w ==> (DebitOutcome(b, limit, now + w).Admitted? <==> 1.0 <= limit.burst))
      && (w <= wait - 0.001 ==> DebitOutcome(b, limit, now + w).Exceeded?)
  {
    EnabledIsSteady(limit, rate);
    AccruedGrows(b, limit, now, now + w);
    assert now + w - now == w;
    assert EarnsAt(limit, rate, w);
    var tokens := Refill(b, limit, now);
    var secs := (1.0 - tokens) / rate;
    WaitEarns(rate, tokens, 0.0);
    WaitEarns(rate, tokens, w);
    CeilingIsTight(secs * 1000.0);
  }

  /** A check followed at once by its refund leaves what the key may spend
      unchanged at every later time. */
  lemma RefundUndoesCheck<K(!new)>(limit: Limit, cap: nat, t: Table<K>, key: K, now: real, t': Table<K>, later: real)
    requires Steady(limit) && Valid(t, limit, now) && now <= later
    requires CheckResult(t, key, limit, now, cap, t', Admitted)
    ensures Available(Refunded(t', key, limit), key, limit, later) == Available(t, key, limit, later)
  {
    assert Adds(limit, later - now, later - now);
    if key in t {
      RefillComposes(t[key], limit, now, later);
    } else {
      AccruedGrows(Bucket(now, limit.burst), limit, now, later);
      assert Adds(limit, 0.0, 0.0);
    }
  }
}
