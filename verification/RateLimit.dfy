/** The token bucket limiter: a real-valued level per key, refilled by the clock, pruned when idle. */
module RateLimit {
  import opened Prelude

  type Key = string

  /** Times are milliseconds. */
  datatype Bucket = Bucket(tokens: real, updatedAt: real)

  type Buckets = map<Key, Bucket>

  datatype Decision = Decision(allowed: bool, remaining: int, retryAfterSeconds: int)

  const PRUNE_AFTER_MS := 600000.0
  const PRUNE_THRESHOLD := 10000

  datatype Limits = Limits(capacity: real, refillPerSecond: real)

  function Least(a: real, b: real): real { if b < a then b else a }

  function Ceiling(x: real): int { -((-x).Floor) }

  /** What `ms` milliseconds add. */
  function Gain(lim: Limits, ms: real): real {
    ms / 1000.0 * lim.refillPerSecond
  }

  function Refilled(lim: Limits, b: Bucket, now: real): real {
    Least(lim.capacity, b.tokens + Gain(lim, now - b.updatedAt))
  }

  /** The level a call on the key would find; an unknown key starts full. */
  function Level(lim: Limits, buckets: Buckets, key: Key, now: real): real {
    Refilled(lim, if key in buckets then buckets[key] else Bucket(lim.capacity, now), now)
  }

  /** What pruning leaves: nothing idle for longer than ten minutes, once there are too many buckets. */
  function Pruned(buckets: Buckets, now: real): Buckets {
    if |buckets| <= PRUNE_THRESHOLD then buckets
    else map k | k in buckets && now - buckets[k].updatedAt <= PRUNE_AFTER_MS :: buckets[k]
  }

  function DecisionFor(lim: Limits, level: real): Decision {
    if level >= 1.0 then Decision(true, (level - 1.0).Floor, 0)
    else
      var retry := if lim.refillPerSecond > 0.0 then (1.0 - level) / lim.refillPerSecond else 60.0;
      Decision(false, 0, if Ceiling(retry) < 1 then 1 else Ceiling(retry))
  }

  function AfterTake(lim: Limits, buckets: Buckets, key: Key, now: real): Buckets {
    var level := Level(lim, buckets, key, now);
    if level >= 1.0 then Pruned(buckets[key := Bucket(level - 1.0, now)], now)
    else buckets[key := Bucket(level, now)]
  }

  class RateLimiter {
    const lim: Limits
    var buckets: Buckets

    constructor (lim: Limits)
      ensures this.lim == lim && buckets == map[]
    {
      this.lim, buckets := lim, map[];
    }

    method Take(key: Key, now: real) returns (d: Decision)
      modifies this
      ensures d == DecisionFor(lim, Level(lim, old(buckets), key, now))
      ensures buckets == AfterTake(lim, old(buckets), key, now)
    {
      var bucket := if key in buckets then buckets[key] else Bucket(lim.capacity, now);
      var refilled := Refilled(lim, bucket, now);
      if refilled >= 1.0 {
        buckets := buckets[key := Bucket(refilled - 1.0, now)];
        Prune(now);
        return Decision(true, (refilled - 1.0).Floor, 0);
      }
      buckets := buckets[key := Bucket(refilled, now)];
      var retry := if lim.refillPerSecond > 0.0 then (1.0 - refilled) / lim.refillPerSecond else 60.0;
      return Decision(false, 0, if Ceiling(retry) < 1 then 1 else Ceiling(retry));
    }

    method Prune(now: real)
      modifies this
      ensures buckets == Pruned(old(buckets), now)
    {
      if |buckets| <= PRUNE_THRESHOLD { return; }
      var keys := buckets.Keys;
      ghost var before := buckets;
      while keys != {}
        invariant keys <= before.Keys
        invariant forall k :: k in buckets <==>
                    k in before && (k in keys || now - before[k].updatedAt <= PRUNE_AFTER_MS)
        invariant forall k :: k in buckets ==> buckets[k] == before[k]
      {
        var k :| k in keys;
        if now - buckets[k].updatedAt > PRUNE_AFTER_MS { buckets := buckets - {k}; }
        keys := keys - {k};
      }
    }
  }

  // ----- Any sequence of calls -----

  datatype Call = Call(key: Key, at: real)

  /** What the limiter answers a call, see `Take`. */
  function Answer(lim: Limits, buckets: Buckets, c: Call): Decision {
    DecisionFor(lim, Level(lim, buckets, c.key, c.at))
  }

  /** The limiter after the first `n` calls. */
  function After(lim: Limits, start: Buckets, calls: seq<Call>, n: nat): Buckets
    requires n <= |calls|
  {
    if n == 0 then start else AfterTake(lim, After(lim, start, calls, n - 1), calls[n - 1].key, calls[n - 1].at)
  }

  function AllowedAt(lim: Limits, start: Buckets, calls: seq<Call>, i: nat): bool
    requires i < |calls|
  {
    Answer(lim, After(lim, start, calls, i), calls[i]).allowed
  }

  /** How many of the calls number i to n-1 are on the key and answered with `allowed`. */
  function Allowed(lim: Limits, start: Buckets, calls: seq<Call>, key: Key, i: nat, n: nat): nat
    requires i <= n <= |calls|
    decreases n - i
  {
    if i == n then 0
    else Allowed(lim, start, calls, key, i, n - 1) +
         (if calls[n - 1].key == key && AllowedAt(lim, start, calls, n - 1) then 1 else 0)
  }

  predicate Sane(lim: Limits) {
    lim.capacity >= 0.0 && lim.refillPerSecond >= 0.0
  }

  /** Ten minutes of refill cover the capacity. */
  predicate RefillCoversCapacity(lim: Limits) {
    lim.capacity <= 600.0 * lim.refillPerSecond
  }

  ghost predicate Monotone(calls: seq<Call>) {
    forall i, j :: 0 <= i <= j < |calls| ==> calls[i].at <= calls[j].at
  }

  /** Levels stay between empty and full, and no bucket is dated later than `now`. */
  ghost predicate Bounded(lim: Limits, buckets: Buckets, now: real) {
    forall k :: k in buckets ==> 0.0 <= buckets[k].tokens <= lim.capacity && buckets[k].updatedAt <= now
  }

  lemma GainFacts(lim: Limits, a: real, b: real)
    requires Sane(lim) && a >= 0.0
    ensures Gain(lim, a) >= 0.0 && Gain(lim, a + b) == Gain(lim, a) + Gain(lim, b)
  {
    var rate := lim.refillPerSecond;
    assert (a / 1000.0) * rate >= 0.0;
    assert (a + b) / 1000.0 == a / 1000.0 + b / 1000.0;
    assert (a / 1000.0 + b / 1000.0) * rate == (a / 1000.0) * rate + (b / 1000.0) * rate;
  }

  /** A bucket idle for more than ten minutes is full again exactly because the refill covers it. */
  lemma IdleIsFull(lim: Limits, b: Bucket, now: real)
    requires Sane(lim) && RefillCoversCapacity(lim) && b.tokens >= 0.0 && now - b.updatedAt > PRUNE_AFTER_MS
    ensures Refilled(lim, b, now) == lim.capacity
  {
    var idle := now - b.updatedAt;
    GainFacts(lim, idle - PRUNE_AFTER_MS, PRUNE_AFTER_MS);
    assert Gain(lim, PRUNE_AFTER_MS) == 600.0 * lim.refillPerSecond;
  }

  /**
    * Eviction cannot be noticed, on any bucket and after any idle time that allows it, exactly when
    * ten minutes of refill cover the capacity.
    */
  lemma EvictionInvisibleExactlyWhen(lim: Limits)
    requires Sane(lim)
    ensures RefillCoversCapacity(lim) <==>
              forall b: Bucket, now: real :: 0.0 <= b.tokens <= lim.capacity && now - b.updatedAt > PRUNE_AFTER_MS ==>
                Refilled(lim, b, now) == lim.capacity
  {
    if RefillCoversCapacity(lim) {
      forall b: Bucket, now: real | 0.0 <= b.tokens <= lim.capacity && now - b.updatedAt > PRUNE_AFTER_MS
        ensures Refilled(lim, b, now) == lim.capacity
      {
        IdleIsFull(lim, b, now);
      }
    } else {
      var short := lim.capacity - 600.0 * lim.refillPerSecond;
      var extra := if lim.refillPerSecond == 0.0 then 1.0 else 500.0 * short / lim.refillPerSecond;
      var b, now := Bucket(0.0, 0.0), PRUNE_AFTER_MS + extra;
      assert extra > 0.0 && Gain(lim, extra) < short by { ExtraIsSmall(lim, short, extra); }
      GainFacts(lim, PRUNE_AFTER_MS, extra);
      assert Gain(lim, PRUNE_AFTER_MS) == 600.0 * lim.refillPerSecond;
      assert now - b.updatedAt == PRUNE_AFTER_MS + extra;
      assert Refilled(lim, b, now) < lim.capacity;
    }
  }

  lemma ExtraIsSmall(lim: Limits, short: real, extra: real)
    requires Sane(lim) && short > 0.0
    requires extra == if lim.refillPerSecond == 0.0 then 1.0 else 500.0 * short / lim.refillPerSecond
    ensures extra > 0.0 && Gain(lim, extra) < short
  {
    var rate := lim.refillPerSecond;
    if rate > 0.0 {
      assert extra * rate == 500.0 * short;
      assert Gain(lim, extra) == extra * rate / 1000.0 == short / 2.0;
    }
  }

  /** Time alone raises the level by at most what it refills. */
  lemma LevelGains(lim: Limits, buckets: Buckets, key: Key, t: real, u: real)
    requires Sane(lim) && t <= u && Bounded(lim, buckets, t)
    ensures 0.0 <= Level(lim, buckets, key, t) <= lim.capacity
    ensures Level(lim, buckets, key, u) <= Level(lim, buckets, key, t) + Gain(lim, u - t)
  {
    GainFacts(lim, u - t, 0.0);
    if key in buckets {
      var b := buckets[key];
      GainFacts(lim, t - b.updatedAt, u - t);
      assert u - b.updatedAt == (t - b.updatedAt) + (u - t);
    } else {
      assert Gain(lim, t - t) == 0.0 && Gain(lim, u - u) == 0.0;
    }
  }

  /** The buckets right after an allowed call, before pruning. */
  function Spent(lim: Limits, buckets: Buckets, c: Call): Buckets {
    buckets[c.key := Bucket(Level(lim, buckets, c.key, c.at) - 1.0, c.at)]
  }

  /** If this call evicts the key's bucket, the bucket was full. */
  predicate EvictsOnlyFull(lim: Limits, buckets: Buckets, c: Call, key: Key) {
    var spent := Spent(lim, buckets, c);
    Answer(lim, buckets, c).allowed && key in spent && key !in Pruned(spent, c.at) ==>
      Refilled(lim, spent[key], c.at) == lim.capacity
  }

  /** One call, seen from a key: it pays one token exactly when it is the key's own and is answered with `allowed`. */
  lemma TakePays(lim: Limits, buckets: Buckets, c: Call, key: Key)
    requires Sane(lim) && Bounded(lim, buckets, c.at) && EvictsOnlyFull(lim, buckets, c, key)
    ensures Level(lim, AfterTake(lim, buckets, c.key, c.at), key, c.at) ==
              Level(lim, buckets, key, c.at) -
              (if c.key == key && Answer(lim, buckets, c).allowed then 1.0 else 0.0)
  {
    LevelGains(lim, buckets, c.key, c.at, c.at);
    LevelGains(lim, buckets, key, c.at, c.at);
    assert Gain(lim, c.at - c.at) == 0.0;
  }

  lemma TakeBounded(lim: Limits, buckets: Buckets, c: Call)
    requires Sane(lim) && Bounded(lim, buckets, c.at)
    ensures Bounded(lim, AfterTake(lim, buckets, c.key, c.at), c.at)
  {
    LevelGains(lim, buckets, c.key, c.at, c.at);
  }

  lemma {:induction false} AfterIsBounded(lim: Limits, start: Buckets, calls: seq<Call>, n: nat, now: real)
    requires Sane(lim) && Monotone(calls) && calls != [] && n <= |calls| && Bounded(lim, start, calls[0].at)
    requires (if n == 0 then calls[0].at else calls[n - 1].at) <= now
    ensures Bounded(lim, After(lim, start, calls, n), now)
  {
    if n > 0 {
      AfterIsBounded(lim, start, calls, n - 1, calls[n - 1].at);
      TakeBounded(lim, After(lim, start, calls, n - 1), calls[n - 1]);
    }
  }

  /** No call of the window evicts the key's bucket before it is full. */
  ghost predicate WindowEvictsOnlyFull(lim: Limits, start: Buckets, calls: seq<Call>, key: Key, i: nat, n: nat)
    requires i <= n <= |calls|
  {
    forall j | i <= j < n :: EvictsOnlyFullAt(lim, start, calls, key, j)
  }

  predicate EvictsOnlyFullAt(lim: Limits, start: Buckets, calls: seq<Call>, key: Key, j: nat)
    requires j < |calls|
  {
    EvictsOnlyFull(lim, After(lim, start, calls, j), calls[j], key)
  }

  /** Ten minutes of refill covering the capacity rules early evictions out. */
  lemma CoveredRefillEvictsOnlyFull(lim: Limits, start: Buckets, calls: seq<Call>, key: Key, i: nat, n: nat)
    requires Sane(lim) && RefillCoversCapacity(lim) && Monotone(calls) && i <= n <= |calls|
    requires calls != [] ==> Bounded(lim, start, calls[0].at)
    ensures WindowEvictsOnlyFull(lim, start, calls, key, i, n)
  {
    forall j | i <= j < n ensures EvictsOnlyFullAt(lim, start, calls, key, j) {
      var before, c := After(lim, start, calls, j), calls[j];
      AfterIsBounded(lim, start, calls, j, c.at);
      LevelGains(lim, before, c.key, c.at, c.at);
      var spent := Spent(lim, before, c);
      if Answer(lim, before, c).allowed && key in spent && key !in Pruned(spent, c.at) {
        IdleIsFull(lim, spent[key], c.at);
      }
    }
  }

  /** What the clock has paid in since time zero. */
  function Earned(lim: Limits, t: real): real {
    Gain(lim, t)
  }

  lemma GainIsEarned(lim: Limits, t: real, u: real)
    ensures Gain(lim, u - t) == Earned(lim, u) - Earned(lim, t)
  {
    var rate := lim.refillPerSecond;
    assert (u - t) / 1000.0 == u / 1000.0 - t / 1000.0;
    assert (u / 1000.0 - t / 1000.0) * rate == u / 1000.0 * rate - t / 1000.0 * rate;
  }

  function Paid(lim: Limits, before: Buckets, c: Call, key: Key): nat {
    if c.key == key && Answer(lim, before, c).allowed then 1 else 0
  }

  /** The allowed calls of the window and the level left after it are covered by `budget`. */
  ghost predicate Covered(lim: Limits, start: Buckets, calls: seq<Call>, key: Key, i: nat, n: nat, budget: real)
    requires i < n <= |calls|
  {
    var level := Level(lim, After(lim, start, calls, n), key, calls[n - 1].at);
    level >= 0.0 && Allowed(lim, start, calls, key, i, n) as real + level <= budget
  }

  lemma {:induction false} WindowCovered(lim: Limits, start: Buckets, calls: seq<Call>, key: Key, i: nat, n: nat)
    requires Sane(lim) && Monotone(calls) && i < n <= |calls| && Bounded(lim, start, calls[0].at)
    requires WindowEvictsOnlyFull(lim, start, calls, key, i, n)
    ensures Covered(lim, start, calls, key, i, n,
                    lim.capacity + (Earned(lim, calls[n - 1].at) - Earned(lim, calls[i].at)))
    decreases n - i
  {
    var before, c := After(lim, start, calls, n - 1), calls[n - 1];
    assert EvictsOnlyFullAt(lim, start, calls, key, n - 1);
    if n - 1 == i {
      AfterIsBounded(lim, start, calls, i, c.at);
      WindowOfOne(lim, before, c, key);
      CoverOne(lim, start, calls, key, i, n, lim.capacity + (Earned(lim, c.at) - Earned(lim, c.at)));
    } else {
      WindowCovered(lim, start, calls, key, i, n - 1);
      CoverNext(lim, start, calls, key, i, n);
    }
  }

  lemma CoverNext(lim: Limits, start: Buckets, calls: seq<Call>, key: Key, i: nat, n: nat)
    requires Sane(lim) && Monotone(calls) && i + 1 < n <= |calls| && Bounded(lim, start, calls[0].at)
    requires EvictsOnlyFullAt(lim, start, calls, key, n - 1)
    requires Covered(lim, start, calls, key, i, n - 1,
                     lim.capacity + (Earned(lim, calls[n - 2].at) - Earned(lim, calls[i].at)))
    ensures Covered(lim, start, calls, key, i, n,
                    lim.capacity + (Earned(lim, calls[n - 1].at) - Earned(lim, calls[i].at)))
  {
    AfterIsBounded(lim, start, calls, n - 1, calls[n - 2].at);
    WindowStep(lim, After(lim, start, calls, n - 1), calls[n - 2].at, calls[n - 1], key);
    CoverMore(lim, start, calls, key, i, n, lim.capacity, Earned(lim, calls[n - 2].at) - Earned(lim, calls[i].at),
              Earned(lim, calls[n - 1].at) - Earned(lim, calls[i].at));
  }

  lemma CoverOne(lim: Limits, start: Buckets, calls: seq<Call>, key: Key, i: nat, n: nat, budget: real)
    requires i + 1 == n <= |calls|
    requires var before, c := After(lim, start, calls, n - 1), calls[n - 1];
             var level := Level(lim, AfterTake(lim, before, c.key, c.at), key, c.at);
             level >= 0.0 && Paid(lim, before, c, key) as real + level <= budget
    ensures Covered(lim, start, calls, key, i, n, budget)
  {
  }

  lemma CoverMore(lim: Limits, start: Buckets, calls: seq<Call>, key: Key, i: nat, n: nat,
                  capacity: real, g: real, g': real)
    requires i + 1 < n <= |calls| && Covered(lim, start, calls, key, i, n - 1, capacity + g)
    requires var before, c := After(lim, start, calls, n - 1), calls[n - 1];
             var level := Level(lim, AfterTake(lim, before, c.key, c.at), key, c.at);
             level >= 0.0 && Paid(lim, before, c, key) as real + level
                <= Level(lim, before, key, calls[n - 2].at) + g' - g
    ensures Covered(lim, start, calls, key, i, n, capacity + g')
  {
  }

  /**
    * The window bound: of any run of calls, those on one key that are allowed are no more than the
    * capacity plus what the window refills, whatever other keys do, as long as the key's bucket is
    * not evicted before it is full. `CoveredRefillEvictsOnlyFull` says when it never is.
    */
  lemma WindowBound(lim: Limits, start: Buckets, calls: seq<Call>, key: Key, i: nat, n: nat)
    requires Sane(lim) && Monotone(calls) && i < n <= |calls| && Bounded(lim, start, calls[0].at)
    requires WindowEvictsOnlyFull(lim, start, calls, key, i, n)
    ensures Allowed(lim, start, calls, key, i, n) as real <= lim.capacity + Gain(lim, calls[n - 1].at - calls[i].at)
  {
    WindowCovered(lim, start, calls, key, i, n);
    GainIsEarned(lim, calls[i].at, calls[n - 1].at);
  }

  lemma WindowOfOne(lim: Limits, before: Buckets, c: Call, key: Key)
    requires Sane(lim) && Bounded(lim, before, c.at) && EvictsOnlyFull(lim, before, c, key)
    ensures var after := Level(lim, AfterTake(lim, before, c.key, c.at), key, c.at);
            after >= 0.0 && Paid(lim, before, c, key) as real + after <= lim.capacity
  {
    LevelGains(lim, before, key, c.at, c.at);
    TakePays(lim, before, c, key);
    TakeBounded(lim, before, c);
    LevelGains(lim, AfterTake(lim, before, c.key, c.at), key, c.at, c.at);
    assert Gain(lim, c.at - c.at) == 0.0;
  }

  /** One more call: the level gained since the last one pays for it. */
  lemma WindowStep(lim: Limits, before: Buckets, last: real, c: Call, key: Key)
    requires Sane(lim) && Bounded(lim, before, last) && last <= c.at && EvictsOnlyFull(lim, before, c, key)
    ensures var after := Level(lim, AfterTake(lim, before, c.key, c.at), key, c.at);
            && after >= 0.0
            && Paid(lim, before, c, key) as real + after
               <= Level(lim, before, key, last) + (Earned(lim, c.at) - Earned(lim, last))
  {
    LevelGains(lim, before, key, last, c.at);
    assert Bounded(lim, before, c.at);
    TakePays(lim, before, c, key);
    TakeBounded(lim, before, c);
    LevelGains(lim, AfterTake(lim, before, c.key, c.at), key, c.at, c.at);
    GainIsEarned(lim, last, c.at);
  }

  // ----- The bound fails without covered refill -----

  /** A fold over calls, and a count along it. */
  function Folded<S, C>(step: (S, C) -> S, s: S, cs: seq<C>): S {
    if cs == [] then s else step(Folded(step, s, cs[..|cs| - 1]), cs[|cs| - 1])
  }

  function Counted<S, C>(step: (S, C) -> S, pays: (S, C) -> nat, s: S, cs: seq<C>): nat {
    if cs == [] then 0
    else Counted(step, pays, s, cs[..|cs| - 1]) + pays(Folded(step, s, cs[..|cs| - 1]), cs[|cs| - 1])
  }

  /** Where the calls lead and what was counted on the way. */
  function Outcome<S, C>(step: (S, C) -> S, pays: (S, C) -> nat, s: S, cs: seq<C>): (S, nat) {
    (Folded(step, s, cs), Counted(step, pays, s, cs))
  }

  lemma {:induction false} FoldedOfBoth<S, C>(step: (S, C) -> S, pays: (S, C) -> nat, s: S, x: seq<C>, y: seq<C>)
    ensures Folded(step, s, x + y) == Folded(step, Folded(step, s, x), y)
    ensures Counted(step, pays, s, x + y) ==
            Counted(step, pays, s, x) + Counted(step, pays, Folded(step, s, x), y)
  {
    if y == [] {
      assert x + y == x;
    } else {
      FoldedOfBoth(step, pays, s, x, y[..|y| - 1]);
      assert (x + y)[..|x + y| - 1] == x + y[..|y| - 1];
    }
  }

  lemma OutcomeOfBoth<S, C>(step: (S, C) -> S, pays: (S, C) -> nat, s: S, x: seq<C>, t: S, m: nat,
                            y: seq<C>, u: S, n: nat)
    requires Outcome(step, pays, s, x) == (t, m) && Outcome(step, pays, t, y) == (u, n)
    ensures Outcome(step, pays, s, x + y) == (u, m + n)
  {
    FoldedOfBoth(step, pays, s, x, y);
  }

  lemma OutcomeOfOne<S, C>(step: (S, C) -> S, pays: (S, C) -> nat, s: S, c: C)
    ensures Outcome(step, pays, s, [c]) == (step(s, c), pays(s, c))
  {
    var cs := [c];
    assert cs[..|cs| - 1] == [];
    assert Folded(step, s, cs) == step(Folded(step, s, cs[..|cs| - 1]), cs[|cs| - 1]);
    assert Counted(step, pays, s, cs) ==
           Counted(step, pays, s, cs[..|cs| - 1]) + pays(Folded(step, s, cs[..|cs| - 1]), cs[|cs| - 1]);
  }

  lemma OutcomeOfThree<S, C>(step: (S, C) -> S, pays: (S, C) -> nat, s0: S, a: seq<C>, s1: S, m: nat, b: seq<C>, s2: S,
                             c: seq<C>, s3: S, n: nat)
    requires Outcome(step, pays, s0, a) == (s1, m) && Outcome(step, pays, s1, b) == (s2, 0)
    requires Outcome(step, pays, s2, c) == (s3, n)
    ensures Outcome(step, pays, s0, a + b + c) == (s3, m + n)
  {
    OutcomeOfBoth(step, pays, s0, a, s1, m, b, s2, 0);
    OutcomeOfBoth(step, pays, s0, a + b, s2, m, c, s3, n);
  }

  function Takes(lim: Limits): (Buckets, Call) -> Buckets {
    (buckets: Buckets, c: Call) => AfterTake(lim, buckets, c.key, c.at)
  }

  function Pays(lim: Limits, key: Key): (Buckets, Call) -> nat {
    (buckets: Buckets, c: Call) => Paid(lim, buckets, c, key)
  }

  /** The buckets after the calls, and how many of those on the key were allowed. */
  function Plays(lim: Limits, from: Buckets, calls: seq<Call>, key: Key): (Buckets, nat) {
    Outcome(Takes(lim), Pays(lim, key), from, calls)
  }

  lemma PlaysOne(lim: Limits, from: Buckets, c: Call, key: Key)
    ensures Plays(lim, from, [c], key) == (AfterTake(lim, from, c.key, c.at), Paid(lim, from, c, key))
  {
    OutcomeOfOne(Takes(lim), Pays(lim, key), from, c);
  }

  lemma PlaysBoth(lim: Limits, key: Key, from: Buckets, x: seq<Call>, mid: Buckets, m: nat,
                  y: seq<Call>, to: Buckets, n: nat)
    requires Plays(lim, from, x, key) == (mid, m) && Plays(lim, mid, y, key) == (to, n)
    ensures Plays(lim, from, x + y, key) == (to, m + n)
  {
    OutcomeOfBoth(Takes(lim), Pays(lim, key), from, x, mid, m, y, to, n);
  }

  lemma {:induction false} AfterIsFolded(lim: Limits, from: Buckets, calls: seq<Call>, n: nat)
    requires n <= |calls|
    ensures Folded(Takes(lim), from, calls[..n]) == After(lim, from, calls, n)
  {
    if n > 0 {
      AfterIsFolded(lim, from, calls, n - 1);
      assert calls[..n][..n - 1] == calls[..n - 1];
    }
  }

  lemma {:induction false} AllowedIsCounted(lim: Limits, from: Buckets, calls: seq<Call>, key: Key, n: nat)
    requires n <= |calls|
    ensures Counted(Takes(lim), Pays(lim, key), from, calls[..n]) == Allowed(lim, from, calls, key, 0, n)
  {
    if n > 0 {
      AllowedIsCounted(lim, from, calls, key, n - 1);
      AfterIsFolded(lim, from, calls, n - 1);
      CountedStep(Takes(lim), Pays(lim, key), from, calls, n);
      AllowedStep(lim, from, calls, key, n);
    }
  }

  lemma CountedStep<S, C>(step: (S, C) -> S, pays: (S, C) -> nat, s: S, cs: seq<C>, n: nat)
    requires 0 < n <= |cs|
    ensures Counted(step, pays, s, cs[..n]) ==
            Counted(step, pays, s, cs[..n - 1]) + pays(Folded(step, s, cs[..n - 1]), cs[n - 1])
  {
    assert cs[..n][..n - 1] == cs[..n - 1];
  }

  lemma AllowedStep(lim: Limits, start: Buckets, calls: seq<Call>, key: Key, n: nat)
    requires 0 < n <= |calls|
    ensures Allowed(lim, start, calls, key, 0, n) ==
            Allowed(lim, start, calls, key, 0, n - 1) + Paid(lim, After(lim, start, calls, n - 1), calls[n - 1], key)
  {
  }

  /** The calls come in order, between two times. */
  ghost predicate Within(calls: seq<Call>, lo: real, hi: real) {
    Monotone(calls) && lo <= hi && forall i :: 0 <= i < |calls| ==> lo <= calls[i].at <= hi
  }

  lemma WithinBoth(x: seq<Call>, y: seq<Call>, lo: real, mid: real, hi: real)
    requires Within(x, lo, mid) && Within(y, mid, hi)
    ensures Within(x + y, lo, hi)
  {
  }

  function Burst(key: Key, at: real, n: nat): (calls: seq<Call>)
    ensures |calls| == n && forall i :: 0 <= i < n ==> calls[i] == Call(key, at)
  {
    seq(n, _ => Call(key, at))
  }

  /** An allowed call, with room for its bucket. */
  lemma TakeOfLevel(lim: Limits, from: Buckets, key: Key, at: real, level: real)
    requires Level(lim, from, key, at) == level >= 1.0 && |from.Keys + {key}| <= PRUNE_THRESHOLD
    ensures AfterTake(lim, from, key, at) == from[key := Bucket(level - 1.0, at)]
  {
    assert from[key := Bucket(level - 1.0, at)].Keys == from.Keys + {key};
  }

  lemma FreshLevel(lim: Limits, from: Buckets, key: Key, at: real)
    requires key !in from
    ensures Level(lim, from, key, at) == lim.capacity
  {
    assert Gain(lim, at - at) == 0.0;
  }

  lemma KnownLevel(lim: Limits, from: Buckets, key: Key, at: real, later: real, gain: real)
    requires key in from && from[key].updatedAt == at && Gain(lim, later - at) == gain
    requires from[key].tokens + gain <= lim.capacity
    ensures Level(lim, from, key, later) == from[key].tokens + gain
  {
  }

  /** A burst on an unknown key is let through up to the capacity's whole tokens. */
  lemma {:induction false} BurstPasses(lim: Limits, from: Buckets, key: Key, at: real, n: nat)
    requires key !in from && |from| < PRUNE_THRESHOLD && n as real <= lim.capacity
    ensures Plays(lim, from, Burst(key, at, n), key) == (AfterBurst(lim, from, key, at, n), n)
  {
    if n > 0 {
      BurstPasses(lim, from, key, at, n - 1);
      BurstStep(lim, from, key, at, n);
      PlaysBoth(lim, key, from, Burst(key, at, n - 1), AfterBurst(lim, from, key, at, n - 1), n - 1,
                [Call(key, at)], AfterBurst(lim, from, key, at, n), 1);
      assert Burst(key, at, n) == Burst(key, at, n - 1) + [Call(key, at)];
    }
  }

  function AfterBurst(lim: Limits, from: Buckets, key: Key, at: real, n: nat): Buckets {
    if n == 0 then from else from[key := Bucket(lim.capacity - n as real, at)]
  }

  lemma BurstTakes(lim: Limits, from: Buckets, key: Key, at: real, n: nat)
    requires key !in from && |from| < PRUNE_THRESHOLD && 0 < n && n as real <= lim.capacity
    ensures Level(lim, AfterBurst(lim, from, key, at, n - 1), key, at) >= 1.0
    ensures AfterTake(lim, AfterBurst(lim, from, key, at, n - 1), key, at) == AfterBurst(lim, from, key, at, n)
  {
    var b, level := AfterBurst(lim, from, key, at, n - 1), lim.capacity - (n - 1) as real;
    assert Gain(lim, at - at) == 0.0;
    if n == 1 { FreshLevel(lim, from, key, at); } else { KnownLevel(lim, b, key, at, at, 0.0); }
    assert b.Keys + {key} == from.Keys + {key};
    TakeOfLevel(lim, b, key, at, level);
    assert b[key := Bucket(level - 1.0, at)] == AfterBurst(lim, from, key, at, n);
  }

  lemma BurstStep(lim: Limits, from: Buckets, key: Key, at: real, n: nat)
    requires key !in from && |from| < PRUNE_THRESHOLD && 0 < n && n as real <= lim.capacity
    ensures Plays(lim, AfterBurst(lim, from, key, at, n - 1), [Call(key, at)], key) ==
            (AfterBurst(lim, from, key, at, n), 1)
  {
    BurstTakes(lim, from, key, at, n);
    PlaysOne(lim, AfterBurst(lim, from, key, at, n - 1), Call(key, at), key);
  }

  /** How long a burst's remainder takes to fill up to one more token; never without refill. */
  function TopUp(lim: Limits): real {
    if lim.refillPerSecond > 0.0
    then 1000.0 * (1.0 - (lim.capacity - lim.capacity.Floor as real)) / lim.refillPerSecond else 0.0
  }

  /** A burst, and with refill one more call once a token has formed: that drains a full bucket to nothing. */
  function Drain(lim: Limits, key: Key, at: real): seq<Call>
    requires lim.capacity >= 1.0
  {
    Burst(key, at, lim.capacity.Floor) + if lim.refillPerSecond > 0.0 then [Call(key, at + TopUp(lim))] else []
  }

  function Drained(lim: Limits): nat
    requires lim.capacity >= 1.0
  {
    lim.capacity.Floor + if lim.refillPerSecond > 0.0 then 1 else 0
  }

  function Remainder(lim: Limits): real {
    if lim.refillPerSecond > 0.0 then 0.0 else lim.capacity - lim.capacity.Floor as real
  }

  lemma TopUpGains(lim: Limits)
    requires Sane(lim) && lim.refillPerSecond > 0.0
    ensures TopUp(lim) > 0.0 && Gain(lim, TopUp(lim)) == 1.0 - (lim.capacity - lim.capacity.Floor as real)
  {
    var need, rate := 1.0 - (lim.capacity - lim.capacity.Floor as real), lim.refillPerSecond;
    assert need > 0.0;
    Quotient(1000.0 * need, rate);
    assert TopUp(lim) / 1000.0 * rate == TopUp(lim) * rate / 1000.0;
  }

  lemma Quotient(x: real, rate: real)
    requires rate > 0.0 && x > 0.0
    ensures x / rate > 0.0 && x / rate * rate == x
  {
  }

  lemma TopUpPasses(lim: Limits, from: Buckets, key: Key, at: real)
    requires Sane(lim) && lim.capacity >= 1.0 && lim.refillPerSecond > 0.0
    requires key !in from && |from| < PRUNE_THRESHOLD
    ensures Plays(lim, AfterBurst(lim, from, key, at, lim.capacity.Floor), [Call(key, at + TopUp(lim))], key) ==
            (from[key := Bucket(0.0, at + TopUp(lim))], 1)
  {
    var b, later := AfterBurst(lim, from, key, at, lim.capacity.Floor), at + TopUp(lim);
    TopUpGains(lim);
    assert later - at == TopUp(lim);
    KnownLevel(lim, b, key, at, later, 1.0 - (lim.capacity - lim.capacity.Floor as real));
    assert b.Keys + {key} == from.Keys + {key};
    TakeOfLevel(lim, b, key, later, 1.0);
    PlaysOne(lim, b, Call(key, later), key);
    assert b[key := Bucket(0.0, later)] == from[key := Bucket(0.0, later)];
  }

  lemma BurstThenTopUp(lim: Limits, from: Buckets, key: Key, at: real)
    requires Sane(lim) && lim.capacity >= 1.0 && lim.refillPerSecond > 0.0
    requires key !in from && |from| < PRUNE_THRESHOLD
    ensures Plays(lim, from, Burst(key, at, lim.capacity.Floor) + [Call(key, at + TopUp(lim))], key) ==
            (from[key := Bucket(0.0, at + TopUp(lim))], lim.capacity.Floor + 1)
  {
    var n := lim.capacity.Floor;
    BurstPasses(lim, from, key, at, n);
    TopUpPasses(lim, from, key, at);
    PlaysBoth(lim, key, from, Burst(key, at, n), AfterBurst(lim, from, key, at, n), n,
              [Call(key, at + TopUp(lim))], from[key := Bucket(0.0, at + TopUp(lim))], 1);
  }

  lemma DrainPasses(lim: Limits, from: Buckets, key: Key, at: real)
    requires Sane(lim) && lim.capacity >= 1.0 && key !in from && |from| < PRUNE_THRESHOLD
    ensures Plays(lim, from, Drain(lim, key, at), key) ==
            (from[key := Bucket(Remainder(lim), at + TopUp(lim))], Drained(lim))
  {
    if lim.refillPerSecond > 0.0 {
      BurstThenTopUp(lim, from, key, at);
    } else {
      BurstPasses(lim, from, key, at, lim.capacity.Floor);
      assert Drain(lim, key, at) == Burst(key, at, lim.capacity.Floor) && at + TopUp(lim) == at;
    }
  }

  lemma DrainTakesTime(lim: Limits, key: Key, at: real)
    requires Sane(lim) && lim.capacity >= 1.0
    ensures TopUp(lim) >= 0.0 && Within(Drain(lim, key, at), at, at + TopUp(lim))
    ensures var calls := Drain(lim, key, at);
            calls != [] && calls[0].at == at && calls[|calls| - 1].at == at + TopUp(lim)
  {
    if lim.refillPerSecond > 0.0 { TopUpGains(lim); }
  }

  function Name(i: nat): (name: Key)
    ensures |name| == i + 1
  {
    seq(i + 1, _ => 'x')
  }

  function Crowd(at: real, n: nat): (calls: seq<Call>)
    ensures |calls| == n && forall i :: 0 <= i < n ==> calls[i] == Call(Name(i), at)
  {
    seq(n, i requires 0 <= i => Call(Name(i), at))
  }

  /** Everybody was seen at this very moment. */
  predicate AllSeenAt(buckets: Buckets, at: real) {
    forall k :: k in buckets ==> buckets[k].updatedAt == at
  }

  lemma SeenNowStays(buckets: Buckets, at: real)
    requires AllSeenAt(buckets, at)
    ensures Pruned(buckets, at) == buckets
  {
  }

  /** Only the empty key and the first `n` names, all seen at this moment. */
  ghost predicate Gathered(buckets: Buckets, at: real, n: nat) {
    |buckets| == n + 1 && AllSeenAt(buckets, at) && "" in buckets && forall k :: k in buckets ==> |k| <= n
  }

  lemma CrowdStep(lim: Limits, before: Buckets, at: real, n: nat) returns (to: Buckets)
    requires lim.capacity >= 1.0 && 0 < n && Gathered(before, at, n - 1)
    ensures Gathered(to, at, n) && Plays(lim, before, [Call(Name(n - 1), at)], "") == (to, 0)
  {
    var name := Name(n - 1);
    FreshLevel(lim, before, name, at);
    to := before[name := Bucket(lim.capacity - 1.0, at)];
    assert to.Keys == before.Keys + {name};
    SeenNowStays(to, at);
    PlaysOne(lim, before, Call(name, at), "");
  }

  /** A crowd of new callers joins the empty key, and nobody is pruned. */
  lemma {:induction false} CrowdGathers(lim: Limits, from: Buckets, at: real, n: nat) returns (to: Buckets)
    requires lim.capacity >= 1.0 && Gathered(from, at, 0)
    ensures Plays(lim, from, Crowd(at, n), "") == (to, 0) && Gathered(to, at, n)
  {
    if n == 0 {
      to := from;
    } else {
      var before := CrowdGathers(lim, from, at, n - 1);
      to := CrowdStep(lim, before, at, n);
      CrowdGrows(at, n);
      OneMoreJoins(lim, from, Crowd(at, n - 1), before, Call(Name(n - 1), at), to);
    }
  }

  lemma CrowdGrows(at: real, n: nat)
    requires 0 < n
    ensures Crowd(at, n) == Crowd(at, n - 1) + [Call(Name(n - 1), at)]
  {
  }

  lemma OneMoreJoins(lim: Limits, from: Buckets, calls: seq<Call>, before: Buckets, c: Call, to: Buckets)
    requires Plays(lim, from, calls, "") == (before, 0) && Plays(lim, before, [c], "") == (to, 0)
    ensures Plays(lim, from, calls + [c], "") == (to, 0)
  {
    PlaysBoth(lim, "", from, calls, before, 0, [c], to, 0);
  }

  /** More than ten minutes later the next newcomer evicts them all. */
  lemma NewcomerEvicts(lim: Limits, from: Buckets, other: Key, at: real, later: real)
    requires lim.capacity >= 1.0 && |from| >= PRUNE_THRESHOLD && AllSeenAt(from, at) && other !in from && other != ""
    requires later > at + PRUNE_AFTER_MS
    ensures Plays(lim, from, [Call(other, later)], "") == (map[other := Bucket(lim.capacity - 1.0, later)], 0)
  {
    FreshLevel(lim, from, other, later);
    var spent := from[other := Bucket(lim.capacity - 1.0, later)];
    assert spent.Keys == from.Keys + {other};
    assert Pruned(spent, later) == map[other := Bucket(lim.capacity - 1.0, later)];
    PlaysOne(lim, from, Call(other, later), "");
  }

  /** A crowd, and long after it one newcomer. */
  function Oblivion(at: real, later: real): seq<Call> {
    Crowd(at, PRUNE_THRESHOLD) + [Call(Name(PRUNE_THRESHOLD), later)]
  }

  lemma CrowdThenNewcomer(lim: Limits, from: Buckets, at: real, later: real)
    requires lim.capacity >= 1.0 && Gathered(from, at, 0) && later > at + PRUNE_AFTER_MS
    ensures Plays(lim, from, Oblivion(at, later), "") ==
            (map[Name(PRUNE_THRESHOLD) := Bucket(lim.capacity - 1.0, later)], 0)
  {
    var crowd := CrowdGathers(lim, from, at, PRUNE_THRESHOLD);
    var other := Name(PRUNE_THRESHOLD);
    NewcomerEvicts(lim, crowd, other, at, later);
    OutcomeOfBoth(Takes(lim), Pays(lim, ""), from, Crowd(at, PRUNE_THRESHOLD), crowd, 0, [Call(other, later)],
                  map[other := Bucket(lim.capacity - 1.0, later)], 0);
  }

  /** Drain the key, let a crowd in, wait until a newcomer evicts them all, and drain the key again. */
  function TwoDrains(lim: Limits, u: real): seq<Call>
    requires lim.capacity >= 1.0
  {
    Drain(lim, "", 0.0) + Oblivion(TopUp(lim), u) + Drain(lim, "", u)
  }

  lemma FirstDrainAlone(lim: Limits, b: Bucket)
    requires Sane(lim) && lim.capacity >= 1.0 && b == Bucket(Remainder(lim), TopUp(lim))
    ensures Plays(lim, map[], Drain(lim, "", 0.0), "") == (map["" := b], Drained(lim))
    ensures Gathered(map["" := b], TopUp(lim), 0)
  {
    var empty: Buckets := map[];
    DrainPasses(lim, empty, "", 0.0);
    assert empty["" := Bucket(Remainder(lim), 0.0 + TopUp(lim))] == map["" := b];
  }

  lemma TwoDrainsPass(lim: Limits, u: real)
    requires Sane(lim) && lim.capacity >= 1.0 && u > TopUp(lim) + PRUNE_AFTER_MS
    ensures Plays(lim, map[], TwoDrains(lim, u), "").1 == 2 * Drained(lim)
  {
    var b, other := Bucket(Remainder(lim), TopUp(lim)), Bucket(lim.capacity - 1.0, u);
    FirstDrainAlone(lim, b);
    CrowdThenNewcomer(lim, map["" := b], TopUp(lim), u);
    var one := map[Name(PRUNE_THRESHOLD) := other];
    DrainPasses(lim, one, "", u);
    OutcomeOfThree(Takes(lim), Pays(lim, ""), map[], Drain(lim, "", 0.0), map["" := b], Drained(lim),
                   Oblivion(TopUp(lim), u), one, Drain(lim, "", u),
                   one["" := Bucket(Remainder(lim), u + TopUp(lim))], Drained(lim));
  }

  lemma TwoDrainsTakeTime(lim: Limits, u: real)
    requires Sane(lim) && lim.capacity >= 1.0 && u > TopUp(lim) + PRUNE_AFTER_MS
    ensures var calls := TwoDrains(lim, u);
            calls != [] && Monotone(calls) && calls[0].at == 0.0 && calls[|calls| - 1].at == u + TopUp(lim)
  {
    var t, first, last := TopUp(lim), Drain(lim, "", 0.0), Drain(lim, "", u);
    DrainTakesTime(lim, "", 0.0);
    DrainTakesTime(lim, "", u);
    WithinBoth(Crowd(t, PRUNE_THRESHOLD), [Call(Name(PRUNE_THRESHOLD), u)], t, t, u);
    WithinBoth(first, Oblivion(t, u), 0.0, t, u);
    WithinBoth(first + Oblivion(t, u), last, 0.0, u, u + t);
    assert TwoDrains(lim, u)[0] == first[0] && TwoDrains(lim, u)[|TwoDrains(lim, u)| - 1] == last[|last| - 1];
  }

  predicate WithinBound(lim: Limits, calls: seq<Call>, key: Key, i: nat, n: nat)
    requires i < n <= |calls|
  {
    Allowed(lim, map[], calls, key, i, n) as real <= lim.capacity + Gain(lim, calls[n - 1].at - calls[i].at)
  }

  lemma {:induction false} NothingFitsBelowOne(lim: Limits, start: Buckets, calls: seq<Call>, key: Key, i: nat, n: nat)
    requires lim.capacity < 1.0 && i <= n <= |calls|
    ensures Allowed(lim, start, calls, key, i, n) == 0
    decreases n - i
  {
    if i < n { NothingFitsBelowOne(lim, start, calls, key, i, n - 1); }
  }

  /** Twice the drained tokens are more than the window pays for. */
  lemma TwiceIsTooMuch(lim: Limits, extra: real)
    requires Sane(lim) && lim.capacity >= 1.0 && !RefillCoversCapacity(lim)
    requires extra > 0.0 && Gain(lim, extra) < lim.capacity - 600.0 * lim.refillPerSecond
    ensures var t := TopUp(lim);
            (2 * Drained(lim)) as real > lim.capacity + Gain(lim, t + PRUNE_AFTER_MS + extra + t)
  {
    var t := TopUp(lim);
    if lim.refillPerSecond > 0.0 { TopUpGains(lim); }
    GainFacts(lim, t, PRUNE_AFTER_MS);
    GainFacts(lim, t + PRUNE_AFTER_MS, extra);
    GainFacts(lim, t + PRUNE_AFTER_MS + extra, t);
    assert Gain(lim, PRUNE_AFTER_MS) == 600.0 * lim.refillPerSecond;
  }

  lemma TooMany(lim: Limits, calls: seq<Call>, count: nat, span: real)
    requires calls != [] && calls[|calls| - 1].at - calls[0].at == span
    requires Allowed(lim, map[], calls, "", 0, |calls|) == count && count as real > lim.capacity + Gain(lim, span)
    ensures !WithinBound(lim, calls, "", 0, |calls|)
  {
  }

  lemma TwoDrainsAllowed(lim: Limits, u: real) returns (calls: seq<Call>)
    requires Sane(lim) && lim.capacity >= 1.0 && u > TopUp(lim) + PRUNE_AFTER_MS
    ensures calls != [] && Monotone(calls) && calls[0].at == 0.0 && calls[|calls| - 1].at == u + TopUp(lim)
    ensures Allowed(lim, map[], calls, "", 0, |calls|) == 2 * Drained(lim)
  {
    calls := TwoDrains(lim, u);
    TwoDrainsPass(lim, u);
    TwoDrainsTakeTime(lim, u);
    PlaysAllowed(lim, calls, "");
  }

  /** Without covered refill two drains around one eviction break the bound. */
  lemma BoundIsBroken(lim: Limits) returns (calls: seq<Call>)
    requires Sane(lim) && lim.capacity >= 1.0 && !RefillCoversCapacity(lim)
    ensures calls != [] && Monotone(calls) && !WithinBound(lim, calls, "", 0, |calls|)
  {
    var short := lim.capacity - 600.0 * lim.refillPerSecond;
    var extra := if lim.refillPerSecond == 0.0 then 1.0 else 500.0 * short / lim.refillPerSecond;
    ExtraIsSmall(lim, short, extra);
    var u := TopUp(lim) + PRUNE_AFTER_MS + extra;
    calls := TwoDrainsAllowed(lim, u);
    TwiceIsTooMuch(lim, extra);
    TooMany(lim, calls, 2 * Drained(lim), u + TopUp(lim));
  }

  lemma PlaysAllowed(lim: Limits, calls: seq<Call>, key: Key)
    ensures Plays(lim, map[], calls, key).1 == Allowed(lim, map[], calls, key, 0, |calls|)
  {
    AllowedIsCounted(lim, map[], calls, key, |calls|);
    assert calls[..|calls|] == calls;
  }

  /**
    * The window bound holds for every key, every window and every run of calls from a new limiter
    * exactly when ten minutes of refill cover the capacity, or when no call is ever allowed.
    */
  lemma BoundHoldsExactlyWhen(lim: Limits)
    requires Sane(lim)
    ensures RefillCoversCapacity(lim) || lim.capacity < 1.0 <==>
              forall calls: seq<Call>, key, i: nat, n: nat ::
                Monotone(calls) && i < n <= |calls| ==> WithinBound(lim, calls, key, i, n)
  {
    if RefillCoversCapacity(lim) || lim.capacity < 1.0 {
      forall calls: seq<Call>, key, i: nat, n: nat | Monotone(calls) && i < n <= |calls|
        ensures WithinBound(lim, calls, key, i, n)
      {
        if lim.capacity < 1.0 {
          NothingFitsBelowOne(lim, map[], calls, key, i, n);
          GainFacts(lim, calls[n - 1].at - calls[i].at, 0.0);
        } else {
          CoveredRefillEvictsOnlyFull(lim, map[], calls, key, i, n);
          WindowBound(lim, map[], calls, key, i, n);
        }
      }
    } else {
      var calls := BoundIsBroken(lim);
      assert !WithinBound(lim, calls, "", 0, |calls|);
    }
  }

  // ----- Retry advice -----

  /** An allowed caller is told how many more calls at this instant would pass. */
  lemma RemainingIsWhatIsLeft(lim: Limits, buckets: Buckets, key: Key, now: real)
    requires Sane(lim) && Bounded(lim, buckets, now) && Answer(lim, buckets, Call(key, now)).allowed
    ensures var left := Level(lim, AfterTake(lim, buckets, key, now), key, now);
            Answer(lim, buckets, Call(key, now)).remaining == left.Floor >= 0
    ensures Answer(lim, buckets, Call(key, now)).retryAfterSeconds == 0
  {
    LevelGains(lim, buckets, key, now, now);
    assert Gain(lim, now - now) == 0.0;
  }

  lemma CeilingFacts(x: real)
    ensures x <= Ceiling(x) as real < x + 1.0
  {
  }

  /**
    * A refused caller that waits the advised seconds is let through, and waiting a whole second less
    * would not have been enough, unless the advice is the minimum of one second.
    */
  lemma AdviceIsEnoughAndNeeded(lim: Limits, level: real)
    requires lim.refillPerSecond > 0.0 && 0.0 <= level < 1.0
    ensures var r := DecisionFor(lim, level).retryAfterSeconds;
            && r >= 1 && level + Gain(lim, r as real * 1000.0) >= 1.0
            && (r > 1 ==> level + Gain(lim, (r - 1) as real * 1000.0) < 1.0)
            && DecisionFor(lim, level + Gain(lim, r as real * 1000.0)).allowed
            && (r > 1 ==> !DecisionFor(lim, level + Gain(lim, (r - 1) as real * 1000.0)).allowed)
            && DecisionFor(lim, level).remaining == 0
  {
    var rate := lim.refillPerSecond;
    var need := (1.0 - level) / rate;
    var r := DecisionFor(lim, level).retryAfterSeconds;
    CeilingFacts(need);
    assert need > 0.0 && need * rate == 1.0 - level;
    Enough(lim, level, need, r as real);
    if r > 1 { NotEnough(lim, level, need, (r - 1) as real); }
  }

  lemma Enough(lim: Limits, level: real, need: real, seconds: real)
    requires lim.refillPerSecond > 0.0 && need * lim.refillPerSecond == 1.0 - level && need <= seconds
    ensures level + Gain(lim, seconds * 1000.0) >= 1.0
  {
    TimesRate(need, seconds, lim.refillPerSecond);
    assert seconds * 1000.0 / 1000.0 == seconds;
  }

  lemma NotEnough(lim: Limits, level: real, need: real, seconds: real)
    requires lim.refillPerSecond > 0.0 && need * lim.refillPerSecond == 1.0 - level && seconds < need
    ensures level + Gain(lim, seconds * 1000.0) < 1.0
  {
    TimesRateStrict(seconds, need, lim.refillPerSecond);
    assert seconds * 1000.0 / 1000.0 == seconds;
  }

  lemma TimesRate(x: real, y: real, rate: real)
    requires x <= y && rate > 0.0
    ensures x * rate <= y * rate
  {
  }

  lemma TimesRateStrict(x: real, y: real, rate: real)
    requires x < y && rate > 0.0
    ensures x * rate < y * rate
  {
  }

  /** With no refill the sixty seconds advised never help: a refused key stays refused. */
  lemma NoRefillNoRetry(lim: Limits, buckets: Buckets, key: Key, now: real, later: real)
    requires lim.refillPerSecond == 0.0 && key in buckets && !Answer(lim, buckets, Call(key, now)).allowed
    ensures Answer(lim, buckets, Call(key, now)).retryAfterSeconds == 60
    ensures !Answer(lim, AfterTake(lim, buckets, key, now), Call(key, later)).allowed
  {
    var b := Bucket(Level(lim, buckets, key, now), now);
    assert Gain(lim, later - now) == 0.0;
    assert Ceiling(60.0) == 60;
  }

  /** Calls on other keys leave a key's bucket alone or evict it. */
  lemma {:induction false} OthersKeepOrEvict(lim: Limits, start: Buckets, calls: seq<Call>, key: Key, n: nat)
    requires n <= |calls| && key in start && forall i :: 0 <= i < n ==> calls[i].key != key
    ensures key in After(lim, start, calls, n) ==> After(lim, start, calls, n)[key] == start[key]
  {
    if n > 0 { OthersKeepOrEvict(lim, start, calls, key, n - 1); }
  }

  /**
    * A refused key's next call is allowed after the advised wait, for any positive refill and a
    * capacity of at least one, whatever calls on other keys came in between.
    */
  lemma WaitingHelps(lim: Limits, buckets: Buckets, key: Key, now: real, others: seq<Call>, later: real)
    requires lim.capacity >= 1.0 && lim.refillPerSecond > 0.0 && Bounded(lim, buckets, now)
    requires !Answer(lim, buckets, Call(key, now)).allowed
    requires forall i :: 0 <= i < |others| ==> others[i].key != key
    requires later >= now + Answer(lim, buckets, Call(key, now)).retryAfterSeconds as real * 1000.0
    ensures var refused := AfterTake(lim, buckets, key, now);
            Answer(lim, After(lim, refused, others, |others|), Call(key, later)).allowed
  {
    var level := Level(lim, buckets, key, now);
    var refused := AfterTake(lim, buckets, key, now);
    LevelGains(lim, buckets, key, now, now);
    assert refused[key] == Bucket(level, now);
    OthersKeepOrEvict(lim, refused, others, key, |others|);
    WaitRefills(lim, level, now, later);
    assert Gain(lim, later - later) == 0.0;
  }

  lemma WaitRefills(lim: Limits, level: real, now: real, later: real)
    requires lim.capacity >= 1.0 && lim.refillPerSecond > 0.0 && 0.0 <= level < 1.0
    requires later >= now + DecisionFor(lim, level).retryAfterSeconds as real * 1000.0
    ensures Refilled(lim, Bucket(level, now), later) >= 1.0
  {
    AdviceIsEnoughAndNeeded(lim, level);
    var wait := DecisionFor(lim, level).retryAfterSeconds as real * 1000.0;
    GainFacts(lim, later - now - wait, wait);
    assert later - now == (later - now - wait) + wait;
  }
}
