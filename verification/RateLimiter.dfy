/** The per-key token bucket limiter, over real time. */
module RateLimiter {

  datatype Config = Config(ratePerSecond: real, burstSize: real, enabled: bool)

  datatype Bucket = Bucket(tokens: real, lastRefill: real)

  type Buckets = map<string, Bucket>

  ghost predicate ConfigOk(cfg: Config) {
    cfg.ratePerSecond >= 0.0 && cfg.burstSize >= 0.0
  }

  function Min(a: real, b: real): real {
    if a <= b then a else b
  }

  /** The steady clock's epoch, which marks a bucket as never used. */
  const EPOCH := 0.0

  /** Tokens added in `dt` seconds. */
  function Gain(cfg: Config, dt: real): real {
    dt * cfg.ratePerSecond
  }

  lemma GainLaws(cfg: Config, a: real, b: real)
    ensures Gain(cfg, a) + Gain(cfg, b) == Gain(cfg, a + b) && Gain(cfg, 0.0) == 0.0
    ensures cfg.ratePerSecond >= 0.0 && a >= 0.0 ==> Gain(cfg, a) >= 0.0
  {
  }

  /** What a used bucket holds at time `now`. */
  function Level(cfg: Config, b: Bucket, now: real): real {
    Min(b.tokens + Gain(cfg, now - b.lastRefill), cfg.burstSize)
  }

  /** The tokens a key can spend at time `now`. */
  function Available(cfg: Config, m: Buckets, key: string, now: real): real {
    if key in m && m[key].lastRefill != EPOCH then Level(cfg, m[key], now) else cfg.burstSize
  }

  /** The limiter's buckets after a request for `key`. */
  function Acquired(cfg: Config, m: Buckets, key: string, now: real): Buckets {
    var t := Available(cfg, m, key, now);
    m[key := Bucket(if t >= 1.0 then t - 1.0 else t, now)]
  }

  /** Buckets as a run leaves them at time `now`. */
  ghost predicate BucketsOk(cfg: Config, m: Buckets, now: real) {
    now > EPOCH && forall k :: k in m ==> 0.0 <= m[k].tokens <= cfg.burstSize && EPOCH < m[k].lastRefill <= now
  }

  class RateLimiter {
    const cfg: Config
    var buckets: Buckets

    constructor (cfg: Config)
      ensures this.cfg == cfg && buckets == map[]
    {
      this.cfg := cfg;
      buckets := map[];
    }

    /** refill: brings a bucket up to date without changing what it holds now or at any later time;
        no token is lost, and none beyond the burst is gained. */
    method Refill(b: Bucket, now: real) returns (b': Bucket)
      ensures b'.lastRefill == now && b'.tokens == Level(cfg, b, now)
      ensures
        var refilled := b.tokens + (now - b.lastRefill) * cfg.ratePerSecond;
        b'.tokens == if refilled <= cfg.burstSize then refilled else cfg.burstSize
      ensures ConfigOk(cfg) ==> forall t :: t >= now ==> Level(cfg, b', t) == Level(cfg, b, t)
      ensures ConfigOk(cfg) && b.lastRefill <= now && b.tokens <= cfg.burstSize ==>
        b.tokens <= b'.tokens <= cfg.burstSize
    {
      var elapsed := now - b.lastRefill;
      var t := b.tokens + elapsed * cfg.ratePerSecond;
      assert t == b.tokens + Gain(cfg, elapsed);
      hide Gain;
      b' := b.(tokens := if t <= cfg.burstSize then t else cfg.burstSize, lastRefill := now);
      RefillInvisible(cfg, b, b', now);
    }

    /** try_acquire at clock reading `now`. */
    method TryAcquire(key: string, now: real) returns (granted: bool)
      modifies this
      ensures !cfg.enabled ==> granted && buckets == old(buckets)
      ensures cfg.enabled ==>
        (granted <==> Available(cfg, old(buckets), key, now) >= 1.0) && buckets == Acquired(cfg, old(buckets), key, now)
      ensures cfg.enabled ==>
        var level :=
          if key in old(buckets) && old(buckets)[key].lastRefill != 0.0 then
            var b := old(buckets)[key];
            var refilled := b.tokens + (now - b.lastRefill) * cfg.ratePerSecond;
            if refilled <= cfg.burstSize then refilled else cfg.burstSize
          else cfg.burstSize;
        && (granted <==> level >= 1.0)
        && buckets == old(buckets)[key := Bucket(if granted then level - 1.0 else level, now)]
      ensures cfg.enabled && ConfigOk(cfg) && now > EPOCH && BucketsOk(cfg, old(buckets), now) ==>
        BucketsOk(cfg, buckets, now)
    {
      if !cfg.enabled {
        return true;
      }
      var b := if key in buckets then buckets[key] else Bucket(0.0, EPOCH);
      if b.lastRefill == EPOCH {
        b := Bucket(cfg.burstSize, now);
      } else {
        b := Refill(b, now);
      }
      if b.tokens >= 1.0 {
        b := b.(tokens := b.tokens - 1.0);
        granted := true;
      } else {
        granted := false;
      }
      AcquiredOk(cfg, buckets, key, now);
      hide Gain, BucketsOk;
      buckets := buckets[key := b];
    }

    /** reset: the key is offered the full burst again, every other key what it was offered before. */
    method Reset(key: string)
      modifies this
      ensures forall now :: Available(cfg, buckets, key, now) == cfg.burstSize
      ensures forall k, now :: k != key ==> Available(cfg, buckets, k, now) == Available(cfg, old(buckets), k, now)
      ensures forall now :: BucketsOk(cfg, old(buckets), now) ==> BucketsOk(cfg, buckets, now)
    {
      buckets := buckets - {key};
    }

    /** evict_stale at clock reading `now`. */
    method EvictStale(maxAge: real, now: real)
      modifies this
      ensures buckets == Fresh(old(buckets), now - maxAge)
      ensures forall k :: k in buckets <==> k in old(buckets) && now - old(buckets)[k].lastRefill <= maxAge
    {
      var cutoff := now - maxAge;
      var rest := buckets.Keys;
      while rest != {}
        invariant rest <= buckets.Keys
        invariant forall k :: k in buckets <==> k in old(buckets) && (k in rest || old(buckets)[k].lastRefill >= cutoff)
        invariant forall k :: k in buckets ==> buckets[k] == old(buckets)[k]
        decreases rest
      {
        var k :| k in rest;
        rest := rest - {k};
        if buckets[k].lastRefill < cutoff {
          buckets := buckets - {k};
        }
      }
    }
  }

  lemma RefillInvisible(cfg: Config, b: Bucket, b': Bucket, now: real)
    requires b' == Bucket(Level(cfg, b, now), now)
    ensures ConfigOk(cfg) ==> forall t :: t >= now ==> Level(cfg, b', t) == Level(cfg, b, t)
    ensures ConfigOk(cfg) && b.lastRefill <= now && b.tokens <= cfg.burstSize ==> b.tokens <= b'.tokens <= cfg.burstSize
  {
    hide Gain;
    if ConfigOk(cfg) {
      forall t | t >= now ensures Level(cfg, b', t) == Level(cfg, b, t) {
        GainLaws(cfg, now - b.lastRefill, t - now);
        GainLaws(cfg, t - now, 0.0);
        assert now - b.lastRefill + (t - now) == t - b.lastRefill;
      }
      GainLaws(cfg, now - b.lastRefill, 0.0);
    }
  }

  /** The buckets used at `cutoff` or later. */
  function Fresh(m: Buckets, cutoff: real): Buckets {
    map k | k in m && m[k].lastRefill >= cutoff :: m[k]
  }

  lemma AcquiredOk(cfg: Config, m: Buckets, key: string, now: real)
    ensures ConfigOk(cfg) && BucketsOk(cfg, m, now) ==>
      0.0 <= Available(cfg, m, key, now) <= cfg.burstSize && BucketsOk(cfg, Acquired(cfg, m, key, now), now)
  {
    hide Gain;
    if ConfigOk(cfg) && BucketsOk(cfg, m, now) && key in m {
      GainLaws(cfg, now - m[key].lastRefill, 0.0);
    }
  }

  /** Time can only add tokens. */
  lemma Scale(rate: real, a: real, b: real)
    requires rate >= 0.0 && a <= b
    ensures a * rate <= b * rate
  {
  }

  // ---- whole runs ----

  datatype Call = Call(key: string, now: real)

  /** A run's clock readings never go back and start at `from` or later. */
  ghost predicate Monotone(calls: seq<Call>, from: real) {
    forall i :: 0 <= i < |calls| ==> calls[i].now >= from && (i > 0 ==> calls[i - 1].now <= calls[i].now)
  }

  /** How many of a run's calls for `key` are granted. */
  function Grants(cfg: Config, m: Buckets, calls: seq<Call>, key: string): nat
    decreases |calls|
  {
    if calls == [] then 0
    else
      var c := calls[0];
      (if c.key == key && Available(cfg, m, c.key, c.now) >= 1.0 then 1 else 0)
      + Grants(cfg, Acquired(cfg, m, c.key, c.now), calls[1..], key)
  }

  /** Between two readings a key gains at most rate * elapsed, and the bucket's level at the
      earlier one decides its level at the later one. */
  lemma AvailableLater(cfg: Config, m: Buckets, key: string, t: real, t': real)
    requires ConfigOk(cfg) && BucketsOk(cfg, m, t) && t <= t'
    ensures Available(cfg, m, key, t') == Min(Available(cfg, m, key, t) + Gain(cfg, t' - t), cfg.burstSize)
  {
    hide Gain;
    GainLaws(cfg, t' - t, 0.0);
    if key in m {
      GainLaws(cfg, t - m[key].lastRefill, t' - t);
    }
  }

  lemma AvailableAfter(cfg: Config, m: Buckets, c: Call, key: string)
    requires ConfigOk(cfg) && BucketsOk(cfg, m, c.now)
    ensures Available(cfg, Acquired(cfg, m, c.key, c.now), key, c.now) ==
      Available(cfg, m, key, c.now) - if c.key == key && Available(cfg, m, key, c.now) >= 1.0 then 1.0 else 0.0
    ensures BucketsOk(cfg, Acquired(cfg, m, c.key, c.now), c.now)
  {
    AcquiredOk(cfg, m, c.key, c.now);
    AcquiredOk(cfg, m, key, c.now);
    GainLaws(cfg, 0.0, 0.0);
    hide Gain;
  }

  lemma BucketsOkLater(cfg: Config, m: Buckets, t: real, t': real)
    requires BucketsOk(cfg, m, t) && t <= t'
    ensures BucketsOk(cfg, m, t')
  {
  }

  /** The grants to a key are paid for by what it had and what time has added. */
  lemma {:induction false} GrantsArePaid(cfg: Config, m: Buckets, calls: seq<Call>, key: string, t1: real, t2: real)
    requires ConfigOk(cfg) && BucketsOk(cfg, m, t1) && Monotone(calls, t1) && t1 <= t2
    requires forall i :: 0 <= i < |calls| ==> calls[i].now <= t2
    ensures Grants(cfg, m, calls, key) as real <= Available(cfg, m, key, t1) + Gain(cfg, t2 - t1)
    decreases |calls|
  {
    hide Gain;
    if calls == [] {
      AcquiredOk(cfg, m, key, t1);
      GainLaws(cfg, t2 - t1, 0.0);
    } else {
      var c := calls[0];
      BucketsOkLater(cfg, m, t1, c.now);
      AvailableLater(cfg, m, key, t1, c.now);
      AvailableAfter(cfg, m, c, key);
      var m' := Acquired(cfg, m, c.key, c.now);
      assert Monotone(calls[1..], c.now) by {
        MonotoneFrom(calls, t1);
      }
      GrantsArePaid(cfg, m', calls[1..], key, c.now, t2);
      GainLaws(cfg, t2 - c.now, c.now - t1);
      hide Available, Acquired, BucketsOk;
    }
  }

  lemma {:induction false} MonotoneFrom(calls: seq<Call>, from: real)
    requires Monotone(calls, from) && calls != []
    ensures Monotone(calls[1..], calls[0].now)
  {
    LaterCalls(calls, from, |calls| - 1);
    forall i | 0 <= i < |calls| - 1 ensures calls[1..][i].now >= calls[0].now {
      LaterCalls(calls, from, i + 1);
    }
  }

  lemma {:induction false} LaterCalls(calls: seq<Call>, from: real, i: nat)
    requires Monotone(calls, from) && i < |calls|
    ensures calls[i].now >= calls[0].now
  {
    if i > 0 {
      LaterCalls(calls, from, i - 1);
    }
  }

  /** The limit: in any window of any run a key is granted at most burst + rate * length. */
  lemma WindowBound(cfg: Config, m: Buckets, calls: seq<Call>, key: string, t1: real, t2: real)
    requires ConfigOk(cfg) && BucketsOk(cfg, m, t1) && Monotone(calls, t1) && t1 <= t2
    requires forall i :: 0 <= i < |calls| ==> calls[i].now <= t2
    ensures Grants(cfg, m, calls, key) as real <= cfg.burstSize + cfg.ratePerSecond * (t2 - t1)
  {
    hide BucketsOk, Monotone, Grants, Acquired, Available;
    GrantsArePaid(cfg, m, calls, key, t1, t2);
    AcquiredOk(cfg, m, key, t1);
  }

  /** `n` calls for one key at one instant. */
  function Volley(key: string, now: real, n: nat): seq<Call> {
    seq(n, i => Call(key, now))
  }

  /** The bound is reached: a volley against a key with `k` or more tokens gets `k` grants. */
  lemma {:induction false} VolleyGranted(cfg: Config, m: Buckets, key: string, now: real, k: nat, rest: seq<Call>)
    requires ConfigOk(cfg) && BucketsOk(cfg, m, now) && Available(cfg, m, key, now) >= k as real
    ensures exists m' ::
      && BucketsOk(cfg, m', now) && Available(cfg, m', key, now) == Available(cfg, m, key, now) - k as real
      && Grants(cfg, m, Volley(key, now, k) + rest, key) == k + Grants(cfg, m', rest, key)
    decreases k
  {
    hide Level, BucketsOk;
    if k == 0 {
      assert Volley(key, now, 0) + rest == rest;
    } else {
      var c := Call(key, now);
      AvailableAfter(cfg, m, c, key);
      VolleyGranted(cfg, Acquired(cfg, m, key, now), key, now, k - 1, rest);
      assert (Volley(key, now, k) + rest)[1..] == Volley(key, now, k - 1) + rest;
    }
  }

  // ---- eviction ----

  /** Two limiters that offer every key the same tokens make the same decisions for ever. */
  lemma {:induction false} SameTokensSameGrants(cfg: Config, m1: Buckets, m2: Buckets, calls: seq<Call>, key: string,
                                                t: real)
    requires ConfigOk(cfg) && BucketsOk(cfg, m1, t) && BucketsOk(cfg, m2, t) && Monotone(calls, t)
    requires forall k :: Available(cfg, m1, k, t) == Available(cfg, m2, k, t)
    ensures Grants(cfg, m1, calls, key) == Grants(cfg, m2, calls, key)
    decreases |calls|
  {
    if calls != [] {
      var c := calls[0];
      BucketsOkLater(cfg, m1, t, c.now);
      BucketsOkLater(cfg, m2, t, c.now);
      forall k ensures Available(cfg, m1, k, c.now) == Available(cfg, m2, k, c.now) {
        AvailableLater(cfg, m1, k, t, c.now);
        AvailableLater(cfg, m2, k, t, c.now);
      }
      var m1', m2' := Acquired(cfg, m1, c.key, c.now), Acquired(cfg, m2, c.key, c.now);
      AvailableAfter(cfg, m1, c, key);
      AvailableAfter(cfg, m2, c, key);
      forall k ensures Available(cfg, m1', k, c.now) == Available(cfg, m2', k, c.now) {
        AvailableAfter(cfg, m1, c, k);
        AvailableAfter(cfg, m2, c, k);
      }
      MonotoneFrom(calls, t);
      SameTokensSameGrants(cfg, m1', m2', calls[1..], key, c.now);
    }
  }

  /** A bucket idle for burst / rate seconds is full, as a new one would be. */
  lemma EvictionKeepsTokens(cfg: Config, m: Buckets, maxAge: real, now: real, k: string)
    requires ConfigOk(cfg) && BucketsOk(cfg, m, now) && cfg.ratePerSecond * maxAge >= cfg.burstSize
    ensures Available(cfg, Fresh(m, now - maxAge), k, now) == Available(cfg, m, k, now)
  {
    if k in m && m[k].lastRefill < now - maxAge {
      Scale(cfg.ratePerSecond, maxAge, now - m[k].lastRefill);
      assert Gain(cfg, now - m[k].lastRefill) >= maxAge * cfg.ratePerSecond == cfg.ratePerSecond * maxAge;
    }
  }

  lemma {:induction false} NeverGranted(cfg: Config, m: Buckets, calls: seq<Call>, key: string)
    requires cfg.burstSize < 1.0
    ensures Grants(cfg, m, calls, key) == 0
    decreases |calls|
  {
    if calls != [] {
      NeverGranted(cfg, Acquired(cfg, m, calls[0].key, calls[0].now), calls[1..], key);
    }
  }

  /** The buckets after a run from the start. */
  function After(cfg: Config, past: seq<Call>): Buckets {
    if past == [] then map[]
    else
      var last := past[|past| - 1];
      Acquired(cfg, After(cfg, past[..|past| - 1]), last.key, last.now)
  }

  /** A run from the start whose clock readings end at `now` or before. */
  ghost predicate History(past: seq<Call>, now: real) {
    && now > EPOCH
    && (forall i :: 0 <= i < |past| ==> EPOCH < past[i].now <= now)
    && (forall i :: 0 < i < |past| ==> past[i - 1].now <= past[i].now)
  }

  lemma {:induction false} AfterOk(cfg: Config, past: seq<Call>, now: real)
    requires ConfigOk(cfg) && History(past, now)
    ensures BucketsOk(cfg, After(cfg, past), now)
  {
    if past != [] {
      var front, last := past[..|past| - 1], past[|past| - 1];
      forall i | 0 <= i < |front| ensures front[i].now <= last.now {
        UpToLast(past, now, i);
      }
      AfterOk(cfg, front, last.now);
      AcquiredOk(cfg, After(cfg, front), last.key, last.now);
      BucketsOkLater(cfg, After(cfg, past), last.now, now);
    }
  }

  lemma {:induction false} UpToLast(past: seq<Call>, now: real, i: nat)
    requires History(past, now) && i < |past|
    ensures past[i].now <= past[|past| - 1].now
    decreases |past| - i
  {
    if i + 1 < |past| {
      UpToLast(past, now, i + 1);
    }
  }

  /** Eviction with `maxAge` is invisible: after no run from the start does it change a later
      decision of any run. */
  ghost predicate EvictionInvisible(cfg: Config, maxAge: real) {
    forall past: seq<Call>, now: real, calls: seq<Call>, key: string ::
      History(past, now) && Monotone(calls, now) ==>
      Grants(cfg, Fresh(After(cfg, past), now - maxAge), calls, key) == Grants(cfg, After(cfg, past), calls, key)
  }

  /** The whole number of tokens in a full bucket. */
  lemma WholeBurst(burst: real) returns (k: nat)
    requires burst >= 0.0
    ensures k as real <= burst < k as real + 1.0
  {
    k := burst.Floor;
  }

  /** An idle time longer than maxAge that still leaves an empty bucket short of full. */
  lemma StaleButNotFull(cfg: Config, maxAge: real) returns (idle: real)
    requires ConfigOk(cfg) && cfg.burstSize > 0.0 && cfg.ratePerSecond * maxAge < cfg.burstSize
    ensures idle >= 0.0 && idle > maxAge && Gain(cfg, idle) < cfg.burstSize
  {
    var rate, burst := cfg.ratePerSecond, cfg.burstSize;
    if maxAge < 0.0 {
      idle := 0.0;
    } else if rate == 0.0 {
      idle := maxAge + 1.0;
    } else {
      Quotient(burst, rate, maxAge);
      Halfway(rate, maxAge, burst / rate);
      idle := (maxAge + burst / rate) / 2.0;
    }
  }

  /** Draining a full bucket to its fraction and waiting for one more token. */
  lemma WaitForOne(cfg: Config, k: nat) returns (wait: real)
    requires ConfigOk(cfg) && cfg.ratePerSecond > 0.0 && k as real <= cfg.burstSize < k as real + 1.0
    ensures wait >= 0.0 && Gain(cfg, wait) == k as real + 1.0 - cfg.burstSize
  {
    wait := (k as real + 1.0 - cfg.burstSize) / cfg.ratePerSecond;
    Quotient(k as real + 1.0 - cfg.burstSize, cfg.ratePerSecond, 0.0);
  }

  /** The grants of the run that tells an evicted bucket from the one that was there. */
  lemma EvictedGets(cfg: Config, m: Buckets, key: string, now: real, k: nat, wait: real)
    requires ConfigOk(cfg) && BucketsOk(cfg, m, now) && Available(cfg, m, key, now) == cfg.burstSize >= 1.0
    requires k as real <= cfg.burstSize < k as real + 1.0
    requires wait >= 0.0 && Gain(cfg, wait) == k as real + 1.0 - cfg.burstSize
    ensures Grants(cfg, m, Volley(key, now, k) + [Call(key, now + wait)], key) == k + 1
  {
    hide Gain;
    var last := [Call(key, now + wait)];
    VolleyGranted(cfg, m, key, now, k, last);
    var m' :| BucketsOk(cfg, m', now) && Available(cfg, m', key, now) == cfg.burstSize - k as real
      && Grants(cfg, m, Volley(key, now, k) + last, key) == k + Grants(cfg, m', last, key);
    AvailableLater(cfg, m', key, now, now + wait);
    assert now + wait - now == wait;
    assert last[1..] == [];
    assert Grants(cfg, m', last, key) == 1;
  }

  /** A run from the start that leaves a key with less than a token, and with none at all when
      tokens come back: a volley, and when they do, one more call as soon as it is granted. */
  lemma Drained(cfg: Config, key: string) returns (past: seq<Call>, now: real)
    requires ConfigOk(cfg) && cfg.burstSize >= 1.0
    ensures past != [] && History(past, now) && key in After(cfg, past) && After(cfg, past)[key].lastRefill == now
    ensures var left := After(cfg, past)[key].tokens; 0.0 <= left < 1.0 && (cfg.ratePerSecond > 0.0 ==> left == 0.0)
    ensures now >= 1.0 && forall i :: 0 <= i < |past| ==> past[i].now >= 1.0
    ensures Grants(cfg, map[], past, key) as real
      >= cfg.burstSize + Gain(cfg, now - 1.0) - After(cfg, past)[key].tokens
  {
    hide Gain, BucketsOk, Grants, After, Available, Level;
    var k := WholeBurst(cfg.burstSize);
    Untouched(cfg, key);
    if cfg.ratePerSecond == 0.0 {
      past, now := Volley(key, 1.0, k), 1.0;
      VolleyDrains(cfg, key, 1.0, k, k);
      EvictedGetsBurst(cfg, map[], key, 1.0, k);
      NoGain(cfg, now - 1.0);
    } else {
      var wait := WaitForOne(cfg, k);
      now := 1.0 + wait;
      past := Volley(key, 1.0, k) + [Call(key, now)];
      OneMore(cfg, key, k, wait);
      EvictedGets(cfg, map[], key, 1.0, k, wait);
      assert now - 1.0 == wait;
    }
  }

  lemma OneMore(cfg: Config, key: string, k: nat, wait: real)
    requires ConfigOk(cfg) && cfg.burstSize >= 1.0 && k as real <= cfg.burstSize < k as real + 1.0
    requires wait >= 0.0 && Gain(cfg, wait) == k as real + 1.0 - cfg.burstSize
    ensures var m := After(cfg, Volley(key, 1.0, k) + [Call(key, 1.0 + wait)]);
      key in m && m[key] == Bucket(0.0, 1.0 + wait)
  {
    hide Gain, Volley;
    VolleyDrains(cfg, key, 1.0, k, k);
    assert (Volley(key, 1.0, k) + [Call(key, 1.0 + wait)])[..|Volley(key, 1.0, k)|] == Volley(key, 1.0, k);
    assert 1.0 + wait - 1.0 == wait;
  }

  lemma Untouched(cfg: Config, key: string)
    ensures BucketsOk(cfg, map[], 1.0) && Available(cfg, map[], key, 1.0) == cfg.burstSize
  {
  }

  /** What `j` calls at one instant leave of a full bucket. */
  lemma {:induction false} VolleyDrains(cfg: Config, key: string, now: real, k: nat, j: nat)
    requires ConfigOk(cfg) && now > EPOCH && k as real <= cfg.burstSize && 1 <= j <= k
    ensures key in After(cfg, Volley(key, now, j))
    ensures After(cfg, Volley(key, now, j))[key] == Bucket(cfg.burstSize - j as real, now)
  {
    var calls := Volley(key, now, j);
    assert calls[..j - 1] == Volley(key, now, j - 1);
    GainLaws(cfg, 0.0, 0.0);
    if j > 1 {
      VolleyDrains(cfg, key, now, k, j - 1);
    }
  }

  /** After that run an idle time decides between an evicted bucket and the one that was there, and
      the evicted one lets the whole run exceed the limit. */
  lemma EvictionShows(cfg: Config, maxAge: real)
    returns (past: seq<Call>, now: real, calls: seq<Call>, key: string, end: real)
    requires ConfigOk(cfg) && cfg.burstSize >= 1.0 && cfg.ratePerSecond * maxAge < cfg.burstSize
    ensures History(past, now) && Monotone(calls, now)
    ensures Grants(cfg, Fresh(After(cfg, past), now - maxAge), calls, key) > Grants(cfg, After(cfg, past), calls, key)
    ensures now <= end && (forall i :: 0 <= i < |calls| ==> calls[i].now <= end)
    ensures now >= 1.0 && forall i :: 0 <= i < |past| ==> past[i].now >= 1.0
    ensures (Grants(cfg, map[], past, key) + Grants(cfg, Fresh(After(cfg, past), now - maxAge), calls, key)) as real
      > cfg.burstSize + cfg.ratePerSecond * (end - 1.0)
  {
    hide Gain, Grants, Available, After, BucketsOk, Monotone;
    key := "k";
    var used;
    past, used := Drained(cfg, key);
    var idle := StaleButNotFull(cfg, maxAge);
    now := used + idle;
    HistoryLater(past, used, now);
    AfterOk(cfg, past, now);
    var m := After(cfg, past);
    var evicted := Fresh(m, now - maxAge);
    FreshOk(cfg, m, now, maxAge);
    assert now - used == idle && key !in evicted;
    IdleOffers(cfg, m, evicted, key, now, idle);
    calls, end := VolleyTells(cfg, m, evicted, key, now, m[key].tokens, idle);
    SpanGain(cfg, used - 1.0, idle, end - now, end - 1.0);
  }

  /** A key offered the full burst gets more than one that had `left` and has been idle since. */
  lemma VolleyTells(cfg: Config, m: Buckets, full: Buckets, key: string, now: real, left: real, idle: real)
    returns (calls: seq<Call>, end: real)
    requires ConfigOk(cfg) && BucketsOk(cfg, m, now) && BucketsOk(cfg, full, now)
    requires Available(cfg, full, key, now) == cfg.burstSize >= 1.0
    requires Available(cfg, m, key, now) <= left + Gain(cfg, idle) && Gain(cfg, idle) < cfg.burstSize
    requires 0.0 <= left < 1.0 && (cfg.ratePerSecond > 0.0 ==> left == 0.0)
    ensures Monotone(calls, now) && now <= end && forall i :: 0 <= i < |calls| ==> calls[i].now <= end
    ensures Grants(cfg, full, calls, key) > Grants(cfg, m, calls, key)
    ensures Grants(cfg, full, calls, key) as real > left + Gain(cfg, idle) + Gain(cfg, end - now)
  {
    hide Gain, Grants, Available, BucketsOk;
    var k := WholeBurst(cfg.burstSize);
    if cfg.ratePerSecond == 0.0 {
      calls, end := Volley(key, now, k), now;
      EvictedGetsBurst(cfg, full, key, now, k);
      NoGain(cfg, end - now);
      NoGain(cfg, idle);
    } else {
      var wait := WaitForOne(cfg, k);
      calls, end := Volley(key, now, k) + [Call(key, now + wait)], now + wait;
      EvictedGets(cfg, full, key, now, k, wait);
      assert end - now == wait;
    }
    GrantsArePaid(cfg, m, calls, key, now, end);
  }

  lemma HistoryLater(past: seq<Call>, now: real, later: real)
    requires History(past, now) && now <= later
    ensures History(past, later)
  {
  }

  lemma FreshOk(cfg: Config, m: Buckets, now: real, maxAge: real)
    requires BucketsOk(cfg, m, now)
    ensures BucketsOk(cfg, Fresh(m, now - maxAge), now)
  {
  }

  lemma NoGain(cfg: Config, dt: real)
    requires dt == 0.0 || cfg.ratePerSecond == 0.0
    ensures Gain(cfg, dt) == 0.0
  {
  }

  lemma SpanGain(cfg: Config, a: real, b: real, c: real, all: real)
    requires a + b + c == all
    ensures Gain(cfg, a) + Gain(cfg, b) + Gain(cfg, c) == Gain(cfg, all) == cfg.ratePerSecond * all
  {
    GainLaws(cfg, a, b);
    GainLaws(cfg, a + b, c);
  }

  lemma IdleOffers(cfg: Config, m: Buckets, evicted: Buckets, key: string, now: real, idle: real)
    requires ConfigOk(cfg) && key in m && m[key].lastRefill == now - idle && now - idle != EPOCH && key !in evicted
    ensures Available(cfg, m, key, now) <= m[key].tokens + Gain(cfg, idle)
    ensures Available(cfg, evicted, key, now) == cfg.burstSize
  {
    hide Gain;
    assert now - (now - idle) == idle;
  }

  lemma EvictedGetsBurst(cfg: Config, m: Buckets, key: string, now: real, k: nat)
    requires ConfigOk(cfg) && BucketsOk(cfg, m, now) && Available(cfg, m, key, now) >= k as real
    ensures Grants(cfg, m, Volley(key, now, k), key) >= k
  {
    hide Gain, Available, BucketsOk;
    VolleyGranted(cfg, m, key, now, k, []);
    assert Volley(key, now, k) + [] == Volley(key, now, k);
  }

  lemma Quotient(x: real, rate: real, y: real)
    requires rate > 0.0
    ensures (x / rate) * rate == x
    ensures rate * y < x ==> y < x / rate
  {
    var q := x / rate;
    assert q * rate == x;
    if rate * y < x && y >= q {
      Scale(rate, q, y);
      assert false;
    }
  }

  lemma Halfway(rate: real, a: real, b: real)
    requires rate > 0.0 && a < b
    ensures a < (a + b) / 2.0 && (a + b) / 2.0 * rate < b * rate
  {
    var h := (a + b) / 2.0;
    assert h < b;
    var d := b - h;
    assert d > 0.0 && d * rate > 0.0;
    assert b * rate == h * rate + d * rate;
  }

  /** The condition covers buckets however they came about, after resets and evictions too. */
  lemma EvictionChangesNothing(cfg: Config, m: Buckets, maxAge: real, now: real, calls: seq<Call>, key: string)
    requires ConfigOk(cfg) && BucketsOk(cfg, m, now) && Monotone(calls, now)
    requires cfg.ratePerSecond * maxAge >= cfg.burstSize || cfg.burstSize < 1.0
    ensures Grants(cfg, Fresh(m, now - maxAge), calls, key) == Grants(cfg, m, calls, key)
  {
    if cfg.burstSize < 1.0 {
      NeverGranted(cfg, m, calls, key);
      NeverGranted(cfg, Fresh(m, now - maxAge), calls, key);
    } else {
      forall k ensures Available(cfg, Fresh(m, now - maxAge), k, now) == Available(cfg, m, k, now) {
        EvictionKeepsTokens(cfg, m, maxAge, now, k);
      }
      SameTokensSameGrants(cfg, Fresh(m, now - maxAge), m, calls, key, now);
    }
  }

  /** Evicting stale buckets changes no later decision exactly when a bucket that old is full
      anyway, or the burst is too small for any grant. */
  lemma EvictionCondition(cfg: Config, maxAge: real)
    requires ConfigOk(cfg)
    ensures EvictionInvisible(cfg, maxAge) <==> cfg.ratePerSecond * maxAge >= cfg.burstSize || cfg.burstSize < 1.0
  {
    hide After, Grants, BucketsOk, Monotone;
    if cfg.ratePerSecond * maxAge >= cfg.burstSize || cfg.burstSize < 1.0 {
      forall past: seq<Call>, now: real, calls: seq<Call>, key: string | History(past, now) && Monotone(calls, now)
        ensures Grants(cfg, Fresh(After(cfg, past), now - maxAge), calls, key)
          == Grants(cfg, After(cfg, past), calls, key)
      {
        AfterOk(cfg, past, now);
        EvictionChangesNothing(cfg, After(cfg, past), maxAge, now, calls, key);
      }
    } else {
      var past, now, calls, key, _ := EvictionShows(cfg, maxAge);
    }
  }

  // ---- runs with evictions ----

  datatype Event = Acquire(call: Call) | Evict(maxAge: real, at: real)
  {
    function Now(): real {
      if Acquire? then call.now else at
    }
  }

  ghost predicate InOrder(events: seq<Event>, from: real) {
    && (forall i :: 0 <= i < |events| ==> events[i].Now() >= from)
    && (forall i, j :: 0 <= i < j < |events| ==> events[i].Now() <= events[j].Now())
  }

  ghost predicate EvictsAt(events: seq<Event>, maxAge: real) {
    forall e :: e in events && e.Evict? ==> e.maxAge == maxAge
  }

  function Stepped(cfg: Config, m: Buckets, e: Event): Buckets {
    match e
    case Acquire(c) => Acquired(cfg, m, c.key, c.now)
    case Evict(maxAge, at) => Fresh(m, at - maxAge)
  }

  /** The buckets after a run of calls and evictions. */
  function EventRun(cfg: Config, m: Buckets, events: seq<Event>): Buckets
    decreases |events|
  {
    if events == [] then m else EventRun(cfg, Stepped(cfg, m, events[0]), events[1..])
  }

  /** How many of its calls for `key` are granted. */
  function EventGrants(cfg: Config, m: Buckets, events: seq<Event>, key: string): nat
    decreases |events|
  {
    if events == [] then 0
    else
      var rest := EventGrants(cfg, Stepped(cfg, m, events[0]), events[1..], key);
      match events[0]
      case Acquire(c) => (if c.key == key && Available(cfg, m, c.key, c.now) >= 1.0 then 1 else 0) + rest
      case Evict(_, _) => rest
  }

  /** The calls of a run. */
  function Calls(events: seq<Event>): seq<Call> {
    if events == [] then []
    else (if events[0].Acquire? then [events[0].call] else []) + Calls(events[1..])
  }

  lemma {:induction false} CallsInOrder(events: seq<Event>, from: real, to: real)
    requires InOrder(events, from) && forall i :: 0 <= i < |events| ==> events[i].Now() <= to
    ensures Monotone(Calls(events), from) && forall i :: 0 <= i < |Calls(events)| ==> Calls(events)[i].now <= to
  {
    if events != [] {
      CallsInOrder(events[1..], events[0].Now(), to);
    }
  }

  lemma RestCallsInOrder(events: seq<Event>, from: real)
    requires InOrder(events, from)
    ensures Monotone(Calls(events), from)
  {
    CallsInOrder(events, from, if events == [] then from else events[|events| - 1].Now());
  }

  lemma RestInOrder(events: seq<Event>, t: real, maxAge: real)
    requires events != [] && InOrder(events, t) && EvictsAt(events, maxAge)
    ensures events[0].Now() >= t && InOrder(events[1..], events[0].Now()) && EvictsAt(events[1..], maxAge)
    ensures events[0].Evict? ==> events[0].maxAge == maxAge
  {
  }

  lemma SteppedOk(cfg: Config, m: Buckets, e: Event, t: real)
    requires ConfigOk(cfg) && BucketsOk(cfg, m, t) && t <= e.Now()
    ensures BucketsOk(cfg, Stepped(cfg, m, e), e.Now())
  {
    if e.Acquire? {
      AcquiredOk(cfg, m, e.call.key, e.call.now);
    }
  }

  lemma {:induction false} EventRunOk(cfg: Config, m: Buckets, events: seq<Event>, t1: real, t2: real)
    requires ConfigOk(cfg) && BucketsOk(cfg, m, t1) && InOrder(events, t1) && t1 <= t2
    requires forall i :: 0 <= i < |events| ==> events[i].Now() <= t2
    ensures BucketsOk(cfg, EventRun(cfg, m, events), t2)
    decreases |events|
  {
    hide BucketsOk, Stepped;
    if events == [] {
      BucketsOkLater(cfg, m, t1, t2);
    } else {
      SteppedOk(cfg, m, events[0], t1);
      EventRunOk(cfg, Stepped(cfg, m, events[0]), events[1..], events[0].Now(), t2);
    }
  }

  /** What the first event adds to either count. */
  lemma FirstEvent(cfg: Config, m: Buckets, events: seq<Event>, key: string)
    ensures events == [] ==> EventGrants(cfg, m, events, key) == Grants(cfg, m, Calls(events), key)
    ensures events != [] && events[0].Evict? ==>
      && Stepped(cfg, m, events[0]) == Fresh(m, events[0].at - events[0].maxAge)
      && Calls(events) == Calls(events[1..])
      && EventGrants(cfg, m, events, key) == EventGrants(cfg, Stepped(cfg, m, events[0]), events[1..], key)
    ensures events != [] && events[0].Acquire? ==>
      EventGrants(cfg, m, events, key) - EventGrants(cfg, Stepped(cfg, m, events[0]), events[1..], key)
      == Grants(cfg, m, Calls(events), key) - Grants(cfg, Stepped(cfg, m, events[0]), Calls(events[1..]), key)
  {
    hide Available, Acquired, Fresh;
    if events != [] && events[0].Acquire? {
      assert Calls(events)[1..] == Calls(events[1..]);
    }
  }

  /** Evictions of buckets that would be full anyway, however many and wherever they come in a run,
      change no decision. */
  lemma {:induction false} EvictionsUnnoticed(cfg: Config, m: Buckets, events: seq<Event>, key: string, maxAge: real,
                                              t: real)
    requires ConfigOk(cfg) && BucketsOk(cfg, m, t) && InOrder(events, t) && EvictsAt(events, maxAge)
    requires cfg.ratePerSecond * maxAge >= cfg.burstSize || cfg.burstSize < 1.0
    ensures EventGrants(cfg, m, events, key) == Grants(cfg, m, Calls(events), key)
    decreases |events|
  {
    hide BucketsOk, Monotone, Stepped, Calls, InOrder, EvictsAt, EventGrants, Grants;
    FirstEvent(cfg, m, events, key);
    if events != [] {
      RestInOrder(events, t, maxAge);
      var e, rest := events[0], events[1..];
      SteppedOk(cfg, m, e, t);
      EvictionsUnnoticed(cfg, Stepped(cfg, m, e), rest, key, maxAge, e.Now());
      if e.Evict? {
        BucketsOkLater(cfg, m, t, e.at);
        RestCallsInOrder(rest, e.at);
        EvictionChangesNothing(cfg, m, maxAge, e.at, Calls(rest), key);
      }
    }
  }

  /** The limit holds with evictions in the run too: in any window at most burst + rate * length. */
  ghost predicate LimitHolds(cfg: Config, maxAge: real) {
    forall past: seq<Event>, window: seq<Event>, key: string, t1: real, t2: real ::
      Windowed(past, window, t1, t2) && EvictsAt(past, maxAge) && EvictsAt(window, maxAge) ==>
      EventGrants(cfg, EventRun(cfg, map[], past), window, key) as real <= cfg.burstSize + cfg.ratePerSecond * (t2 - t1)
  }

  /** A run from the start up to t1, and what happens from then to t2. */
  ghost predicate Windowed(past: seq<Event>, window: seq<Event>, t1: real, t2: real) {
    && EPOCH < t1 <= t2 && InOrder(window, t1)
    && (forall i :: 0 <= i < |past| ==> EPOCH < past[i].Now() <= t1)
    && (forall i, j :: 0 <= i < j < |past| ==> past[i].Now() <= past[j].Now())
    && (forall i :: 0 <= i < |window| ==> window[i].Now() <= t2)
  }

  lemma WindowWithEvictions(cfg: Config, maxAge: real, past: seq<Event>, window: seq<Event>, key: string, t1: real,
                            t2: real)
    requires ConfigOk(cfg) && Windowed(past, window, t1, t2) && EvictsAt(window, maxAge)
    requires cfg.ratePerSecond * maxAge >= cfg.burstSize || cfg.burstSize < 1.0
    ensures EventGrants(cfg, EventRun(cfg, map[], past), window, key) as real
      <= cfg.burstSize + cfg.ratePerSecond * (t2 - t1)
  {
    hide EventGrants, Grants, EventRun, Gain, Calls;
    var start := if past == [] then t1 else past[0].Now();
    var m := EventRun(cfg, map[], past);
    assert BucketsOk(cfg, map[], start);
    EventRunOk(cfg, map[], past, start, t1);
    EvictionsUnnoticed(cfg, m, window, key, maxAge, t1);
    CallsInOrder(window, t1, t2);
    WindowBound(cfg, m, Calls(window), key, t1, t2);
  }

  /** Calls as events. */
  function Acquires(calls: seq<Call>): seq<Event> {
    seq(|calls|, i requires 0 <= i < |calls| => Acquire(calls[i]))
  }

  lemma {:induction false} GrantsThen(cfg: Config, m: Buckets, calls: seq<Call>, rest: seq<Event>, key: string)
    ensures EventGrants(cfg, m, Acquires(calls) + rest, key) ==
      Grants(cfg, m, calls, key) + EventGrants(cfg, EventRun(cfg, m, Acquires(calls)), rest, key)
    decreases |calls|
  {
    hide Available, Acquired;
    var events := Acquires(calls);
    if calls == [] {
      assert events + rest == rest;
    } else {
      assert (events + rest)[1..] == Acquires(calls[1..]) + rest && events[1..] == Acquires(calls[1..]);
      GrantsThen(cfg, Acquired(cfg, m, calls[0].key, calls[0].now), calls[1..], rest, key);
    }
  }

  lemma {:induction false} RunIsAfter(cfg: Config, past: seq<Call>)
    ensures EventRun(cfg, map[], Acquires(past)) == After(cfg, past)
  {
    hide Acquired;
    if past != [] {
      var front, last := past[..|past| - 1], past[|past| - 1];
      RunIsAfter(cfg, front);
      assert Acquires(past) == Acquires(front) + [Acquire(last)];
      RunThen(cfg, map[], Acquires(front), Acquire(last));
    }
  }

  lemma {:induction false} RunThen(cfg: Config, m: Buckets, events: seq<Event>, e: Event)
    ensures EventRun(cfg, m, events + [e]) == Stepped(cfg, EventRun(cfg, m, events), e)
    decreases |events|
  {
    hide Stepped;
    if events == [] {
      assert (events + [e])[1..] == [];
    } else {
      assert (events + [e])[1..] == events[1..] + [e];
      RunThen(cfg, Stepped(cfg, m, events[0]), events[1..], e);
    }
  }

  lemma AcquiresInOrder(calls: seq<Call>, from: real)
    requires Monotone(calls, from)
    ensures InOrder(Acquires(calls), from)
  {
    forall i, j | 0 <= i < j < |calls| ensures calls[i].now <= calls[j].now {
      NowUpTo(calls, from, i, j);
    }
  }

  lemma {:induction false} NowUpTo(calls: seq<Call>, from: real, i: nat, j: nat)
    requires Monotone(calls, from) && i <= j < |calls|
    ensures calls[i].now <= calls[j].now
    decreases j
  {
    if i < j {
      NowUpTo(calls, from, i, j - 1);
    }
  }

  /** A run from the start, one eviction and a volley that together exceed the limit. */
  lemma LimitBroken(cfg: Config, maxAge: real) returns (window: seq<Event>, key: string, end: real)
    requires ConfigOk(cfg) && cfg.burstSize >= 1.0 && cfg.ratePerSecond * maxAge < cfg.burstSize
    ensures Windowed([], window, 1.0, end) && EvictsAt(window, maxAge)
    ensures EventGrants(cfg, map[], window, key) as real > cfg.burstSize + cfg.ratePerSecond * (end - 1.0)
  {
    hide Grants, EventGrants, After, EventRun, Monotone, Fresh;
    var past, now, calls;
    past, now, calls, key, end := EvictionShows(cfg, maxAge);
    var evict := Evict(maxAge, now);
    window := Acquires(past) + ([evict] + Acquires(calls));
    WindowOrdered(past, now, maxAge, calls, end);
    GrantsThen(cfg, map[], past, [evict] + Acquires(calls), key);
    RunIsAfter(cfg, past);
    FirstEvent(cfg, After(cfg, past), [evict] + Acquires(calls), key);
    assert ([evict] + Acquires(calls))[1..] == Acquires(calls);
    var m := Fresh(After(cfg, past), now - maxAge);
    GrantsThen(cfg, m, calls, [], key);
    assert Acquires(calls) + [] == Acquires(calls);
    FirstEvent(cfg, EventRun(cfg, m, Acquires(calls)), [], key);
  }

  lemma WindowOrdered(past: seq<Call>, now: real, maxAge: real, calls: seq<Call>, end: real)
    requires History(past, now) && Monotone(calls, now) && 1.0 <= now <= end
    requires forall i :: 0 <= i < |past| ==> past[i].now >= 1.0
    requires forall i :: 0 <= i < |calls| ==> calls[i].now <= end
    ensures var window := Acquires(past) + ([Evict(maxAge, now)] + Acquires(calls));
      Windowed([], window, 1.0, end) && EvictsAt(window, maxAge)
  {
    assert Monotone(past, 1.0);
    AcquiresInOrder(past, 1.0);
    AcquiresInOrder(calls, now);
  }

  /** With evictions in the run the limit holds in every window of every run exactly when a bucket
      that old is full anyway, or the burst is too small for any grant. */
  lemma LimitCondition(cfg: Config, maxAge: real)
    requires ConfigOk(cfg)
    ensures LimitHolds(cfg, maxAge) <==> cfg.ratePerSecond * maxAge >= cfg.burstSize || cfg.burstSize < 1.0
  {
    hide EventGrants, EventRun, Windowed, EvictsAt;
    if cfg.ratePerSecond * maxAge >= cfg.burstSize || cfg.burstSize < 1.0 {
      forall past: seq<Event>, window: seq<Event>, key: string, t1: real, t2: real |
        Windowed(past, window, t1, t2) && EvictsAt(past, maxAge) && EvictsAt(window, maxAge)
        ensures EventGrants(cfg, EventRun(cfg, map[], past), window, key) as real
          <= cfg.burstSize + cfg.ratePerSecond * (t2 - t1)
      {
        WindowWithEvictions(cfg, maxAge, past, window, key, t1, t2);
      }
    } else {
      var window, key, end := LimitBroken(cfg, maxAge);
      NothingBefore(cfg, maxAge);
    }
  }

  lemma NothingBefore(cfg: Config, maxAge: real)
    ensures EventRun(cfg, map[], []) == map[] && EvictsAt([], maxAge)
  {
  }
}
