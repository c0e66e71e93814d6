/**
 The per-client token bucket limiter of `src/ratelimit.rs`.

 Amounts are exact integers: times are nanoseconds, and tokens are counted in
 units of 1/(60 * 10^9) token, so that a bucket gains `requestsPerMinute` units
 each nanosecond and one whole token is `TOKEN` units.
 */
module RateLimit {
  import opened Wrappers
  import opened Addresses

  const TOKEN: int := 60_000_000_000
  const STALE: int := 600_000_000_000
  const MAX_BUCKETS: int := 10_000

  datatype Settings = Settings(requestsPerMinute: U32, burstSize: U32)

  datatype Bucket = Bucket(tokens: int, lastRefill: int)

  type Buckets = map<Ip, Bucket>

  // One call of `check`: the clock reading it took before locking, and its client.
  datatype Check = Check(now: int, ip: Ip)

  function BurstTokens(c: Settings): nat {
    if c.burstSize < 1 then 1 else c.burstSize
  }

  function Burst(c: Settings): (r: int)
    ensures r >= TOKEN
  {
    BurstTokens(c) * TOKEN
  }

  function Gain(c: Settings, ns: nat): (r: nat)
  {
    c.requestsPerMinute * ns
  }

  // `Instant::duration_since`, which saturates at zero.
  function Elapsed(now: int, earlier: int): nat {
    if now >= earlier then now - earlier else 0
  }

  function Min(a: int, b: int): int { if a <= b then a else b }

  function Fresh(c: Settings, now: int): Bucket {
    Bucket(Burst(c), now)
  }

  // The tokens a bucket (or a bucket about to be created) holds once topped up at `now`.
  function Refilled(c: Settings, b: Option<Bucket>, now: int): int {
    match b
    case None => Burst(c)
    case Some(k) => Min(k.tokens + Gain(c, Elapsed(now, k.lastRefill)), Burst(c))
  }

  predicate Admits(c: Settings, b: Option<Bucket>, now: int) {
    Refilled(c, b, now) >= TOKEN
  }

  function AfterCheck(c: Settings, b: Option<Bucket>, now: int): Bucket {
    Bucket(Refilled(c, b, now) - (if Admits(c, b, now) then TOKEN else 0), now)
  }

  function Kept(m: Buckets, now: int): Buckets {
    if |m| > MAX_BUCKETS
    then map ip | ip in m && Elapsed(now, m[ip].lastRefill) < STALE :: m[ip]
    else m
  }

  function Lookup(m: Buckets, ip: Ip): Option<Bucket> {
    if ip in m then Some(m[ip]) else None
  }

  function Next(c: Settings, m: Buckets, e: Check): Buckets {
    var kept := Kept(m, e.now);
    kept[e.ip := AfterCheck(c, Lookup(kept, e.ip), e.now)]
  }

  predicate Allows(c: Settings, m: Buckets, e: Check) {
    Admits(c, Lookup(Kept(m, e.now), e.ip), e.now)
  }

  class RateLimiter {
    const settings: Settings
    var buckets: Buckets

    constructor (settings: Settings)
      ensures this.settings == settings && buckets == map[]
    {
      this.settings := settings;
      buckets := map[];
    }

    method CheckClient(now: int, ip: Ip) returns (allowed: bool)
      modifies this
      ensures allowed == Allows(settings, old(buckets), Check(now, ip))
      ensures buckets == Next(settings, old(buckets), Check(now, ip))
    {
      if |buckets| > MAX_BUCKETS {
        buckets := map k | k in buckets && Elapsed(now, buckets[k].lastRefill) < STALE :: buckets[k];
      }
      if ip !in buckets {
        buckets := buckets[ip := Fresh(settings, now)];
      }
      var bucket := buckets[ip];
      var elapsed := Elapsed(now, bucket.lastRefill);
      bucket := bucket.(tokens := Min(bucket.tokens + Gain(settings, elapsed), Burst(settings)));
      bucket := bucket.(lastRefill := now);
      if bucket.tokens >= TOKEN {
        bucket := bucket.(tokens := bucket.tokens - TOKEN);
        allowed := true;
      } else {
        allowed := false;
      }
      buckets := buckets[ip := bucket];
    }
  }

  /// Whole runs

  function State(c: Settings, trace: seq<Check>): Buckets {
    if trace == [] then map[]
    else Next(c, State(c, trace[..|trace|-1]), trace[|trace|-1])
  }

  function Answers(c: Settings, trace: seq<Check>): (r: seq<bool>)
    ensures |r| == |trace|
  {
    if trace == [] then []
    else
      var before := trace[..|trace|-1];
      Answers(c, before) + [Allows(c, State(c, before), trace[|trace|-1])]
  }

  predicate Nondecreasing(times: seq<int>) {
    forall i, j :: 0 <= i <= j < |times| ==> times[i] <= times[j]
  }

  predicate InOrder(trace: seq<Check>) {
    forall i, j :: 0 <= i <= j < |trace| ==> trace[i].now <= trace[j].now
  }

  predicate Sane(c: Settings, b: Bucket) {
    0 <= b.tokens <= Burst(c)
  }

  // Every bucket of every reachable state holds between nothing and a full burst.
  lemma {:induction false} StateIsSane(c: Settings, trace: seq<Check>)
    ensures forall ip :: ip in State(c, trace) ==> Sane(c, State(c, trace)[ip])
  {
    if trace != [] {
      StateIsSane(c, trace[..|trace|-1]);
    }
  }

  /// One bucket on its own

  // The bucket of a client whose checks came at `times` and that was never evicted.
  function Solo(c: Settings, times: seq<int>): Option<Bucket> {
    if times == [] then None
    else Some(AfterCheck(c, Solo(c, times[..|times|-1]), times[|times|-1]))
  }

  // The times among `times` at which that bucket admitted.
  function Admitted(c: Settings, times: seq<int>): seq<int> {
    if times == [] then []
    else
      var before := times[..|times|-1];
      var t := times[|times|-1];
      Admitted(c, before) + (if Admits(c, Solo(c, before), t) then [t] else [])
  }
}
