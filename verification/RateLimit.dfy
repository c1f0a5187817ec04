/** The per-key token-bucket limiter of httpserver/middlewares/rate_limit.go.
    Time is in ns and a token is `TOKEN` units, so `rpm` requests a minute refill
    exactly `rpm` units a nanosecond. With `early`, the wait for a missing part of a token
    is cut to whole nanoseconds, as the library's is, so a request that would have to wait
    less than one is admitted on the spot. */
module RateLimit {
  import opened Prelude

  const TOKEN: int := 60_000_000_000
  const IDLE_TIMEOUT: int := 10 * MINUTE

  /** A `rate.Limiter`, and when its key was last seen. */
  datatype Bucket = Bucket(units: int, last: Time, rpm: int, burst: int, lastSeen: Time, early: bool)

  datatype Limiters = Limiters(buckets: map<string, Bucket>, rpm: int, burst: int, lastEvict: Time, early: bool)

  function FullBucket(rpm: int, burst: int, now: Time, early: bool): Bucket {
    Bucket(burst * TOKEN, now, rpm, burst, now, early)
  }

  /** The units available at `now`: refilled since `last`, clipped to the burst. */
  function Available(b: Bucket, now: Time): int {
    Min(b.units + Max(b.rpm, 0) * Max(now - b.last, 0), b.burst * TOKEN)
  }

  /** What is refilled in less than a nanosecond. */
  function Grace(rpm: int, early: bool): (grace: int)
    ensures 0 <= grace
  {
    if early && rpm > 0 then rpm - 1 else 0
  }

  predicate Admits(b: Bucket, now: Time) {
    1 <= b.burst && TOKEN <= Available(b, now) + Grace(b.rpm, b.early)
  }

  /** `Allow`: a denied request changes nothing. */
  function Spend(b: Bucket, now: Time): Bucket {
    if Admits(b, now) then b.(units := Available(b, now) - TOKEN, last := now) else b
  }

  /** `SetLimit` then `SetBurst`: each advances the bucket first, keeping its units. */
  function SetLimit(b: Bucket, rpm: int, now: Time): Bucket {
    b.(units := Available(b, now), last := now, rpm := rpm)
  }

  function SetBurst(b: Bucket, burst: int, now: Time): Bucket {
    b.(units := Available(b, now), last := now, burst := burst)
  }

  function Retuned(b: Bucket, rpm: int, burst: int, now: Time): Bucket {
    SetBurst(SetLimit(b, rpm, now), burst, now)
  }

  /** A retuned bucket carries the new policy and keeps what it holds, up to the new burst. */
  lemma RetuneKeepsTokens(b: Bucket, rpm: int, burst: int, now: Time)
    requires b.last <= now
    ensures var r := Retuned(b, rpm, burst, now);
      r.rpm == rpm && r.burst == burst && r.last == now && r.lastSeen == b.lastSeen && r.early == b.early
    ensures Available(Retuned(b, rpm, burst, now), now) ==
      Min(Min(b.units + Max(b.rpm, 0) * (now - b.last), b.burst * 60_000_000_000), burst * 60_000_000_000)
  {
    var limited := SetLimit(b, rpm, now);
    assert Available(limited, now) == limited.units;
  }

  /** Early means what it says: no whole nanosecond's refill is missing, and a nanosecond later
      nothing is. */
  lemma EarlyByLessThanANanosecond(b: Bucket, now: Time)
    requires b.early && 0 < b.rpm && 1 <= b.burst && b.last <= now
    ensures Admits(b, now) <==> TOKEN <= Available(b, now) || (TOKEN - Available(b, now)) / b.rpm == 0
    ensures Admits(b, now) ==> TOKEN <= Available(b, now + 1)
  {
    var missing := TOKEN - Available(b, now);
    if missing > 0 { QuotientIsZero(missing, b.rpm); }
    assert b.rpm * (now + 1 - b.last) == b.rpm * (now - b.last) + b.rpm;
  }

  lemma QuotientIsZero(x: nat, y: nat)
    requires y > 0
    ensures x / y == 0 <==> x < y
  {
    if x < y {
      assert x / y == 0;
    } else {
      assert x == y * (x / y) + x % y;
    }
  }

  // ----- the limiter's three operations, as functions of its state --------

  function RetuneAll(s: Limiters, rpm: int, burst: int, now: Time): Limiters {
    if s.rpm == rpm && s.burst == burst then s
    else Limiters(map k | k in s.buckets :: Retuned(s.buckets[k], rpm, burst, now), rpm, burst, s.lastEvict, s.early)
  }

  function Evicted(s: Limiters, now: Time): Limiters {
    if now - s.lastEvict < IDLE_TIMEOUT then s
    else s.(
      buckets := map k | k in s.buckets && now - s.buckets[k].lastSeen <= IDLE_TIMEOUT :: s.buckets[k],
      lastEvict := now)
  }

  function BucketOf(s: Limiters, key: string, now: Time): Bucket {
    if key in s.buckets then s.buckets[key].(lastSeen := now) else FullBucket(s.rpm, s.burst, now, s.early)
  }

  function Served(s: Limiters, key: string, now: Time): Limiters {
    s.(buckets := s.buckets[key := Spend(BucketOf(s, key, now), now)])
  }

  function Answer(s: Limiters, key: string, now: Time): bool {
    Admits(BucketOf(s, key, now), now)
  }

  /** `ipRateLimiter`, updated in place. */
  class IpRateLimiter {
    var buckets: map<string, Bucket>
    var rpm: int
    var burst: int
    var lastEvict: Time
    const early: bool

    function State(): Limiters
      reads this
    {
      Limiters(buckets, rpm, burst, lastEvict, early)
    }

    constructor (rpm: int, burst: int, now: Time, early: bool)
      ensures State() == Limiters(map[], rpm, burst, now, early)
    {
      buckets := map[];
      this.rpm := rpm;
      this.burst := burst;
      lastEvict := now;
      this.early := early;
    }

    method Retune(newRpm: int, newBurst: int, now: Time)
      modifies this
      ensures State() == RetuneAll(old(State()), newRpm, newBurst, now)
      ensures rpm == newRpm && burst == newBurst && lastEvict == old(lastEvict) && buckets.Keys == old(buckets.Keys)
      ensures old(rpm) == newRpm && old(burst) == newBurst ==> buckets == old(buckets)
      ensures old(rpm) != newRpm || old(burst) != newBurst ==>
        forall k <- buckets :: buckets[k] == Retuned(old(buckets)[k], newRpm, newBurst, now)
    {
      if rpm == newRpm && burst == newBurst { return; }
      rpm := newRpm;
      burst := newBurst;
      var keys := buckets.Keys;
      while keys != {}
        invariant keys <= buckets.Keys == old(buckets.Keys)
        invariant forall k <- buckets ::
          buckets[k] == if k in keys then old(buckets)[k] else Retuned(old(buckets)[k], newRpm, newBurst, now)
        invariant rpm == newRpm && burst == newBurst && lastEvict == old(lastEvict)
        decreases |keys|
      {
        var k :| k in keys;
        keys := keys - {k};
        var limiter := SetLimit(buckets[k], newRpm, now);
        limiter := SetBurst(limiter, newBurst, now);
        buckets := buckets[k := limiter];
      }
    }

    method Allow(key: string, now: Time) returns (admitted: bool)
      modifies this
      ensures admitted == Answer(Evicted(old(State()), now), key, now)
      ensures State() == Served(Evicted(old(State()), now), key, now)
      ensures key in buckets && buckets[key].lastSeen == now
      ensures !admitted && key in old(buckets) && now - old(buckets)[key].lastSeen <= 600_000_000_000 ==>
        buckets[key] == old(buckets)[key].(lastSeen := now)
      ensures forall k | k != key :: k in buckets <==>
        k in old(buckets) &&
        (now - old(lastEvict) < 600_000_000_000 || now - old(buckets)[k].lastSeen <= 600_000_000_000)
      ensures forall k | k != key && k in buckets :: buckets[k] == old(buckets)[k]
    {
      EvictIfDue(now);
      if key !in buckets {
        buckets := buckets[key := FullBucket(rpm, burst, now, early)];
      }
      var entry := buckets[key];
      entry := entry.(lastSeen := now);
      admitted := Admits(entry, now);
      if admitted {
        entry := entry.(units := Available(entry, now) - TOKEN, last := now);
      }
      buckets := buckets[key := entry];
    }

    method EvictIfDue(now: Time)
      modifies this
      ensures State() == Evicted(old(State()), now)
      ensures lastEvict == if now - old(lastEvict) < 600_000_000_000 then old(lastEvict) else now
      ensures forall k :: k in buckets <==>
        k in old(buckets) &&
        (now - old(lastEvict) < 600_000_000_000 || now - old(buckets)[k].lastSeen <= 600_000_000_000)
      ensures forall k <- buckets :: buckets[k] == old(buckets)[k]
    {
      if now - lastEvict < IDLE_TIMEOUT { return; }
      lastEvict := now;
      var keys := buckets.Keys;
      while keys != {}
        invariant keys <= buckets.Keys <= old(buckets.Keys)
        invariant forall k <- buckets :: buckets[k] == old(buckets)[k]
        invariant forall k <- old(buckets) ::
          k in buckets <==> k in keys || now - old(buckets)[k].lastSeen <= IDLE_TIMEOUT
        invariant rpm == old(rpm) && burst == old(burst) && lastEvict == now
        decreases |keys|
      {
        var k :| k in keys;
        keys := keys - {k};
        if now - buckets[k].lastSeen > IDLE_TIMEOUT {
          buckets := buckets - {k};
        }
      }
    }
  }
}
