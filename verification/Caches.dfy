/** The expiring maps behind oidcauth/cache.go and oidcauth/introspection.go. */
module Caches {
  import opened Prelude

  datatype Entry = Entry(claims: Claims, expiresAt: Time)

  type Entries = map<string, Entry>

  function LookupIn(entries: Entries, key: string, now: Time): Option<Entry> {
    if key in entries && now < entries[key].expiresAt then Some(entries[key]) else None
  }

  function Unexpired(entries: Entries, now: Time): Entries {
    map key | key in entries && now < entries[key].expiresAt :: entries[key]
  }

  /** The shortest of now + CacheTTL, the expiry the caller knows and the one the
      issuer reports; `None` when the answer must not be cached. */
  function EffectiveExpiry(ttl: int, now: Time, known: Option<Time>, exp: real): (limit: Option<Time>)
    ensures limit.Some? ==>
      && now < limit.value <= now + ttl
      && (known.Some? ==> limit.value <= known.value)
      && (exp > 0.0 ==> limit.value <= Unix(exp))
      && (|| limit.value == now + ttl
          || limit == known
          || (exp > 0.0 && limit.value == Unix(exp)))
    ensures limit.None? <==>
      ttl <= 0 || (known.Some? && known.value <= now) || (exp > 0.0 && Unix(exp) <= now)
  {
    if ttl <= 0 then None
    else
      var configured := now + ttl;
      var known := if known.Some? then Min(known.value, configured) else configured;
      var shortest := if exp > 0.0 then Min(Unix(exp), known) else known;
      if now < shortest then Some(shortest) else None
  }

  /** A whole second still falls after the last instant before it and not after the claims'
      `exp`; and, unless it is the cache's own limit, none falls after it. */
  predicate DeadlineOf(expiresAt: Time, claims: Claims, limit: Time) {
    && expiresAt <= limit
    && (claims.exp > 0.0 ==> ((expiresAt - 1) / 1_000_000_000 + 1) as real <= claims.exp)
    && (expiresAt < limit ==> claims.exp > 0.0 && claims.exp < (expiresAt / 1_000_000_000 + 1) as real)
  }

  /** The whole-result cache's deadline for claims verified by a call begun at `now`. */
  function ResultExpiry(duration: int, claims: Claims, now: Time): Time {
    if claims.exp <= 0.0 then now + duration else Min(Unix(claims.exp), now + duration)
  }

  lemma WholeSeconds(later: Time, exp: real)
    requires exp > 0.0
    ensures later < Unix(exp) <==> (later / 1_000_000_000 + 1) as real <= exp
  {
    var next := later / 1_000_000_000 + 1;
    assert next <= exp.Floor <==> next as real <= exp;
    assert Unix(exp) == exp.Floor * 1_000_000_000;
  }

  lemma ResultExpiryIsTheDeadline(duration: int, claims: Claims, now: Time)
    ensures DeadlineOf(ResultExpiry(duration, claims, now), claims, now + duration)
  {
    if claims.exp > 0.0 {
      WholeSeconds(ResultExpiry(duration, claims, now) - 1, claims.exp);
      WholeSeconds(ResultExpiry(duration, claims, now), claims.exp);
    }
  }

  /** Claims put into the result cache at `now` are served exactly until `duration` has passed,
      and only at instants after which a whole second still falls before their `exp`. */
  lemma ServedUntilIff(entries: Entries, key: string, duration: int, claims: Claims, now: Time, later: Time)
    ensures var filled := entries[key := Entry(claims, ResultExpiry(duration, claims, now))];
      LookupIn(filled, key, later).Some? <==>
        && later < now + duration
        && (claims.exp > 0.0 ==> (later / 1_000_000_000 + 1) as real <= claims.exp)
  {
    if claims.exp > 0.0 { WholeSeconds(later, claims.exp); }
  }

  /** The introspection cache keeps an answer exactly while CacheTTL has not passed, the token's
      known expiry has not come, and a whole second still falls before the reported one. */
  lemma KeptUntilIff(ttl: int, now: Time, known: Option<Time>, exp: real, later: Time)
    requires now <= later
    ensures var limit := EffectiveExpiry(ttl, now, known, exp);
      limit.Some? && later < limit.value <==>
        && later < now + ttl
        && (known.Some? ==> later < known.value)
        && (exp > 0.0 ==> (later / 1_000_000_000 + 1) as real <= exp)
  {
    if exp > 0.0 { WholeSeconds(later, exp); }
  }

  /** Eviction at `at` changes no lookup at or after `at`. */
  lemma EvictionIsInvisible(entries: Entries, key: string, at: Time, now: Time)
    requires at <= now
    ensures LookupIn(Unexpired(entries, at), key, now) == LookupIn(entries, key, now)
  {
  }

  /** Deletes, one key at a time, what has expired. */
  method DeleteExpired(entries: Entries, now: Time) returns (kept: Entries, removed: nat)
    ensures kept == Unexpired(entries, now)
    ensures forall key :: key in kept <==> key in entries && now < entries[key].expiresAt
    ensures forall key <- kept :: kept[key] == entries[key]
    ensures removed == |entries| - |kept|
  {
    kept, removed := entries, 0;
    var keys := entries.Keys;
    while keys != {}
      invariant keys <= kept.Keys <= entries.Keys
      invariant forall key <- kept :: kept[key] == entries[key]
      invariant forall key <- entries :: key in kept <==> key in keys || now < entries[key].expiresAt
      invariant removed == |entries| - |kept|
      decreases |keys|
    {
      var key :| key in keys;
      keys := keys - {key};
      if kept[key].expiresAt <= now {
        assert (kept - {key}).Keys == kept.Keys - {key};
        kept := kept - {key};
        removed := removed + 1;
      }
    }
  }

  /** `MemoryCache`: whole verification results, capped at `duration`. */
  class MemoryCache {
    const duration: int
    var entries: Entries

    constructor (duration: int)
      ensures this.duration == duration && entries == map[]
    {
      this.duration := duration;
      entries := map[];
    }

    method Get(key: string, now: Time) returns (claims: Option<Claims>)
      ensures claims.Some? <==> LookupIn(entries, key, now).Some?
      ensures claims.Some? <==> key in entries && now < entries[key].expiresAt
      ensures claims.Some? ==> claims.value == entries[key].claims
    {
      if key !in entries || entries[key].expiresAt <= now { return None; }
      return Some(entries[key].claims);
    }

    method Set(key: string, claims: Claims, now: Time)
      modifies this
      ensures entries == old(entries)[key := Entry(claims, ResultExpiry(duration, claims, now))]
      ensures entries[key].claims == claims && DeadlineOf(entries[key].expiresAt, claims, now + duration)
    {
      var expiresAt := now + duration;
      if claims.exp > 0.0 {
        var tokenExp := Unix(claims.exp);
        if tokenExp < expiresAt { expiresAt := tokenExp; }
      }
      ResultExpiryIsTheDeadline(duration, claims, now);
      entries := entries[key := Entry(claims, expiresAt)];
    }

    method Evict(now: Time)
      modifies this
      ensures entries == Unexpired(old(entries), now)
      ensures forall key :: key in entries <==> key in old(entries) && now < old(entries)[key].expiresAt
      ensures forall key <- entries :: entries[key] == old(entries)[key]
    {
      var removed;
      entries, removed := DeleteExpired(entries, now);
    }
  }
}
