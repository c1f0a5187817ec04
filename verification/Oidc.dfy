/** The verifier as it runs: `Introspector` and `OIDC` with their caches updated in
    place. What the issuer and the JWT library answer comes in as parameters. */
module Oidc {
  import opened Prelude
  import opened Caches
  import opened Introspection
  import opened VerifierCalls
  import V = Verifier

  class Introspector {
    const ttl: int
    var entries: Entries

    constructor (ttl: int)
      ensures this.ttl == ttl && entries == map[]
    {
      this.ttl := ttl;
      entries := map[];
    }

    method Lookup(key: string, now: Time) returns (found: Option<Entry>)
      ensures found == LookupIn(entries, key, now)
      ensures found == if key in entries && now < entries[key].expiresAt then Some(entries[key]) else None
    {
      if key !in entries || entries[key].expiresAt <= now { return None; }
      return Some(entries[key]);
    }

    method Store(key: string, entry: Entry)
      modifies this
      ensures entries == old(entries)[key := entry]
    {
      entries := entries[key := entry];
    }

    method Evict(now: Time) returns (removed: nat)
      modifies this
      ensures entries == Unexpired(old(entries), now)
      ensures forall key :: key in entries <==> key in old(entries) && now < old(entries)[key].expiresAt
      ensures forall key <- entries :: entries[key] == old(entries)[key]
      ensures forall world: State | world.entries == old(entries) && now <= world.clock ::
                Next(ttl, world, Action.Evict(now)) == world.(entries := entries)
      ensures removed == |old(entries)| - |entries|
    {
      entries, removed := DeleteExpired(entries, now);
    }

    method ClearCache() returns (removed: nat)
      modifies this
      ensures entries == map[] && removed == |old(entries)|
      ensures forall world: State | world.entries == old(entries) ::
                Next(ttl, world, Clear) == world.(entries := entries)
    {
      removed := |entries|;
      entries := map[];
    }

    /** A call nobody else interferes with: a lookup at `now`, and on a miss the
        issuer's reply, received `delay` later. It is the protocol's lone run. */
    method Introspect(token: string, known: Option<Time>, now: Time, reply: Reply, delay: nat)
      returns (claims: Option<Claims>)
      modifies this
      ensures Introspected(ttl, old(entries), token, known, now, reply, now + delay, claims, entries)
    {
      if token == "" { return None; }
      if ttl > 0 {
        var hit := Lookup(token, now);
        if hit.Some? { return Some(hit.value.claims); }
      }
      if !reply.Active? { return None; }
      var deadline := EffectiveExpiry(ttl, now + delay, known, reply.claims.exp);
      if deadline.Some? {
        Store(token, Entry(reply.claims, deadline.value));
      }
      return Some(reply.claims);
    }
  }

  class OIDC {
    const introspects: bool
    const introspector: Introspector
    const cache: MemoryCache?

    constructor (introspects: bool, introspector: Introspector, cache: MemoryCache?)
      ensures this.introspects == introspects && this.introspector == introspector && this.cache == cache
    {
      this.introspects := introspects;
      this.introspector := introspector;
      this.cache := cache;
    }

    function Holding(): Held
      reads introspector, if cache == null then {} else {cache}
    {
      Held(introspects, introspector.ttl, introspector.entries,
           if cache == null then None else Some(cache.duration), if cache == null then map[] else cache.entries)
    }

    /** `pause` passes before the introspector looks its cache up, and `delay` more before
        the issuer, if asked, replies. It is the protocol's lone run. */
    method Verify(
      token: string, now: Time, shape: V.Shape, verifies: bool, pause: nat, reply: Reply, delay: nat)
      returns (claims: Option<Claims>)
      modifies introspector, if cache == null then {} else {cache}
      ensures Outcome(old(Holding()), token, now, shape, verifies, now + pause, reply, now + pause + delay, claims,
                      Holding())
    {
      if cache != null {
        var hit := cache.Get(token, now);
        if hit.Some? { return hit; }
      }
      var result := Claims("", 0.0, {});
      var known: Option<Time> := None;
      var haveLocalClaims := false;
      if shape.Jwt? {
        if !verifies { return None; }
        result := shape.claims;
        haveLocalClaims := true;
        known := V.KnownExpiry(shape);
      }
      if !introspects {
        if !haveLocalClaims { return None; }
      } else {
        var introspected := introspector.Introspect(token, known, now + pause, reply, delay);
        if introspected.None? { return None; }
        if !haveLocalClaims { result := introspected.value; }
      }
      if cache != null { cache.Set(token, result, now); }
      return Some(result);
    }
  }
}
