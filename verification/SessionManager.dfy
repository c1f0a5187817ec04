/** `SessionManager` and its store as they run: fields updated in place. An
    uninterrupted `Resolve` is a run of the session protocol. */
module SessionManagement {
  import opened Prelude
  import opened Sessions
  import opened SessionProtocol
  import opened SessionHistories

  class SessionStore {
    var sessions: map<Id, Session>

    constructor ()
      ensures sessions == map[]
    {
      sessions := map[];
    }

    method Create(s: Session)
      modifies this
      ensures sessions == old(sessions)[s.id := s]
    {
      sessions := sessions[s.id := s];
    }

    method Get(id: Id) returns (found: Option<Session>)
      ensures found == if id in sessions then Some(sessions[id]) else None
    {
      if id in sessions { return Some(sessions[id]); }
      return None;
    }

    method Touch(id: Id, at: Time)
      modifies this
      ensures sessions == Touched(old(sessions), id, at)
      ensures sessions == if id in old(sessions) then old(sessions)[id := old(sessions)[id].(lastSeen := Some(at))]
                          else old(sessions)
    {
      if id in sessions {
        sessions := sessions[id := sessions[id].(lastSeen := Some(at))];
      }
    }

    /** What `WithLock` persists when the callback returns a session. */
    method Replace(id: Id, s: Session)
      modifies this
      ensures sessions == old(sessions)[id := s]
    {
      sessions := sessions[id := s];
    }

    method Delete(id: Id)
      modifies this
      ensures sessions == old(sessions) - {id}
    {
      sessions := sessions - {id};
    }

    method DeleteExpired(now: Time) returns (removed: nat)
      modifies this
      ensures sessions == WithoutExpired(old(sessions), now)
      ensures forall id :: id in sessions <==> id in old(sessions) && now < old(sessions)[id].expiresAt
      ensures forall id <- sessions :: sessions[id] == old(sessions)[id]
      ensures removed == |old(sessions)| - |sessions|
    {
      var keep := WithoutExpired(sessions, now);
      var gone := sessions.Keys - keep.Keys;
      assert keep.Keys + gone == sessions.Keys;
      removed := |gone|;
      sessions := keep;
    }
  }

  // ----- how a lone `Resolve` ends, path by path --------------------------

  /** After the clock reading and the unlocked read. */
  function AfterRead(settings: Settings, s: State, r: Req, id: Id): State {
    FetchStep(settings, s.(requests := s.requests[r := Request(id, s.clock, Fetching)]), r, false)
  }

  lemma ReadFirst(
    settings: Settings, s: State, r: Req, id: Id, accepted: bool, answer: Option<TokenResponse>, delay: nat)
    requires r !in s.requests
    ensures ResolveAlone(settings, s, r, id, accepted, answer, delay)
         == Run(settings, AfterRead(settings, s, r, id), Rest(r, accepted, answer, delay))
  {
    assert Steps(r, accepted, answer, delay)[1..] == Rest(r, accepted, answer, delay);
  }

  function Rest(r: Req, accepted: bool, answer: Option<TokenResponse>, delay: nat): seq<Action> {
    [Verify(r, accepted), Touch(r, false), Tick(delay), Lock(r, answer), Drop(r, false)]
  }

  /** The session is missing, or its ceiling or idle time has passed. */
  lemma UnusableSession(
    settings: Settings, s: State, r: Req, id: Id, accepted: bool, answer: Option<TokenResponse>, delay: nat)
    requires r !in s.requests && (id !in s.store || IsExpired(settings, s.store[id], s.clock))
    ensures var t := ResolveAlone(settings, s, r, id, accepted, answer, delay);
      r in t.requests && t.requests[r].pc.Failed? && t.store == s.store - {id}
  {
    ReadFirst(settings, s, r, id, accepted, answer, delay);
    var s2, rest := AfterRead(settings, s, r, id), Rest(r, accepted, answer, delay);
    if id in s.store {
      assert rest == rest[..4] + [Drop(r, false)];
      DropsAtTheEnd(settings, s2, r, rest[..4]);
    } else {
      SettledWaits(settings, s2, r, rest);
    }
  }

  /** The access token is still good: revalidate when configured, then touch. */
  lemma FreshSession(
    settings: Settings, s: State, r: Req, id: Id, accepted: bool, answer: Option<TokenResponse>, delay: nat)
    requires r !in s.requests && id in s.store && !IsExpired(settings, s.store[id], s.clock)
    requires s.clock < s.store[id].tokens.accessExpires
    ensures var t := ResolveAlone(settings, s, r, id, accepted, answer, delay);
      r in t.requests &&
      if settings.revalidates && !accepted then
        t.requests[r].pc.Failed? && t.store == s.store - {id}
      else
        && t.requests[r].pc == Succeeded(s.store[id].(lastSeen := Some(s.clock)))
        && t.store == Touched(s.store, id, s.clock)
  {
    ReadFirst(settings, s, r, id, accepted, answer, delay);
    AfterAFastRead(settings, AfterRead(settings, s, r, id), r, accepted, answer, delay);
  }

  /** The access token is stale: everything is decided under the lock. */
  lemma StaleSession(
    settings: Settings, s: State, r: Req, id: Id, accepted: bool, answer: Option<TokenResponse>, delay: nat)
    requires r !in s.requests && id in s.store && !IsExpired(settings, s.store[id], s.clock)
    requires s.store[id].tokens.accessExpires <= s.clock
    ensures ResolveAlone(settings, s, r, id, accepted, answer, delay)
         == Next(settings, LockStep(settings, Waiting(s, r, id, delay), r, answer), Drop(r, false))
  {
    ReadFirst(settings, s, r, id, accepted, answer, delay);
    var s2, rest := AfterRead(settings, s, r, id), Rest(r, accepted, answer, delay);
    assert Run(settings, s2, rest) == Run(settings, s2, rest[1..]);
    assert Run(settings, s2, rest[1..]) == Run(settings, s2, rest[1..][1..]);
    assert rest[1..][1..] == [Tick(delay), Lock(r, answer), Drop(r, false)];
    LockThenDrop(settings, s2, r, delay, answer);
    assert s2.(clock := s2.clock + delay) == Waiting(s, r, id, delay);
  }

  /** A request that reached its lock `delay` after it read its clock. */
  function Waiting(s: State, r: Req, id: Id, delay: nat): State {
    s.(clock := s.clock + delay, requests := s.requests[r := Request(id, s.clock, Locking)])
  }

  lemma LockThenDrop(settings: Settings, s: State, r: Req, delay: nat, answer: Option<TokenResponse>)
    requires r in s.requests && s.requests[r].pc.Locking?
    ensures Run(settings, s, [Tick(delay), Lock(r, answer), Drop(r, false)])
         == Next(settings, LockStep(settings, s.(clock := s.clock + delay), r, answer), Drop(r, false))
  {
    var steps := [Tick(delay), Lock(r, answer), Drop(r, false)];
    assert steps[1..] == [Lock(r, answer), Drop(r, false)] && steps[1..][1..] == [Drop(r, false)];
    assert [Drop(r, false)][1..] == [];
    var s1 := s.(clock := s.clock + delay);
    var s2 := LockStep(settings, s1, r, answer);
    assert Run(settings, s, steps) == Run(settings, s1, steps[1..]);
    assert Run(settings, s1, steps[1..]) == Run(settings, s2, [Drop(r, false)]);
    assert Run(settings, s2, [Drop(r, false)]) == Run(settings, Next(settings, s2, Drop(r, false)), []);
  }

  lemma DropsAtTheEnd(settings: Settings, s: State, r: Req, waits: seq<Action>)
    requires r in s.requests && s.requests[r].pc.Dropping?
    requires forall a <- waits :: Belongs(a, r) && !a.Drop?
    ensures var t := Run(settings, s, waits + [Drop(r, false)]);
      && r in t.requests && t.requests[r].pc.Failed?
      && t.store == s.store - {s.requests[r].id}
  {
    var drop := Drop(r, false);
    RunAppend(settings, s, waits, [drop]);
    SettledWaits(settings, s, r, waits);
    assert [drop][1..] == [];
  }

  lemma AfterAFastRead(
    settings: Settings, s: State, r: Req, accepted: bool, answer: Option<TokenResponse>, delay: nat)
    requires r in s.requests
    requires var pc := s.requests[r].pc; if settings.revalidates then pc.Verifying? else pc.Touching?
    ensures var rq := s.requests[r];
      var t := Run(settings, s, [Verify(r, accepted), Touch(r, false), Tick(delay), Lock(r, answer), Drop(r, false)]);
      r in t.requests &&
      if settings.revalidates && !accepted then
        t.requests[r].pc.Failed? && t.store == s.store - {rq.id}
      else
        && t.requests[r].pc == Succeeded(rq.pc.snapshot.(lastSeen := Some(rq.now)))
        && t.store == Touched(s.store, rq.id, rq.now)
  {
    var steps := [Verify(r, accepted), Touch(r, false), Tick(delay), Lock(r, answer), Drop(r, false)];
    var s1 := Next(settings, s, steps[0]);
    assert Run(settings, s, steps) == Run(settings, s1, steps[1..]);
    if settings.revalidates && !accepted {
      assert steps[1..] == steps[1..4] + [Drop(r, false)];
      DropsAtTheEnd(settings, s1, r, steps[1..4]);
    } else {
      var s2 := Next(settings, s1, steps[1]);
      assert Run(settings, s1, steps[1..]) == Run(settings, s2, steps[1..][1..]);
      SettledWaits(settings, s2, r, steps[1..][1..]);
    }
  }

  // ----- what the operations leave, field by field ------------------------

  /** The tokens of an answer received at `clock`: the access token with its type and lifetime,
      five minutes when none is given, are the answer's own; what else it leaves out stays. */
  predicate CarriesAnswer(ts: TokenSet, answer: TokenResponse, previous: TokenSet, clock: Time) {
    && ts.access == answer.access && ts.tokenType == answer.tokenType
    && ts.accessExpires == (if answer.expiresIn == None then clock + 300_000_000_000
                            else clock + answer.expiresIn.value)
    && ts.refresh == (if answer.refresh == "" then previous.refresh else answer.refresh)
    && ts.idToken == (if answer.idToken == "" then previous.idToken else answer.idToken)
    && ts.scopes == (if answer.scopes == None then previous.scopes else answer.scopes.value)
    && ts.refreshExpires == (if answer.refreshExpiresIn.Some? && answer.refreshExpiresIn.value > 0.0
                             then Some(clock + answer.refreshExpiresIn.value.Floor * 1_000_000_000)
                             else previous.refreshExpires)
  }

  /** The ceiling: the expiry of the access token when there is no refresh token, else of the
      refresh token, thirty days from the login when that is not known; and not past the
      absolute timeout. */
  predicate AtCeiling(s: Session, absoluteTimeout: int) {
    var granted :=
      if s.tokens.refresh == "" then s.tokens.accessExpires
      else if s.tokens.refreshExpires == None then s.createdAt + 2_592_000_000_000_000
      else s.tokens.refreshExpires.value;
    if absoluteTimeout > 0 && s.createdAt + absoluteTimeout < granted
    then s.expiresAt == s.createdAt + absoluteTimeout
    else s.expiresAt == granted
  }

  /** Neither at its ceiling nor idle for longer than allowed. */
  predicate Usable(sessions: map<Id, Session>, id: Id, now: Time, idleTimeout: int) {
    && id in sessions && now < sessions[id].expiresAt
    && (idleTimeout > 0 && sessions[id].lastSeen.Some? ==> now <= sessions[id].lastSeen.value + idleTimeout)
  }

  /** `after` is `before` with the tokens of the answer, used now. */
  predicate RefreshedBy(
    after: Session, before: Session, answer: TokenResponse, now: Time, clock: Time, absoluteTimeout: int)
  {
    && after.id == before.id && after.claims == before.claims && after.createdAt == before.createdAt
    && after.updatedAt == now && after.lastSeen == Some(now)
    && CarriesAnswer(after.tokens, answer, before.tokens, clock) && AtCeiling(after, absoluteTimeout)
  }

  class SessionManager {
    const settings: Settings
    const store: SessionStore

    constructor (settings: Settings, store: SessionStore)
      ensures this.settings == settings && this.store == store
    {
      this.settings := settings;
      this.store := store;
    }

    /** Persists a session for a fresh token set; `clock` is read while the
        tokens are converted, after `now`. */
    method Create(id: Id, response: TokenResponse, claims: Claims, now: Time, clock: Time) returns (s: Session)
      modifies store
      ensures s == NewSession(settings, id, response, claims, now, clock)
      ensures s.id == id && s.claims == claims && s.createdAt == s.updatedAt == now && s.lastSeen == None
      ensures CarriesAnswer(s.tokens, response, TokenSet("", "", "", "", [], 0, None), clock)
      ensures AtCeiling(s, settings.absoluteTimeout)
      ensures store.sessions == old(store.sessions)[id := s]
      ensures forall world: State | world.store == old(store.sessions) && world.clock == clock && now <= clock
                                    && id !in world.used && world.issuer.MayIssue(response.refresh, "") ::
                Next(settings, world, Action.Create(id, response, claims, now)).store == store.sessions
    {
      var tokens := ConvertTokens(response, NO_TOKENS, clock);
      s := Session(id, tokens, claims, 0, now, now, None);
      s := s.(expiresAt := ComputeExpiresAt(settings, s));
      store.Create(s);
    }

    method Resolve(
      id: Id, now: Time, accepted: bool, answer: Option<TokenResponse>, delay: nat, ghost world: State, ghost r: Req)
      returns (result: Option<Session>)
      requires world.store == store.sessions && world.clock == now && r !in world.requests
      requires answer.Some? && id in store.sessions ==>
                 world.issuer.MayIssue(answer.value.refresh, store.sessions[id].tokens.refresh)
      modifies store
      ensures var t := ResolveAlone(settings, world, r, id, accepted, answer, delay);
        && store.sessions == t.store
        && r in t.requests
        && t.requests[r].pc == if result.Some? then Succeeded(result.value) else Failed
      ensures var before := old(store.sessions);
        var usable := Usable(before, id, now, settings.idleTimeout);
        var current := usable && now < before[id].tokens.accessExpires;
        && (result.Some? <==>
              usable && if current then settings.revalidates ==> accepted
                        else before[id].tokens.refresh != "" && answer.Some?)
        && store.sessions == (if result.Some? then before[id := result.value] else before - {id})
        && (result.Some? ==>
              if current then result.value == before[id].(lastSeen := Some(now))
              else RefreshedBy(result.value, before[id], answer.value, now, now + delay, settings.absoluteTimeout))
    {
      var found := store.Get(id);
      if found.None? {
        UnusableSession(settings, world, r, id, accepted, answer, delay);
        return None;
      }
      var s := found.value;
      if IsExpired(settings, s, now) {
        UnusableSession(settings, world, r, id, accepted, answer, delay);
        store.Delete(id);
        return None;
      }
      if now < s.tokens.accessExpires {
        FreshSession(settings, world, r, id, accepted, answer, delay);
        if settings.revalidates && !accepted {
          store.Delete(id);
          return None;
        }
        store.Touch(id, now);
        s := s.(lastSeen := Some(now));
        return Some(s);
      }
      StaleSession(settings, world, r, id, accepted, answer, delay);
      result := Refresh(id, now, now + delay, answer, Waiting(world, r, id, delay), r);
    }

    /** The refresh under the session's lock, and the delete after a rejection. */
    method Refresh(
      id: Id, now: Time, clock: Time, answer: Option<TokenResponse>, ghost world: State, ghost r: Req)
      returns (result: Option<Session>)
      requires world.store == store.sessions && world.clock == clock
      requires At(world, r) && world.requests[r] == Request(id, now, Locking)
      requires answer.Some? && id in store.sessions ==>
                 world.issuer.MayIssue(answer.value.refresh, store.sessions[id].tokens.refresh)
      modifies store
      ensures var t := Next(settings, LockStep(settings, world, r, answer), Drop(r, false));
        && store.sessions == t.store
        && t.requests[r].pc == if result.Some? then Succeeded(result.value) else Failed
      ensures var before := old(store.sessions);
        var current := id in before && now < before[id].tokens.accessExpires;
        && (result.Some? <==>
              current || (Usable(before, id, now, settings.idleTimeout)
                          && before[id].tokens.refresh != "" && answer.Some?))
        && (if current then result == Some(before[id]) && store.sessions == before
            else if result.Some? then
              && store.sessions == before[id := result.value]
              && RefreshedBy(result.value, before[id], answer.value, now, clock, settings.absoluteTimeout)
            else store.sessions == before - {id})
    {
      var found := store.Get(id);
      if found.None? {
        store.Delete(id);
        return None;
      }
      var locked := found.value;
      if now < locked.tokens.accessExpires {
        return Some(locked);
      }
      if IsExpired(settings, locked, now) || locked.tokens.refresh == "" || answer.None? {
        store.Delete(id);
        return None;
      }
      var tokens := ConvertTokens(answer.value, locked.tokens, clock);
      locked := locked.(tokens := tokens);
      locked := locked.(expiresAt := ComputeExpiresAt(settings, locked));
      locked := locked.(updatedAt := now);
      locked := locked.(lastSeen := Some(now));
      store.Replace(id, locked);
      return Some(locked);
    }

    /** Fills the new token set field by field, falling back to the previous one. */
    method ConvertTokens(response: TokenResponse, previous: TokenSet, clock: Time) returns (ts: TokenSet)
      ensures ts == TokenSetFrom(response, previous, clock)
      ensures CarriesAnswer(ts, response, previous, clock)
    {
      ts := previous.(access := response.access, tokenType := response.tokenType);
      match response.expiresIn {
        case Some(lifetime) => ts := ts.(accessExpires := clock + lifetime);
        case None => ts := ts.(accessExpires := clock + DEFAULT_ACCESS_TTL);
      }
      if response.refresh != "" {
        ts := ts.(refresh := response.refresh);
      }
      if response.idToken != "" {
        ts := ts.(idToken := response.idToken);
      }
      if ReportsRefreshLifetime(response) {
        ts := ts.(refreshExpires := Some(clock + response.refreshExpiresIn.value.Floor * SECOND));
      }
      if response.scopes.Some? {
        ts := ts.(scopes := response.scopes.value);
      }
    }

    method Delete(id: Id)
      modifies store
      ensures store.sessions == old(store.sessions) - {id}
      ensures forall world: State | world.store == old(store.sessions) ::
                Next(settings, world, Logout(id)) == world.(store := store.sessions)
    {
      store.Delete(id);
    }

    method CleanupExpired(now: Time) returns (removed: nat)
      modifies store
      ensures store.sessions == WithoutExpired(old(store.sessions), now)
      ensures forall id :: id in store.sessions <==> id in old(store.sessions) && now < old(store.sessions)[id].expiresAt
      ensures forall id <- store.sessions :: store.sessions[id] == old(store.sessions)[id]
      ensures removed == |old(store.sessions)| - |store.sessions|
      ensures forall world: State | world.store == old(store.sessions) ::
                Next(settings, world, Cleanup(now)) == world.(store := store.sessions)
    {
      removed := store.DeleteExpired(now);
    }
  }
}
