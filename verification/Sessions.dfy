/** The session record and the rules that only compute: oidcauth/session.go and
    the pure half of oidcauth/session_manager.go. */
module Sessions {
  import opened Prelude

  type Id = string

  datatype TokenSet = TokenSet(
    access: string,
    refresh: string,
    idToken: string,
    tokenType: string,
    scopes: seq<string>,
    accessExpires: Time,
    refreshExpires: Option<Time>)

  datatype Session = Session(
    id: Id,
    tokens: TokenSet,
    claims: Claims,
    expiresAt: Time,
    createdAt: Time,
    updatedAt: Time,
    lastSeen: Option<Time>)

  /** A token endpoint answer. Lifetimes are relative, as on the wire; an empty
      string or `None` means the issuer left the field out. */
  datatype TokenResponse = TokenResponse(
    access: string,
    tokenType: string,
    expiresIn: Option<int>,
    refresh: string,
    idToken: string,
    refreshExpiresIn: Option<real>,
    scopes: Option<seq<string>>)

  datatype Settings = Settings(idleTimeout: int, absoluteTimeout: int, revalidates: bool)

  const DEFAULT_ACCESS_TTL: int := 5 * MINUTE
  const DEFAULT_REFRESH_TTL: int := 30 * 24 * 60 * MINUTE
  const NO_TOKENS := TokenSet("", "", "", "", [], 0, None)

  /** `clock` is the instant the answer is turned into a token set. */
  function TokenSetFrom(response: TokenResponse, previous: TokenSet, clock: Time): TokenSet {
    TokenSet(
      response.access,
      if response.refresh != "" then response.refresh else previous.refresh,
      if response.idToken != "" then response.idToken else previous.idToken,
      response.tokenType,
      if response.scopes.Some? then response.scopes.value else previous.scopes,
      clock + (if response.expiresIn.Some? then response.expiresIn.value else DEFAULT_ACCESS_TTL),
      if ReportsRefreshLifetime(response)
      then Some(clock + response.refreshExpiresIn.value.Floor * SECOND)
      else previous.refreshExpires)
  }

  predicate ReportsRefreshLifetime(response: TokenResponse) {
    response.refreshExpiresIn.Some? && response.refreshExpiresIn.value > 0.0
  }

  function ComputeExpiresAt(settings: Settings, s: Session): Time {
    var ceiling :=
      if s.tokens.refresh == "" then s.tokens.accessExpires
      else if s.tokens.refreshExpires.Some? then s.tokens.refreshExpires.value
      else s.createdAt + DEFAULT_REFRESH_TTL;
    if settings.absoluteTimeout > 0
    then Min(s.createdAt + settings.absoluteTimeout, ceiling)
    else ceiling
  }

  predicate IsExpired(settings: Settings, s: Session, now: Time) {
    || s.expiresAt <= now
    || (settings.idleTimeout > 0 && s.lastSeen.Some? && now - s.lastSeen.value > settings.idleTimeout)
  }

  function NewSession(settings: Settings, id: Id, response: TokenResponse, claims: Claims, now: Time, clock: Time)
    : Session
  {
    var s := Session(id, TokenSetFrom(response, NO_TOKENS, clock), claims, 0, now, now, None);
    s.(expiresAt := ComputeExpiresAt(settings, s))
  }

  /** What the refresh callback stores after a successful grant. */
  function Renewed(settings: Settings, locked: Session, response: TokenResponse, now: Time, clock: Time): Session {
    var s := locked.(tokens := TokenSetFrom(response, locked.tokens, clock));
    s.(expiresAt := ComputeExpiresAt(settings, s), updatedAt := now, lastSeen := Some(now))
  }

  /** The refresh callback reaches the issuer. */
  predicate AsksIssuer(settings: Settings, locked: Session, now: Time) {
    && locked.tokens.accessExpires <= now
    && !IsExpired(settings, locked, now)
    && locked.tokens.refresh != ""
  }

  /** The session has not reached CreatedAt + AbsoluteTimeout, when there is one. */
  predicate UnderCap(settings: Settings, s: Session, now: Time) {
    settings.absoluteTimeout > 0 ==> now < s.createdAt + settings.absoluteTimeout
  }

  // ----- the ceiling under a refresh --------------------------------------

  /** A refresh never drops the refresh token, and without a reported refresh
      lifetime it leaves a consistent ceiling exactly where it was. */
  lemma RefreshWithoutLifetimeKeepsCeiling(
    settings: Settings, s: Session, response: TokenResponse, now: Time, clock: Time)
    requires s.tokens.refresh != "" && s.expiresAt == ComputeExpiresAt(settings, s)
    requires !ReportsRefreshLifetime(response)
    ensures Renewed(settings, s, response, now, clock).tokens.refresh != ""
    ensures Renewed(settings, s, response, now, clock).expiresAt == s.expiresAt
  {
    var r := Renewed(settings, s, response, now, clock);
    assert r.tokens.refreshExpires == s.tokens.refreshExpires && r.createdAt == s.createdAt;
  }

  /** "A session's ceiling can only ever stay the same or shrink" is not what the
      code does: exactly these refreshes keep it from moving later. */
  lemma CeilingStaysOrShrinksIff(settings: Settings, s: Session, response: TokenResponse, now: Time, clock: Time)
    requires s.tokens.refresh != "" && s.expiresAt == ComputeExpiresAt(settings, s)
    ensures Renewed(settings, s, response, now, clock).expiresAt <= s.expiresAt <==>
            || !ReportsRefreshLifetime(response)
            || clock + response.refreshExpiresIn.value.Floor * SECOND <= s.expiresAt
            || (settings.absoluteTimeout > 0 && s.expiresAt == s.createdAt + settings.absoluteTimeout)
  {
    if !ReportsRefreshLifetime(response) {
      RefreshWithoutLifetimeKeepsCeiling(settings, s, response, now, clock);
    }
  }

  /** A one-hour session whose issuer grants another hour at minute fifty moves
      its ceiling from minute 60 to minute 110. */
  lemma CeilingCanMoveLater()
    ensures
      var settings := Settings(0, 0, false);
      var login := TokenResponse("a", "Bearer", Some(5 * MINUTE), "r", "", Some(3600.0), None);
      var s := NewSession(settings, "id", login, Claims("u", 0.0, {}), 0, 0);
      && s.expiresAt == 60 * MINUTE
      && Renewed(settings, s, login, 50 * MINUTE, 50 * MINUTE).expiresAt == 110 * MINUTE
  {
  }
}
