/** The session protocol as a transition system. Any number of requests run the
    steps of `Resolve`, each deciding on a snapshot that other requests may have
    made stale. The store meets its contract: every call is atomic, and
    `WithLock`, with the refresh grant inside it, is one step. An action that is
    not enabled leaves the state alone, so every sequence of actions is a run. */
module SessionProtocol {
  import opened Prelude
  import opened Sessions

  type Req = nat

  datatype Pc =
    | Fetching
    | Verifying(snapshot: Session)
    | Touching(snapshot: Session)
    | Locking
    | Dropping
    | Succeeded(session: Session)
    | Failed

  /** One call of `Resolve`: `now` is captured once, before the first read. */
  datatype Request = Request(id: Id, now: Time, pc: Pc)

  /** The issuer knows which login every refresh token it ever issued belongs to,
      and which one is the login's current token (section 6 of RFC 6749). */
  datatype Issuer = Issuer(owner: map<string, Id>, current: map<Id, string>) {
    /** Rotated away: presenting it is a replay (section 10.4 of RFC 6749). */
    predicate Spent(token: string) {
      token !in owner || owner[token] !in current || current[owner[token]] != token
    }

    /** The issuer never hands out a token twice, except by not rotating. */
    predicate MayIssue(token: string, presented: string) {
      token == "" || token == presented || token !in owner
    }

    function Register(id: Id, token: string): Issuer {
      if token == "" then this else Issuer(owner[token := id], current[id := token])
    }

    /** A successful grant: an answer carrying a refresh token rotates. */
    function Rotate(presented: string, token: string): Issuer {
      if presented in owner then Register(owner[presented], token) else this
    }
  }

  /** One refresh grant: what was presented, whether it was spent at that moment,
      and the tokens stored when the issuer agreed. */
  datatype Grant = Grant(id: Id, caller: Req, now: Time, presented: string, spent: bool, stored: Option<TokenSet>)

  datatype State = State(
    clock: Time,
    store: map<Id, Session>,
    used: set<Id>,
    issuer: Issuer,
    requests: map<Req, Request>,
    grants: seq<Grant>)

  datatype Action =
    | Tick(d: nat)
    | Create(id: Id, response: TokenResponse, claims: Claims, at: Time)
    | Begin(r: Req, id: Id)
    | Fetch(r: Req, down: bool)
    | Verify(r: Req, accepted: bool)
    | Touch(r: Req, lost: bool)
    | Lock(r: Req, answer: Option<TokenResponse>)
    | Drop(r: Req, lost: bool)
    | Logout(id: Id)
    | Cleanup(at: Time)

  const INITIAL := State(0, map[], {}, Issuer(map[], map[]), map[], [])

  // ----- store steps ------------------------------------------------------

  function WithoutExpired(store: map<Id, Session>, at: Time): map<Id, Session> {
    map id | id in store && at < store[id].expiresAt :: store[id]
  }

  function Touched(store: map<Id, Session>, id: Id, at: Time): map<Id, Session> {
    if id in store then store[id := store[id].(lastSeen := Some(at))] else store
  }

  function SetPc(s: State, r: Req, pc: Pc): State
    requires r in s.requests
  {
    s.(requests := s.requests[r := s.requests[r].(pc := pc)])
  }

  predicate At(s: State, r: Req) { r in s.requests }

  // ----- the steps of Resolve ---------------------------------------------

  function FetchStep(settings: Settings, s: State, r: Req, down: bool): State
    requires At(s, r)
  {
    var rq := s.requests[r];
    if down || rq.id !in s.store then SetPc(s, r, Failed)
    else
      var x := s.store[rq.id];
      if IsExpired(settings, x, rq.now) then SetPc(s, r, Dropping)
      else if rq.now < x.tokens.accessExpires then
        SetPc(s, r, if settings.revalidates then Verifying(x) else Touching(x))
      else SetPc(s, r, Locking)
  }

  /** `WithLock` around the refresh callback; `answer` is the issuer's, when asked. */
  function LockStep(settings: Settings, s: State, r: Req, answer: Option<TokenResponse>): State
    requires At(s, r)
  {
    var rq := s.requests[r];
    if rq.id !in s.store then SetPc(s, r, Dropping)
    else
      var locked := s.store[rq.id];
      if rq.now < locked.tokens.accessExpires then SetPc(s, r, Succeeded(locked))
      else if !AsksIssuer(settings, locked, rq.now) then SetPc(s, r, Dropping)
      else
        var presented := locked.tokens.refresh;
        var spent := s.issuer.Spent(presented);
        if answer.None? then
          SetPc(s, r, Dropping).(grants := s.grants + [Grant(rq.id, r, rq.now, presented, spent, None)])
        else if !s.issuer.MayIssue(answer.value.refresh, presented) then s
        else
          var x := Renewed(settings, locked, answer.value, rq.now, s.clock);
          SetPc(s, r, Succeeded(x)).(
            store := s.store[rq.id := x],
            issuer := s.issuer.Rotate(presented, answer.value.refresh),
            grants := s.grants + [Grant(rq.id, r, rq.now, presented, spent, Some(x.tokens))])
  }

  function Next(settings: Settings, s: State, a: Action): State {
    match a
    case Tick(d) => s.(clock := s.clock + d)
    case Create(id, response, claims, at) =>
      if id in s.used || at > s.clock || !s.issuer.MayIssue(response.refresh, "") then s
      else s.(
        store := s.store[id := NewSession(settings, id, response, claims, at, s.clock)],
        used := s.used + {id},
        issuer := s.issuer.Register(id, response.refresh))
    case Begin(r, id) =>
      if At(s, r) then s else s.(requests := s.requests[r := Request(id, s.clock, Fetching)])
    case Fetch(r, down) =>
      if At(s, r) && s.requests[r].pc.Fetching? then FetchStep(settings, s, r, down) else s
    case Verify(r, accepted) =>
      if At(s, r) && s.requests[r].pc.Verifying?
      then SetPc(s, r, if accepted then Touching(s.requests[r].pc.snapshot) else Dropping)
      else s
    case Touch(r, lost) =>
      if At(s, r) && s.requests[r].pc.Touching? then
        var rq := s.requests[r];
        var seen := SetPc(s, r, Succeeded(rq.pc.snapshot.(lastSeen := Some(rq.now))));
        if lost then seen else seen.(store := Touched(s.store, rq.id, rq.now))
      else s
    case Lock(r, answer) =>
      if At(s, r) && s.requests[r].pc.Locking? then LockStep(settings, s, r, answer) else s
    case Drop(r, lost) =>
      if At(s, r) && s.requests[r].pc.Dropping? then
        var failed := SetPc(s, r, Failed);
        if lost then failed else failed.(store := s.store - {s.requests[r].id})
      else s
    case Logout(id) => s.(store := s.store - {id})
    case Cleanup(at) => s.(store := WithoutExpired(s.store, at))
  }

  function Run(settings: Settings, s: State, actions: seq<Action>): State
    decreases |actions|
  {
    if actions == [] then s else Run(settings, Next(settings, s, actions[0]), actions[1..])
  }
}
