/** What holds in every reachable state of the session protocol. */
module SessionSafety {
  import opened Prelude
  import opened Sessions
  import opened SessionProtocol

  // ----- two kinds of step ------------------------------------------------

  /** Apart from logins and locked refreshes, a step only removes sessions and
      moves LastSeenAt. */
  ghost predicate Quiet(s: State, t: State) {
    && t.issuer == s.issuer && t.used == s.used && t.grants == s.grants
    && (forall id <- t.store ::
          id in s.store && t.store[id] == s.store[id].(lastSeen := t.store[id].lastSeen))
  }

  predicate Issues(a: Action) { a.Create? || a.Lock? }

  lemma OtherStepsAreQuiet(settings: Settings, s: State, a: Action)
    requires !Issues(a)
    ensures Quiet(s, Next(settings, s, a))
  {
  }

  // ----- stored sessions --------------------------------------------------

  ghost predicate StoredOk(settings: Settings, s: State, id: Id) {
    && id in s.store && id in s.used
    && s.store[id].id == id
    && s.store[id].expiresAt == ComputeExpiresAt(settings, s.store[id])
    && (s.store[id].tokens.refresh != "" ==>
          && s.store[id].tokens.refresh in s.issuer.owner
          && s.issuer.owner[s.store[id].tokens.refresh] == id
          && id in s.issuer.current
          && s.issuer.current[id] == s.store[id].tokens.refresh)
  }

  ghost predicate StoreInv(settings: Settings, s: State) {
    && (forall id <- s.store :: StoredOk(settings, s, id))
    && "" !in s.issuer.owner
    && (forall t <- s.issuer.owner :: s.issuer.owner[t] in s.used)
    && (forall g <- s.grants :: !g.spent)
  }

  /** A grant by the holder of a session's current token keeps every other login's current token. */
  lemma StoreInvLock(settings: Settings, s: State, r: Req, answer: Option<TokenResponse>)
    requires StoreInv(settings, s) && At(s, r)
    ensures StoreInv(settings, LockStep(settings, s, r, answer))
  {
    var t := LockStep(settings, s, r, answer);
    var id := s.requests[r].id;
    if id in s.store {
      assert StoredOk(settings, s, id);
    }
    forall other | other in t.store
      ensures StoredOk(settings, t, other)
    {
      assert StoredOk(settings, s, other);
    }
  }

  lemma StoreInvQuiet(settings: Settings, s: State, t: State)
    requires StoreInv(settings, s) && Quiet(s, t)
    ensures StoreInv(settings, t)
  {
    forall id | id in t.store ensures StoredOk(settings, t, id) { assert StoredOk(settings, s, id); }
  }

  /** A login's token is new, so it disturbs no other login. */
  lemma StoreInvCreate(settings: Settings, s: State, id: Id, response: TokenResponse, claims: Claims, at: Time)
    requires StoreInv(settings, s)
    ensures StoreInv(settings, Next(settings, s, Create(id, response, claims, at)))
  {
    var t := Next(settings, s, Create(id, response, claims, at));
    forall other | other in t.store
      ensures StoredOk(settings, t, other)
    {
      if other in s.store { assert StoredOk(settings, s, other); }
    }
  }

  lemma StoreInvStep(settings: Settings, s: State, a: Action)
    requires StoreInv(settings, s)
    ensures StoreInv(settings, Next(settings, s, a))
  {
    if a.Lock? {
      if At(s, a.r) { StoreInvLock(settings, s, a.r, a.answer); }
    } else if a.Create? {
      StoreInvCreate(settings, s, a.id, a.response, a.claims, a.at);
    } else {
      OtherStepsAreQuiet(settings, s, a);
      StoreInvQuiet(settings, s, Next(settings, s, a));
    }
  }

  lemma {:induction false} StoreInvRun(settings: Settings, s: State, actions: seq<Action>)
    requires StoreInv(settings, s)
    ensures StoreInv(settings, Run(settings, s, actions))
    decreases |actions|
  {
    if actions != [] {
      StoreInvStep(settings, s, actions[0]);
      StoreInvRun(settings, Next(settings, s, actions[0]), actions[1..]);
    }
  }

  /** In every interleaving, the refresh token stored for a live session is the
      issuer's current one for that login, its ceiling is the formula's value and
      is capped by the absolute timeout, and no grant ever presented a spent token. */
  lemma StoredTokensAreCurrent(settings: Settings, actions: seq<Action>)
    ensures var t := Run(settings, INITIAL, actions);
      && (forall id <- t.store :: StoredOk(settings, t, id))
      && (forall id <- t.store | settings.absoluteTimeout > 0 ::
            t.store[id].expiresAt <= t.store[id].createdAt + settings.absoluteTimeout)
      && (forall g <- t.grants :: !g.spent)
  {
    StoreInvRun(settings, INITIAL, actions);
    var t := Run(settings, INITIAL, actions);
    forall id | id in t.store && settings.absoluteTimeout > 0
      ensures t.store[id].expiresAt <= t.store[id].createdAt + settings.absoluteTimeout
    {
      assert StoredOk(settings, t, id);
    }
  }

  // ----- what a session keeps, and what stays gone ------------------------

  ghost predicate SameSession(x: Session, y: Session) {
    && y.id == x.id && y.claims == x.claims && y.createdAt == x.createdAt
    && (x.tokens.refresh != "" ==> y.tokens.refresh != "")
  }

  /** An id that has been used is either still the same session or gone for good. */
  ghost predicate Evolves(s: State, t: State) {
    && s.used <= t.used
    && (forall id <- t.store | id in s.used :: id in s.store && SameSession(s.store[id], t.store[id]))
  }

  lemma EvolvesStep(settings: Settings, s: State, a: Action)
    ensures Evolves(s, Next(settings, s, a))
  {
    var t := Next(settings, s, a);
    if a.Create? {
    } else if a.Lock? {
      if At(s, a.r) { assert Evolves(s, LockStep(settings, s, a.r, a.answer)); }
    } else {
      OtherStepsAreQuiet(settings, s, a);
    }
  }

  /** Every run keeps the id, claims and creation time of each session that
      survives it, never loses a refresh token, and never revives a used id that
      is not in the store. */
  lemma {:induction false} SessionsKeepTheirIdentity(settings: Settings, s: State, actions: seq<Action>)
    ensures Evolves(s, Run(settings, s, actions))
    decreases |actions|
  {
    if actions != [] {
      var t := Next(settings, s, actions[0]);
      EvolvesStep(settings, s, actions[0]);
      SessionsKeepTheirIdentity(settings, t, actions[1..]);
    }
  }

  /** `id` was used and is gone; no request outside `earlier` for it got past its read. */
  ghost predicate Gone(s: State, id: Id, earlier: set<Req>) {
    && id in s.used && id !in s.store
    && (forall r <- s.requests | s.requests[r].id == id && r !in earlier ::
          NotPast(s.requests[r].pc))
  }

  /** The request has not got past its read. */
  predicate NotPast(pc: Pc) { pc.Fetching? || pc.Dropping? || pc.Failed? }

  lemma GoneStep(settings: Settings, s: State, a: Action, id: Id, earlier: set<Req>)
    requires Gone(s, id, earlier)
    ensures Gone(Next(settings, s, a), id, earlier)
  {
    EvolvesStep(settings, s, a);
    var t := Next(settings, s, a);
    forall r | r in t.requests && t.requests[r].id == id && r !in earlier
      ensures NotPast(t.requests[r].pc)
    {
      GoneRequest(settings, s, a, id, r);
    }
  }

  lemma GoneRequest(settings: Settings, s: State, a: Action, id: Id, r: Req)
    requires id !in s.store && r in Next(settings, s, a).requests && Next(settings, s, a).requests[r].id == id
    requires r in s.requests && s.requests[r].id == id ==> NotPast(s.requests[r].pc)
    ensures NotPast(Next(settings, s, a).requests[r].pc)
  {
  }

  /** A session removed by logout, a failed resolve or cleanup never reappears,
      and no `Resolve` that starts afterwards succeeds for it. */
  lemma {:induction false} RemovedSessionsStayRemoved(settings: Settings, s: State, actions: seq<Action>, id: Id)
    requires id in s.used && id !in s.store
    ensures var t := Run(settings, s, actions);
      && id !in t.store
      && (forall r <- t.requests | r !in s.requests && t.requests[r].id == id :: !t.requests[r].pc.Succeeded?)
  {
    GoneRun(settings, s, actions, id, s.requests.Keys);
  }

  lemma {:induction false} GoneRun(settings: Settings, s: State, actions: seq<Action>, id: Id, earlier: set<Req>)
    requires Gone(s, id, earlier)
    ensures Gone(Run(settings, s, actions), id, earlier)
    decreases |actions|
  {
    if actions != [] {
      GoneStep(settings, s, actions[0], id, earlier);
      GoneRun(settings, Next(settings, s, actions[0]), actions[1..], id, earlier);
    }
  }

  // ----- what a successful Resolve returns --------------------------------

  /** The issuer never grants an access token that is already expired; when
      `whole`, refresh lifetimes it reports are at least a second. */
  ghost predicate PositiveAnswer(response: TokenResponse, whole: bool) {
    && (response.expiresIn.Some? ==> response.expiresIn.value > 0)
    && (whole && ReportsRefreshLifetime(response) ==> response.refreshExpiresIn.value >= 1.0)
  }

  ghost predicate Positive(a: Action, whole: bool) {
    a.Lock? && a.answer.Some? ==> PositiveAnswer(a.answer.value, whole)
  }

  ghost predicate Live(settings: Settings, x: Session, now: Time, whole: bool) {
    && UnderCap(settings, x, now)
    && (whole ==> now < x.expiresAt)
  }

  ghost predicate RequestOk(settings: Settings, s: State, r: Req, whole: bool)
    requires At(s, r)
  {
    var rq := s.requests[r];
    && rq.now <= s.clock
    && match rq.pc
       case Verifying(x) => x.id == rq.id && rq.now < x.tokens.accessExpires && Live(settings, x, rq.now, whole)
       case Touching(x) => x.id == rq.id && rq.now < x.tokens.accessExpires && Live(settings, x, rq.now, whole)
       case Succeeded(x) => x.id == rq.id && rq.now < x.tokens.accessExpires && Live(settings, x, rq.now, whole)
       case Locking => rq.id in s.used && (rq.id in s.store ==> Live(settings, s.store[rq.id], rq.now, whole))
       case _ => true
  }

  ghost predicate RequestInv(settings: Settings, s: State, whole: bool) {
    forall r <- s.requests :: RequestOk(settings, s, r, whole)
  }

  lemma RenewedIsLive(
    settings: Settings, x: Session, response: TokenResponse, now: Time, clock: Time, seen: Time, whole: bool)
    requires x.tokens.refresh != "" && x.expiresAt == ComputeExpiresAt(settings, x)
    requires PositiveAnswer(response, whole) && now <= clock
    requires Live(settings, x, now, whole)
    ensures var y := Renewed(settings, x, response, seen, clock);
      Live(settings, y, now, whole) && now < y.tokens.accessExpires
  {
    if !ReportsRefreshLifetime(response) {
      RefreshWithoutLifetimeKeepsCeiling(settings, x, response, seen, clock);
    }
  }

  /** The caller that holds the lock. */
  lemma LockerOk(settings: Settings, s: State, r: Req, answer: Option<TokenResponse>, whole: bool)
    requires StoreInv(settings, s) && At(s, r) && s.requests[r].pc.Locking? && RequestOk(settings, s, r, whole)
    requires answer.Some? ==> PositiveAnswer(answer.value, whole)
    ensures RequestOk(settings, LockStep(settings, s, r, answer), r, whole)
  {
    var rq := s.requests[r];
    if rq.id in s.store {
      assert StoredOk(settings, s, rq.id);
      var x := s.store[rq.id];
      if AsksIssuer(settings, x, rq.now) && answer.Some? {
        RenewedIsLive(settings, x, answer.value, rq.now, s.clock, rq.now, whole);
      }
    }
  }

  /** A bystander keeps its own snapshot, and a renewed session stays live for
      whoever read it before the renewal. */
  lemma BystanderOk(
    settings: Settings, s: State, r: Req, answer: Option<TokenResponse>, other: Req, whole: bool)
    requires StoreInv(settings, s) && At(s, r) && At(s, other) && other != r && RequestOk(settings, s, other, whole)
    requires answer.Some? ==> PositiveAnswer(answer.value, whole)
    ensures RequestOk(settings, LockStep(settings, s, r, answer), other, whole)
  {
    var t := LockStep(settings, s, r, answer);
    var id := s.requests[r].id;
    assert t.requests[other] == s.requests[other];
    if s.requests[other].id == id && id in s.store {
      assert StoredOk(settings, s, id);
      if s.requests[other].pc.Locking? && AsksIssuer(settings, s.store[id], s.requests[r].now) && answer.Some? {
        RenewedIsLive(settings, s.store[id], answer.value, s.requests[other].now, s.clock, s.requests[r].now, whole);
      }
    }
  }

  /** The unlocked read decides on what it just saw. */
  lemma FetchOk(settings: Settings, s: State, r: Req, down: bool, whole: bool)
    requires StoreInv(settings, s) && At(s, r) && RequestOk(settings, s, r, whole)
    ensures RequestOk(settings, FetchStep(settings, s, r, down), r, whole)
  {
    var id := s.requests[r].id;
    if id in s.store { assert StoredOk(settings, s, id); }
  }

  /** Apart from its own read and lock, a request keeps the session it has seen, and
      decides on nothing else. */
  ghost predicate SamePath(before: Request, after: Request) {
    && after.id == before.id && after.now == before.now
    && match after.pc
       case Verifying(_) => after.pc == before.pc
       case Touching(x) => after.pc == before.pc || before.pc == Verifying(x)
       case Succeeded(x) => after.pc == before.pc ||
         (before.pc.Touching? && x == before.pc.snapshot.(lastSeen := x.lastSeen))
       case Locking => before.pc.Locking?
       case _ => true
  }

  lemma QuietPath(settings: Settings, s: State, a: Action, r: Req)
    requires !Issues(a) && At(s, r) && !(a.Fetch? && a.r == r)
    ensures At(Next(settings, s, a), r) && SamePath(s.requests[r], Next(settings, s, a).requests[r])
    ensures s.clock <= Next(settings, s, a).clock
  {
  }

  lemma QuietRequestOk(settings: Settings, s: State, t: State, r: Req, whole: bool)
    requires Quiet(s, t) && s.clock <= t.clock && At(s, r) && At(t, r) && SamePath(s.requests[r], t.requests[r])
    requires RequestOk(settings, s, r, whole)
    ensures RequestOk(settings, t, r, whole)
  {
  }

  lemma QuietStepOk(settings: Settings, s: State, a: Action, r: Req, whole: bool)
    requires StoreInv(settings, s) && !Issues(a) && At(s, r) && RequestOk(settings, s, r, whole)
    ensures At(Next(settings, s, a), r) && RequestOk(settings, Next(settings, s, a), r, whole)
  {
    if a.Fetch? && a.r == r {
      FetchOk(settings, s, r, a.down, whole);
    } else {
      OtherStepsAreQuiet(settings, s, a);
      QuietPath(settings, s, a, r);
      QuietRequestOk(settings, s, Next(settings, s, a), r, whole);
    }
  }

  lemma RequestInvStep(settings: Settings, s: State, a: Action, whole: bool)
    requires StoreInv(settings, s) && RequestInv(settings, s, whole) && Positive(a, whole)
    ensures RequestInv(settings, Next(settings, s, a), whole)
  {
    var t := Next(settings, s, a);
    forall r | r in t.requests
      ensures RequestOk(settings, t, r, whole)
    {
      if r in s.requests {
        assert RequestOk(settings, s, r, whole);
        if !Issues(a) {
          QuietStepOk(settings, s, a, r, whole);
        } else if a.Lock? && At(s, a.r) && s.requests[a.r].pc.Locking? {
          if r == a.r {
            LockerOk(settings, s, r, a.answer, whole);
          } else {
            BystanderOk(settings, s, a.r, a.answer, r, whole);
          }
        }
      }
    }
  }

  lemma {:induction false} RequestInvRun(settings: Settings, s: State, actions: seq<Action>, whole: bool)
    requires StoreInv(settings, s) && RequestInv(settings, s, whole)
    requires forall a <- actions :: Positive(a, whole)
    ensures RequestInv(settings, Run(settings, s, actions), whole)
    decreases |actions|
  {
    if actions != [] {
      StoreInvStep(settings, s, actions[0]);
      RequestInvStep(settings, s, actions[0], whole);
      RequestInvRun(settings, Next(settings, s, actions[0]), actions[1..], whole);
    }
  }

  /** Whatever other requests do between its unlocked read and its lock, a
      `Resolve` that succeeds, by any of its exits, returns the session it was
      asked for with an access token still good at its own `now` and before the
      absolute cap. */
  lemma SuccessfulResolveIsFresh(settings: Settings, actions: seq<Action>, r: Req)
    requires forall a <- actions :: Positive(a, false)
    ensures var t := Run(settings, INITIAL, actions);
      r in t.requests && t.requests[r].pc.Succeeded? ==>
        var rq := t.requests[r];
        var x := rq.pc.session;
        && x.id == rq.id
        && rq.now < x.tokens.accessExpires
        && (settings.absoluteTimeout > 0 ==> rq.now < x.createdAt + settings.absoluteTimeout)
  {
    RequestInvRun(settings, INITIAL, actions, false);
    var t := Run(settings, INITIAL, actions);
    if r in t.requests { assert RequestOk(settings, t, r, false); }
  }

  /** When reported refresh lifetimes are at least a second, the returned session
      is also still below its own ceiling. */
  lemma SuccessfulResolveIsBelowItsCeiling(settings: Settings, actions: seq<Action>, r: Req)
    requires forall a <- actions :: Positive(a, true)
    ensures var t := Run(settings, INITIAL, actions);
      r in t.requests && t.requests[r].pc.Succeeded? ==>
        t.requests[r].now < t.requests[r].pc.session.expiresAt
  {
    RequestInvRun(settings, INITIAL, actions, true);
    var t := Run(settings, INITIAL, actions);
    if r in t.requests { assert RequestOk(settings, t, r, true); }
  }
}
