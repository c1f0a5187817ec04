/** What callers of the introspector can rely on, over every interleaving, and
    exactly when `ClearCache` is final. */
module IntrospectionTheorems {
  import opened Prelude
  import opened Caches
  import opened Introspection
  import opened IntrospectionSafety

  /** Requests still outstanding, answered or not, are for different tokens. */
  lemma AtMostOneRequestPerToken(ttl: int, actions: seq<Action>, f: nat, g: nat)
    requires var t := Run(ttl, INITIAL, actions);
      f < |t.flights| && g < |t.flights| && f != g && t.flights[f].landedAt.None? && t.flights[g].landedAt.None?
    ensures var t := Run(ttl, INITIAL, actions);
      t.flights[f].token != t.flights[g].token
  {
    InvRun(ttl, INITIAL, actions);
    var t := Run(ttl, INITIAL, actions);
    assert FlightOk(ttl, t, f) && FlightOk(ttl, t, g);
  }

  /** A request about `token` that was answered as active, and has landed. */
  ghost predicate ActiveAnswer(ttl: int, t: State, f: nat, token: string, claims: Claims) {
    && Landed(t, f) && t.flights[f].token == token
    && t.flights[f].answer.value.reply == Active(claims)
    && t.flights[f].startedAt <= t.flights[f].answer.value.at <= t.flights[f].landedAt.value
  }

  /** Every cached entry, however late its waiter stored it, is the active answer
      of a request about that very token, with a deadline no later than CacheTTL
      after the answer, the expiry the requester knew, or the one reported. An
      inactive or failed answer is therefore never stored. */
  lemma EntriesArePositiveAnswers(ttl: int, actions: seq<Action>, token: string)
    requires token in Run(ttl, INITIAL, actions).entries
    ensures var t := Run(ttl, INITIAL, actions);
      var entry, f := t.entries[token], OriginOf(t, token);
      && ActiveAnswer(ttl, t, f, token, entry.claims)
      && var at := t.flights[f].answer.value.at;
      && at < entry.expiresAt <= at + ttl
      && (t.flights[f].known.Some? ==> entry.expiresAt <= t.flights[f].known.value)
      && (entry.claims.exp > 0.0 ==> entry.expiresAt <= Unix(entry.claims.exp))
  {
    InvRun(ttl, INITIAL, actions);
    var t := Run(ttl, INITIAL, actions);
    assert Backs(t, t.origin[token], token, t.entries[token]);
    assert FlightOk(ttl, t, t.origin[token]);
  }

  /** A successful call is backed by an active answer: of a request that was outstanding
      when it called, or one less than CacheTTL old whose known expiries lie ahead. */
  lemma SuccessTracesToAnActiveAnswer(ttl: int, actions: seq<Action>, c: nat)
    requires c in Run(ttl, INITIAL, actions).callers
    ensures var t := Run(ttl, INITIAL, actions);
      var x := t.callers[c];
      match x.pc
      case Got(f, claims) =>
        ActiveAnswer(ttl, t, f, x.token, claims) && x.calledAt <= t.flights[f].landedAt.value
      case Hit(f, entry) =>
        && ActiveAnswer(ttl, t, f, x.token, entry.claims)
        && x.calledAt < t.flights[f].answer.value.at + ttl
        && (t.flights[f].known.Some? ==> x.calledAt < t.flights[f].known.value)
        && (entry.claims.exp > 0.0 ==> x.calledAt < Unix(entry.claims.exp))
      case _ => true
  {
    InvRun(ttl, INITIAL, actions);
    HitOrGot(ttl, Run(ttl, INITIAL, actions), c);
  }

  lemma HitOrGot(ttl: int, t: State, c: nat)
    requires Inv(ttl, t) && c in t.callers
    ensures var x := t.callers[c];
      match x.pc
      case Got(f, claims) =>
        ActiveAnswer(ttl, t, f, x.token, claims) && x.calledAt <= t.flights[f].landedAt.value
      case Hit(f, entry) =>
        && ActiveAnswer(ttl, t, f, x.token, entry.claims)
        && x.calledAt < t.flights[f].answer.value.at + ttl
        && (t.flights[f].known.Some? ==> x.calledAt < t.flights[f].known.value)
        && (entry.claims.exp > 0.0 ==> x.calledAt < Unix(entry.claims.exp))
      case _ => true
  {
    assert CallerOk(ttl, t, c);
    match t.callers[c].pc
    case Got(f, _) => assert FlightOk(ttl, t, f);
    case Hit(f, _) => assert FlightOk(ttl, t, f);
    case _ =>
  }

  // ----- eviction ---------------------------------------------------------

  function WithoutEvictions(actions: seq<Action>): seq<Action> {
    if actions == [] then []
    else (if actions[0].Evict? then [] else [actions[0]]) + WithoutEvictions(actions[1..])
  }

  /** The evicted cache lacks only entries whose deadline has passed. */
  ghost predicate Sim(plain: State, evicted: State) {
    && evicted == plain.(entries := evicted.entries)
    && (forall k <- evicted.entries :: k in plain.entries && evicted.entries[k] == plain.entries[k])
    && (forall k <- plain.entries :: k !in evicted.entries ==> plain.entries[k].expiresAt <= plain.clock)
  }

  lemma SimCall(ttl: int, plain: State, evicted: State, c: nat, token: string, known: Option<Time>)
    requires Sim(plain, evicted)
    ensures Sim(CallStep(ttl, plain, c, token, known), CallStep(ttl, evicted, c, token, known))
  {
    assert LookupIn(plain.entries, token, plain.clock) == LookupIn(evicted.entries, token, plain.clock);
  }

  lemma SimStore(plain: State, evicted: State, c: nat)
    requires Sim(plain, evicted) && c in plain.callers && plain.callers[c].pc.Storing?
    ensures Sim(StoreStep(plain, c), StoreStep(evicted, c))
  {
  }

  lemma SimJoin(plain: State, evicted: State, c: nat)
    requires Sim(plain, evicted) && c in plain.callers
    ensures JoinStep(evicted, c) == JoinStep(plain, c).(entries := evicted.entries)
    ensures JoinStep(plain, c).entries == plain.entries && JoinStep(plain, c).clock == plain.clock
  {
    assert evicted == plain.(entries := evicted.entries);
  }

  lemma SimShared(ttl: int, plain: State, evicted: State, a: Action)
    requires Sim(plain, evicted) && (a.Respond? || a.Land?)
    ensures Next(ttl, evicted, a) == Next(ttl, plain, a).(entries := evicted.entries)
    ensures Next(ttl, plain, a).entries == plain.entries && plain.clock <= Next(ttl, plain, a).clock
  {
    assert evicted == plain.(entries := evicted.entries);
  }

  /** The steps that never look at the entries. */
  lemma SimBlind(ttl: int, plain: State, evicted: State, a: Action)
    requires Sim(plain, evicted) && (a.Tick? || a.Cancel?)
    ensures Next(ttl, evicted, a) == Next(ttl, plain, a).(entries := evicted.entries)
    ensures Next(ttl, plain, a).entries == plain.entries && plain.clock <= Next(ttl, plain, a).clock
  {
    assert evicted == plain.(entries := evicted.entries);
  }

  lemma SimReceive(ttl: int, plain: State, evicted: State, c: nat)
    requires Sim(plain, evicted) && c in plain.callers && plain.callers[c].pc.Waiting?
    ensures ReceiveStep(ttl, evicted, c) == ReceiveStep(ttl, plain, c).(entries := evicted.entries)
    ensures ReceiveStep(ttl, plain, c).entries == plain.entries && ReceiveStep(ttl, plain, c).clock == plain.clock
  {
    assert evicted == plain.(entries := evicted.entries);
  }

  lemma SimStep(ttl: int, plain: State, evicted: State, a: Action)
    requires Sim(plain, evicted) && !a.Evict?
    ensures Sim(Next(ttl, plain, a), Next(ttl, evicted, a))
  {
    match a
    case Call(c, token, known) => SimCall(ttl, plain, evicted, c, token, known);
    case Store(c) => if c in plain.callers && plain.callers[c].pc.Storing? { SimStore(plain, evicted, c); }
    case Receive(c) => if c in plain.callers && plain.callers[c].pc.Waiting? { SimReceive(ttl, plain, evicted, c); }
    case Clear =>
    case Join(c) => if c in plain.callers && plain.callers[c].pc.Joining? { SimJoin(plain, evicted, c); }
    case Respond(_, _) => SimShared(ttl, plain, evicted, a);
    case Land(_) => SimShared(ttl, plain, evicted, a);
    case _ => SimBlind(ttl, plain, evicted, a);
  }

  lemma {:induction false} SimRun(ttl: int, plain: State, evicted: State, actions: seq<Action>)
    requires Sim(plain, evicted)
    ensures Sim(Run(ttl, plain, WithoutEvictions(actions)), Run(ttl, evicted, actions))
    decreases |actions|
  {
    if actions != [] {
      var a, rest := actions[0], WithoutEvictions(actions[1..]);
      if a.Evict? {
        assert WithoutEvictions(actions) == rest;
        SimRun(ttl, plain, Next(ttl, evicted, a), actions[1..]);
      } else {
        assert WithoutEvictions(actions)[1..] == rest;
        SimStep(ttl, plain, evicted, a);
        SimRun(ttl, Next(ttl, plain, a), Next(ttl, evicted, a), actions[1..]);
      }
    }
  }

  /** A cache that evicts, at any moments, gives every caller what one that never
      evicts would have given, from the same requests. */
  lemma EvictionsChangeNothing(ttl: int, s: State, actions: seq<Action>)
    ensures var t, never := Run(ttl, s, actions), Run(ttl, s, WithoutEvictions(actions));
      t.callers == never.callers && t.flights == never.flights && t.inflight == never.inflight
  {
    SimRun(ttl, s, s, actions);
  }

  // ----- cancellation -----------------------------------------------------

  /** The same schedule with caller `c` never running again. */
  function WithoutCaller(actions: seq<Action>, c: nat): seq<Action> {
    if actions == [] then []
    else (if RunsCaller(actions[0], c) then [] else [actions[0]]) + WithoutCaller(actions[1..], c)
  }

  predicate RunsCaller(a: Action, c: nat) {
    (a.Join? || a.Receive? || a.Store? || a.Cancel?) && a.c == c
  }

  ghost predicate SameBut(s: State, t: State, c: nat) {
    && c in s.callers && c in t.callers
    && t == s.(callers := t.callers)
    && t.callers == s.callers[c := t.callers[c]]
  }

  lemma SameButJoin(s: State, t: State, d: nat, c: nat)
    requires SameBut(s, t, c) && d in s.callers && d != c
    ensures SameBut(JoinStep(s, d), JoinStep(t, d), c) && JoinStep(t, d).callers[c] == t.callers[c]
  {
    assert t.callers[d] == s.callers[d];
    var pcs, pct := JoinStep(s, d).callers, JoinStep(t, d).callers;
    assert pct == pcs[c := t.callers[c]];
  }

  lemma SameButReceive(ttl: int, s: State, t: State, d: nat, c: nat)
    requires SameBut(s, t, c) && d in s.callers && d != c && s.callers[d].pc.Waiting?
    ensures t.callers[d] == s.callers[d]
    ensures SameBut(ReceiveStep(ttl, s, d), ReceiveStep(ttl, t, d), c)
    ensures ReceiveStep(ttl, t, d).callers[c] == t.callers[c]
  {
    assert t.callers[d] == s.callers[d];
    var pcs, pct := ReceiveStep(ttl, s, d).callers, ReceiveStep(ttl, t, d).callers;
    assert pct == pcs[c := t.callers[c]];
  }

  lemma SameButStore(s: State, t: State, d: nat, c: nat)
    requires SameBut(s, t, c) && d in s.callers && d != c && s.callers[d].pc.Storing?
    ensures t.callers[d] == s.callers[d]
    ensures SameBut(StoreStep(s, d), StoreStep(t, d), c) && StoreStep(t, d).callers[c] == t.callers[c]
  {
    assert t.callers[d] == s.callers[d];
    var pcs, pct := StoreStep(s, d).callers, StoreStep(t, d).callers;
    assert pct == pcs[c := t.callers[c]];
  }

  /** Another caller's step sees the same state and writes the same things. */
  lemma SameButOther(ttl: int, s: State, t: State, a: Action, c: nat)
    requires SameBut(s, t, c) && (a.Join? || a.Receive? || a.Store? || a.Cancel?) && a.c != c
    ensures SameBut(Next(ttl, s, a), Next(ttl, t, a), c) && Next(ttl, t, a).callers[c] == t.callers[c]
  {
    if a.c in s.callers {
      var x := s.callers[a.c];
      assert t.callers[a.c] == x;
      if a.Join? && x.pc.Joining? {
        SameButJoin(s, t, a.c, c);
      } else if a.Receive? && x.pc.Waiting? {
        SameButReceive(ttl, s, t, a.c, c);
      } else if a.Store? && x.pc.Storing? {
        SameButStore(s, t, a.c, c);
      } else {
        assert Next(ttl, t, a).callers == Next(ttl, s, a).callers[c := t.callers[c]];
      }
    }
  }

  lemma SameButStep(ttl: int, s: State, t: State, a: Action, c: nat)
    requires SameBut(s, t, c) && !RunsCaller(a, c)
    ensures SameBut(Next(ttl, s, a), Next(ttl, t, a), c)
    ensures Next(ttl, t, a).callers[c] == t.callers[c]
  {
    if a.Join? || a.Receive? || a.Store? || a.Cancel? {
      SameButOther(ttl, s, t, a, c);
    } else if a.Call? && a.c !in s.callers {
      var pcs, pct := Next(ttl, s, a).callers, Next(ttl, t, a).callers;
      assert pct == pcs[c := t.callers[c]];
    }
  }

  lemma {:induction false} CancelledRun(ttl: int, s: State, t: State, actions: seq<Action>, c: nat)
    requires SameBut(s, t, c) && t.callers[c].pc.Cancelled?
    ensures SameBut(Run(ttl, s, WithoutCaller(actions, c)), Run(ttl, t, actions), c)
    decreases |actions|
  {
    if actions != [] {
      var a, rest := actions[0], WithoutCaller(actions[1..], c);
      if RunsCaller(a, c) {
        assert WithoutCaller(actions, c) == rest;
        CancelledRun(ttl, s, Next(ttl, t, a), actions[1..], c);
      } else {
        assert WithoutCaller(actions, c)[1..] == rest;
        SameButStep(ttl, s, t, a, c);
        CancelledRun(ttl, Next(ttl, s, a), Next(ttl, t, a), actions[1..], c);
      }
    }
  }

  /** To everyone else a cancelled caller is one that is never scheduled again:
      it aborts no shared request and changes nobody's result. */
  lemma CancellingIsInvisible(ttl: int, s: State, c: nat, actions: seq<Action>)
    requires c in s.callers && s.callers[c].pc.Waiting?
    ensures var t := Run(ttl, Next(ttl, s, Cancel(c)), actions);
      var silent := Run(ttl, s, WithoutCaller(actions, c));
      && t.callers.Keys == silent.callers.Keys
      && (forall d <- t.callers | d != c :: t.callers[d] == silent.callers[d])
      && t.flights == silent.flights && t.entries == silent.entries
  {
    CancelledRun(ttl, s, Next(ttl, s, Cancel(c)), actions, c);
  }

  /** It is not, though, like one that gets its answer: that one would have stored
      it, and the next caller would have been served from the cache. */
  lemma CancellingLosesTheEntry(ttl: int, s: State, c: nat, d: nat, entry: Entry)
    requires c in s.callers && s.callers[c].pc.Waiting? && s.callers[c].token != "" && d !in s.callers
    requires Backs(s, s.callers[c].pc.flight, s.callers[c].token, entry)
    requires ttl > 0 && s.clock < entry.expiresAt && s.callers[c].token !in s.entries
    ensures var token := s.callers[c].token;
      var call := Call(d, token, None);
      && Next(ttl, Next(ttl, s, Cancel(c)), call).callers[d].pc.Joining?
      && Next(ttl, Next(ttl, Next(ttl, s, Receive(c)), Store(c)), call).callers[d].pc
         == Hit(s.callers[c].pc.flight, entry)
  {
    var s1 := Next(ttl, s, Receive(c));
    assert s1.callers[c].pc == Storing(s.callers[c].pc.flight, entry);
    assert s1.callers[c].token == s.callers[c].token;
  }

  // ----- ClearCache -------------------------------------------------------

  /** The request was made by then. */
  predicate Made(s: State, f: nat) { f < |s.flights| }

  /** A new caller is served, from the cache or by joining, the answer of a request made
      before the clear in `s`. */
  ghost predicate StaleServe(s: State, t: State, token: string, d: nat) {
    && d !in s.callers && d in t.callers && t.callers[d].token == token
    && ((t.callers[d].pc.Hit? && Made(s, t.callers[d].pc.flight))
        || (t.callers[d].pc.Got? && Made(s, t.callers[d].pc.flight)))
  }

  /** After a clear in `s`, some continuation does that. */
  ghost predicate CanServeStale(ttl: int, s: State, token: string) {
    exists actions, d :: StaleServe(s, Run(ttl, Next(ttl, s, Clear), actions), token, d)
  }

  /** The request for the token is outstanding, and not yet answered in the negative. */
  ghost predicate Outstanding(s: State, f: nat, token: string) {
    && f < |s.flights| && s.flights[f].token == token && s.flights[f].landedAt.None?
    && (s.flights[f].answer.Some? ==> s.flights[f].answer.value.reply.Active?)
  }

  /** An answer the caller already has, or will have as soon as it looks, that is
      still worth caching. */
  ghost predicate HoldsAnswer(s: State, c: nat, token: string, entry: Entry) {
    && c in s.callers && s.callers[c].token == token && s.clock < entry.expiresAt
    && match s.callers[c].pc
       case Waiting(f) => Backs(s, f, token, entry)
       case Storing(f, e) => e == entry && Backs(s, f, token, entry)
       case _ => false
  }

  /** A request made before the clear can still serve later callers. */
  ghost predicate Lingers(s: State, token: string) {
    || (exists f :: Outstanding(s, f, token))
    || (exists c, entry :: HoldsAnswer(s, c, token, entry))
  }

  // What no request made before the clear can do any more, in a continuation `t`.

  /** Nobody can join it, or it answers no one. */
  ghost predicate FlightForgot(s: State, t: State, f: nat) {
    Made(s, f) && f < |t.flights| && t.flights[f].landedAt.None? ==>
      t.flights[f].answer.Some? && !t.flights[f].answer.value.reply.Active?
  }

  ghost predicate CallerForgot(s: State, t: State, c: nat)
    requires c in t.callers
  {
    match t.callers[c].pc
    case Waiting(f) =>
      Made(s, f) && f < |t.flights| ==>
        && t.flights[f].answer.Some?
        && (t.flights[f].answer.value.expiresAt.Some? ==> t.flights[f].answer.value.expiresAt.value <= t.clock)
        && (c !in s.callers ==> !t.flights[f].answer.value.reply.Active?)
    case Storing(f, entry) => Made(s, f) ==> entry.expiresAt <= t.clock && c in s.callers
    case Hit(f, _) => Made(s, f) ==> c in s.callers
    case Got(f, _) => Made(s, f) ==> c in s.callers
    case _ => true
  }

  ghost predicate EntryForgot(s: State, t: State, token: string) {
    token in t.entries && Made(s, OriginOf(t, token)) ==> t.entries[token].expiresAt <= t.clock
  }

  ghost predicate Forgotten(s: State, t: State, token: string) {
    && Extends(s, t)
    && EntryForgot(s, t, token)
    && (forall f | 0 <= f < |t.flights| && t.flights[f].token == token :: FlightForgot(s, t, f))
    && (forall c <- t.callers | t.callers[c].token == token :: CallerForgot(s, t, c))
  }

  lemma EntryForgotStep(ttl: int, s: State, t: State, a: Action, token: string)
    requires Inv(ttl, t) && Forgotten(s, t, token)
    ensures EntryForgot(s, Next(ttl, t, a), token)
  {
    if a.Store? && a.c in t.callers && t.callers[a.c].token == token {
      assert CallerForgot(s, t, a.c);
    }
  }

  lemma FlightForgotStep(ttl: int, s: State, t: State, a: Action, token: string, f: nat)
    requires Extends(s, t) && f < |Next(ttl, t, a).flights| && Next(ttl, t, a).flights[f].token == token
    requires f < |t.flights| && t.flights[f].token == token ==> FlightForgot(s, t, f)
    ensures FlightForgot(s, Next(ttl, t, a), f)
  {
    StepExtends(ttl, t, a);
  }

  /** A caller at rest: the clock only moves on, and answered requests stay answered. */
  lemma RestingCallerForgot(ttl: int, s: State, t: State, a: Action, token: string, c: nat)
    requires Inv(ttl, t) && Forgotten(s, t, token) && c in t.callers && t.callers[c].token == token
    requires c in Next(ttl, t, a).callers && Next(ttl, t, a).callers[c] == t.callers[c]
    ensures CallerForgot(s, Next(ttl, t, a), c)
  {
    assert CallerForgot(s, t, c) && CallerOk(ttl, t, c);
    StepExtends(ttl, t, a);
  }

  lemma JoiningForgot(ttl: int, s: State, t: State, c: nat, token: string)
    requires Inv(ttl, t) && Forgotten(s, t, token) && c in t.callers && t.callers[c].token == token
    ensures CallerForgot(s, JoinStep(t, c), c)
  {
    if token in t.inflight {
      var f := t.inflight[token];
      assert t.flights[f].landedAt.None? && t.flights[f].token == token;
      assert FlightForgot(s, t, f) && FlightOk(ttl, t, f);
    }
  }

  lemma ReceivingForgot(ttl: int, s: State, t: State, c: nat, token: string)
    requires Forgotten(s, t, token) && c in t.callers && t.callers[c].token == token
    requires t.callers[c].pc.Waiting?
    ensures CallerForgot(s, ReceiveStep(ttl, t, c), c)
  {
    assert CallerForgot(s, t, c);
    var u := ReceiveStep(ttl, t, c);
    assert u.clock == t.clock;
  }

  lemma CallingForgot(ttl: int, s: State, t: State, c: nat, token: string, known: Option<Time>)
    requires Inv(ttl, t) && Forgotten(s, t, token)
    ensures CallerForgot(s, CallStep(ttl, t, c, token, known), c)
  {
  }

  /** Storing, cancelling, and every step that is not enabled. */
  lemma LeavingForgot(ttl: int, s: State, t: State, a: Action)
    requires OneCaller(a) || a.Join?
    requires a.c in t.callers && CallerForgot(s, t, a.c)
    requires !(a.Join? && t.callers[a.c].pc.Joining?) && !(a.Receive? && t.callers[a.c].pc.Waiting?)
    ensures CallerForgot(s, Next(ttl, t, a), a.c)
  {
  }

  lemma MovingCallerForgot(ttl: int, s: State, t: State, a: Action, token: string)
    requires Inv(ttl, t) && Forgotten(s, t, token) && (a.Join? || OneCaller(a))
    requires a.c in t.callers && t.callers[a.c].token == token
    ensures CallerForgot(s, Next(ttl, t, a), a.c)
  {
    if a.Join? && t.callers[a.c].pc.Joining? {
      JoiningForgot(ttl, s, t, a.c, token);
    } else if a.Receive? && t.callers[a.c].pc.Waiting? {
      ReceivingForgot(ttl, s, t, a.c, token);
    } else {
      LeavingForgot(ttl, s, t, a);
    }
  }

  lemma OthersRest(ttl: int, t: State, a: Action, c: nat)
    requires c in Next(ttl, t, a).callers && !((a.Join? || OneCaller(a)) && a.c == c)
    ensures c in t.callers && Next(ttl, t, a).callers[c] == t.callers[c]
  {
  }

  lemma CallerForgotStep(ttl: int, s: State, t: State, a: Action, token: string, c: nat)
    requires Inv(ttl, t) && Forgotten(s, t, token)
    requires c in Next(ttl, t, a).callers && Next(ttl, t, a).callers[c].token == token
    ensures CallerForgot(s, Next(ttl, t, a), c)
  {
    if c !in t.callers && a.Call? {
      CallingForgot(ttl, s, t, c, a.token, a.known);
    } else if (a.Join? || OneCaller(a)) && a.c == c {
      MovingCallerForgot(ttl, s, t, a, token);
    } else {
      OthersRest(ttl, t, a, c);
      RestingCallerForgot(ttl, s, t, a, token, c);
    }
  }

  lemma ForgottenStep(ttl: int, s: State, t: State, a: Action, token: string)
    requires Inv(ttl, t) && Forgotten(s, t, token)
    ensures Forgotten(s, Next(ttl, t, a), token)
  {
    var u := Next(ttl, t, a);
    StepExtends(ttl, t, a);
    ExtendsTransitively(s, t, u);
    EntryForgotStep(ttl, s, t, a, token);
    forall f | 0 <= f < |u.flights| && u.flights[f].token == token ensures FlightForgot(s, u, f) {
      FlightForgotStep(ttl, s, t, a, token, f);
    }
    forall c | c in u.callers && u.callers[c].token == token
      ensures CallerForgot(s, u, c)
    {
      CallerForgotStep(ttl, s, t, a, token, c);
    }
  }

  lemma ExtendsTransitively(s: State, t: State, u: State)
    requires Extends(s, t) && Extends(t, u)
    ensures Extends(s, u)
  {
  }

  lemma {:induction false} ForgottenRun(ttl: int, s: State, t: State, actions: seq<Action>, token: string)
    requires Inv(ttl, t) && Forgotten(s, t, token)
    ensures Forgotten(s, Run(ttl, t, actions), token)
    decreases |actions|
  {
    if actions != [] {
      ForgottenStep(ttl, s, t, actions[0], token);
      InvStep(ttl, t, actions[0]);
      ForgottenRun(ttl, s, Next(ttl, t, actions[0]), actions[1..], token);
    }
  }

  /** Exactly when a later call can still be served the answer of a request made before the
      clear: such a request was outstanding then and not answered in the negative, or some slow
      waiter held an unexpired answer, not yet stored. */
  lemma ClearCacheIsFinalIff(ttl: int, history: seq<Action>, token: string)
    requires token != ""
    ensures var s := Run(ttl, INITIAL, history);
      CanServeStale(ttl, s, token) <==> Lingers(s, token)
  {
    var s := Run(ttl, INITIAL, history);
    var cleared := Next(ttl, s, Clear);
    InvRun(ttl, INITIAL, history);
    InvStep(ttl, s, Clear);
    if Lingers(s, token) {
      LingeringIsServed(ttl, s, token);
    } else {
      NothingLingers(ttl, s, token);
      forall actions, d
        ensures !StaleServe(s, Run(ttl, cleared, actions), token, d)
      {
        ForgottenRun(ttl, s, cleared, actions, token);
        var t := Run(ttl, cleared, actions);
        if d in t.callers && t.callers[d].token == token { assert CallerForgot(s, t, d); }
      }
    }
  }

  lemma LingeringIsServed(ttl: int, s: State, token: string)
    requires Inv(ttl, s) && token != "" && Lingers(s, token)
    ensures CanServeStale(ttl, s, token)
  {
    var cleared := Next(ttl, s, Clear);
    if f :| Outstanding(s, f, token) {
      var actions, d := LateJoinIsServed(ttl, s, f, token);
      assert StaleServe(s, Run(ttl, cleared, actions), token, d);
    } else {
      var c, entry :| HoldsAnswer(s, c, token, entry);
      HeldMeansCached(ttl, s, c, token, entry);
      var actions, d := LateStoreIsServed(ttl, s, c, token, entry);
      assert StaleServe(s, Run(ttl, cleared, actions), token, d);
    }
  }

  lemma HeldMeansCached(ttl: int, s: State, c: nat, token: string, entry: Entry)
    requires Inv(ttl, s) && HoldsAnswer(s, c, token, entry)
    ensures ttl > 0
  {
    assert FlightOk(ttl, s, s.callers[c].pc.flight);
    assert EffectiveExpiry(ttl, 0, None, 0.0).Some? <==> ttl > 0;
  }

  lemma NothingLingers(ttl: int, s: State, token: string)
    requires Inv(ttl, s) && !Lingers(s, token)
    ensures Forgotten(s, Next(ttl, s, Clear), token)
  {
    var t := Next(ttl, s, Clear);
    forall f | 0 <= f < |t.flights| && t.flights[f].token == token ensures FlightForgot(s, t, f) {
      assert !Outstanding(s, f, token);
    }
    forall c | c in t.callers && t.callers[c].token == token ensures CallerForgot(s, t, c) {
      assert CallerOk(ttl, s, c);
      match s.callers[c].pc
      case Waiting(f) => NothingWaits(ttl, s, c, f, token);
      case Storing(f, entry) => assert !HoldsAnswer(s, c, token, entry);
      case _ =>
    }
  }

  lemma NothingWaits(ttl: int, s: State, c: nat, f: nat, token: string)
    requires Inv(ttl, s) && !Lingers(s, token)
    requires c in s.callers && s.callers[c].token == token && s.callers[c].pc == Waiting(f)
    ensures f < |s.flights| && s.flights[f].answer.Some?
    ensures var answer := s.flights[f].answer.value;
      answer.expiresAt.Some? ==> answer.expiresAt.value <= s.clock
  {
    assert CallerOk(ttl, s, c) && FlightOk(ttl, s, f) && !Outstanding(s, f, token);
    var answer := s.flights[f].answer.value;
    if answer.expiresAt.Some? && s.flights[f].landedAt.Some? {
      assert !HoldsAnswer(s, c, token, Entry(answer.reply.claims, answer.expiresAt.value));
    }
  }

  lemma StoresAfterTheClear(ttl: int, s: State, c: nat, token: string, entry: Entry)
    requires HoldsAnswer(s, c, token, entry) && ttl > 0
    ensures var t := Next(ttl, Next(ttl, Next(ttl, s, Clear), Receive(c)), Store(c));
      && token in t.entries && t.entries[token] == entry
      && t.callers.Keys == s.callers.Keys && t.clock == s.clock
      && Made(s, OriginOf(t, token))
  {
    var s2 := Next(ttl, Next(ttl, s, Clear), Receive(c));
    assert s2.callers[c].pc.Storing? && s2.callers[c].pc.entry == entry && s2.callers[c].token == token;
  }

  /** The waiter stores after the clear, and the next caller hits. */
  lemma LateStoreIsServed(ttl: int, s: State, c: nat, token: string, entry: Entry) returns (actions: seq<Action>, d: nat)
    requires HoldsAnswer(s, c, token, entry) && ttl > 0 && token != ""
    ensures StaleServe(s, Run(ttl, Next(ttl, s, Clear), actions), token, d)
  {
    d := Above(s.callers.Keys);
    StoresAfterTheClear(ttl, s, c, token, entry);
    var call := Call(d, token, None);
    actions := [Receive(c), Store(c), call];
    var s1 := Next(ttl, s, Clear);
    var s2 := Next(ttl, s1, Receive(c));
    var s3 := Next(ttl, s2, Store(c));
    RunThree(ttl, s1, Receive(c), Store(c), call);
    assert Next(ttl, s3, call) == CallStep(ttl, s3, d, token, None);
  }

  /** A new caller has joined the outstanding request. */
  lemma JoinsAfterTheClear(ttl: int, s: State, f: nat, token: string, d: nat)
    requires Inv(ttl, s) && Outstanding(s, f, token) && token != "" && d !in s.callers
    ensures var t := Next(ttl, Next(ttl, Next(ttl, s, Clear), Call(d, token, None)), Join(d));
      && d in t.callers && t.callers[d].pc == Waiting(f) && t.callers[d].token == token
      && t.flights == s.flights
  {
    assert FlightOk(ttl, s, f);
    var s2 := Next(ttl, Next(ttl, s, Clear), Call(d, token, None));
    assert s2.callers[d] == Caller(token, None, s.clock, Joining);
  }

  /** The request is answered as active, if it is not yet, and lands. */
  lemma LandsActive(ttl: int, t: State, f: nat, token: string, d: nat, claims: Claims)
    requires Outstanding(t, f, token) && d in t.callers && t.callers[d].pc == Waiting(f)
    ensures var u := Next(ttl, Next(ttl, t, Respond(f, Active(claims))), Land(f));
      && u.callers == t.callers && Landed(u, f) && u.flights[f].answer.value.reply.Active?
  {
  }

  lemma Serves(ttl: int, u: State, f: nat, d: nat)
    requires Landed(u, f) && u.flights[f].answer.value.reply.Active?
    requires d in u.callers && u.callers[d].pc == Waiting(f)
    ensures var v := Next(ttl, Next(ttl, u, Receive(d)), Store(d));
      d in v.callers && v.callers[d].token == u.callers[d].token && v.callers[d].pc.Got? && v.callers[d].pc.flight == f
  {
    var answer := u.flights[f].answer.value;
    assert Next(ttl, u, Receive(d)).callers[d].pc == Received(ttl, f, answer);
  }

  /** A caller that comes after the clear joins the request made before it. */
  lemma LateJoinIsServed(ttl: int, s: State, f: nat, token: string) returns (actions: seq<Action>, d: nat)
    requires Inv(ttl, s) && Outstanding(s, f, token) && token != ""
    ensures StaleServe(s, Run(ttl, Next(ttl, s, Clear), actions), token, d)
  {
    d := Above(s.callers.Keys);
    var active := Respond(f, Active(Claims("", 0.0, {})));
    actions := [Call(d, token, None), Join(d), active, Land(f), Receive(d), Store(d)];
    var s1 := Next(ttl, s, Clear);
    JoinsAfterTheClear(ttl, s, f, token, d);
    var t := Next(ttl, Next(ttl, s1, Call(d, token, None)), Join(d));
    LandsActive(ttl, t, f, token, d, Claims("", 0.0, {}));
    var u := Next(ttl, Next(ttl, t, active), Land(f));
    Serves(ttl, u, f, d);
    RunThree(ttl, s1, actions[0], actions[1], actions[2]);
    RunThree(ttl, Next(ttl, t, active), actions[3], actions[4], actions[5]);
    RunAppend(ttl, s1, actions[..3], actions[3..]);
    assert actions == actions[..3] + actions[3..];
    assert actions[..3] == [actions[0], actions[1], actions[2]];
    assert actions[3..] == [actions[3], actions[4], actions[5]];
  }

  lemma {:induction false} RunAppend(ttl: int, s: State, first: seq<Action>, rest: seq<Action>)
    ensures Run(ttl, s, first + rest) == Run(ttl, Run(ttl, s, first), rest)
    decreases |first|
  {
    if first == [] {
      assert first + rest == rest;
    } else {
      assert (first + rest)[1..] == first[1..] + rest;
      RunAppend(ttl, Next(ttl, s, first[0]), first[1..], rest);
    }
  }

  lemma RunThree(ttl: int, s: State, a: Action, b: Action, c: Action)
    ensures Run(ttl, s, [a, b, c]) == Next(ttl, Next(ttl, Next(ttl, s, a), b), c)
  {
    assert [a, b, c][1..] == [b, c] && [b, c][1..] == [c] && [c][1..] == [];
    var s1 := Next(ttl, s, a);
    var s2 := Next(ttl, s1, b);
    var s3 := Next(ttl, s2, c);
    assert Run(ttl, s, [a, b, c]) == Run(ttl, s1, [b, c]);
    assert Run(ttl, s1, [b, c]) == Run(ttl, s2, [c]);
    assert Run(ttl, s2, [c]) == Run(ttl, s3, []);
  }

  ghost function Above(used: set<nat>): (d: nat)
    ensures forall n <- used :: n < d
  {
    if used == {} then 0
    else
      var x :| x in used;
      var d := Above(used - {x});
      assert forall n <- used :: n == x || n in used - {x};
      if x < d then d else x + 1
  }
}
