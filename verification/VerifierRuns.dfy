/** How far the bounds of VerifierSafety reach: runs that attain them, and exact conditions. */
module VerifierRuns {
  import opened Prelude
  import opened Caches
  import opened Verifier
  import opened VerifierSafety
  import I = Introspection
  import T = IntrospectionTheorems

  // ----- running one more step ---------------------------------------------

  lemma {:induction false} RunSnoc(cfg: Config, s: State, actions: seq<Action>, a: Action)
    ensures Run(cfg, s, actions + [a]) == Next(cfg, Run(cfg, s, actions), a)
    decreases |actions|
  {
    if actions == [] {
      assert [a][1..] == [];
      assert Run(cfg, s, [a]) == Run(cfg, Next(cfg, s, a), []);
    } else {
      assert (actions + [a])[1..] == actions[1..] + [a];
      RunSnoc(cfg, Next(cfg, s, actions[0]), actions[1..], a);
    }
  }

  lemma RunMore(cfg: Config, actions: seq<Action>, a: Action) returns (more: seq<Action>, t: State)
    ensures more == actions + [a] && t == Run(cfg, INITIAL, more) == Next(cfg, Run(cfg, INITIAL, actions), a)
  {
    RunSnoc(cfg, INITIAL, actions, a);
    more := actions + [a];
    t := Run(cfg, INITIAL, more);
  }

  // ----- one request, made at time zero -------------------------------------

  /** An opaque token with no reported expiry. */
  const TOKEN: string := "t"
  const CLAIMS := Claims("u", 0.0, {})

  function OpaqueConfig(ttl: int, duration: int): Config {
    Config(true, ttl, Some(duration), (token: string) => Opaque)
  }

  /** The introspector with this request alone. */
  function Alone(now: Time, flight: I.Flight, callers: map<nat, I.Caller>): I.State {
    I.State(now, map[], map[], [flight], if flight.landedAt.None? then map[TOKEN := 0] else map[], callers)
  }

  /** Call 1 made it. */
  function Asked(cfg: Config, now: Time, flight: I.Flight, pc: I.Pc): State {
    State(Alone(now, flight, map[1 := I.Caller(TOKEN, KnownExpiry(cfg.local(TOKEN)), 0, pc)]),
          map[], map[], map[1 := Call(TOKEN, 0, InFlight)])
  }

  /** It was answered, and landed, `patience` later. */
  function Answered1(cfg: Config, claims: Claims, patience: nat): I.Flight {
    var known := KnownExpiry(cfg.local(TOKEN));
    I.Flight(TOKEN, known, 0,
             Some(I.Answer(I.Active(claims), EffectiveExpiry(cfg.ttl, patience, known, claims.exp), patience)),
             Some(patience))
  }

  lemma AskedFirst(cfg: Config, patience: nat) returns (actions: seq<Action>)
    requires cfg.introspects
    ensures Run(cfg, INITIAL, actions)
         == Asked(cfg, patience, I.Flight(TOKEN, KnownExpiry(cfg.local(TOKEN)), 0, None, None), I.Waiting(0))
  {
    var t;
    actions, t := RunMore(cfg, [], Begin(1, TOKEN, true));
    assert t == INITIAL.(calls := map[1 := Call(TOKEN, 0, Asking)]);
    actions, t := RunMore(cfg, actions, Ask(1));
    var known := KnownExpiry(cfg.local(TOKEN));
    assert t.intro == I.INITIAL.(callers := map[1 := I.Caller(TOKEN, known, 0, I.Joining)]);
    assert t == State(t.intro, map[], map[], map[1 := Call(TOKEN, 0, InFlight)]);
    actions, t := RunMore(cfg, actions, Step(I.Join(1)));
    assert t.intro.callers == map[1 := I.Caller(TOKEN, known, 0, I.Waiting(0))];
    actions, t := RunMore(cfg, actions, Step(I.Tick(patience)));
  }

  lemma AnsweredFirst(cfg: Config, claims: Claims, patience: nat) returns (actions: seq<Action>)
    requires cfg.introspects
    ensures Run(cfg, INITIAL, actions) == Asked(cfg, patience, Answered1(cfg, claims, patience), I.Waiting(0))
  {
    actions := AskedFirst(cfg, patience);
    var t;
    actions, t := RunMore(cfg, actions, Step(I.Respond(0, I.Active(claims))));
    assert t.intro.flights == [Answered1(cfg, claims, patience).(landedAt := None)];
    actions, t := RunMore(cfg, actions, Step(I.Land(0)));
    assert t.intro.flights == [Answered1(cfg, claims, patience)];
    assert t.intro.inflight == map[];
  }

  /** One request, which was made at zero and took `patience`. */
  ghost predicate OneRequest(t: State, patience: nat) {
    && |t.intro.flights| == 1 && Answered(t, 0)
    && t.intro.flights[0].startedAt == 0 && LandingOf(t, 0) == patience
  }

  /** The call keeps the answer in the introspection cache. */
  lemma KeptOnce(ttl: int, duration: int, patience: nat) returns (actions: seq<Action>)
    requires ttl > 0
    ensures var t := Run(OpaqueConfig(ttl, duration), INITIAL, actions);
      && t.intro.clock == patience && t.intro.entries == map[TOKEN := Entry(CLAIMS, patience + ttl)]
      && t.results == map[] && t.source == map[] && t.calls.Keys == t.intro.callers.Keys == {1}
      && OneRequest(t, patience)
  {
    var cfg := OpaqueConfig(ttl, duration);
    actions := AnsweredFirst(cfg, CLAIMS, patience);
    var flight, entry := Answered1(cfg, CLAIMS, patience), Entry(CLAIMS, patience + ttl);
    assert EffectiveExpiry(ttl, patience, None, CLAIMS.exp) == Some(patience + ttl);
    var t;
    actions, t := RunMore(cfg, actions, Step(I.Receive(1)));
    assert t.intro.callers == map[1 := I.Caller(TOKEN, None, 0, I.Storing(0, entry))];
    assert t == Asked(cfg, patience, flight, I.Storing(0, entry));
    actions, t := RunMore(cfg, actions, Step(I.Store(1)));
  }

  /** A second call is about to hit that entry just before it expires. */
  lemma HitsLate(ttl: int, duration: int, patience: nat) returns (actions: seq<Action>)
    requires ttl > 0 && duration > 0
    ensures var t := Run(OpaqueConfig(ttl, duration), INITIAL, actions);
      && t.results == map[] && t.source == map[] && t.intro.clock == patience + ttl - 1 && OneRequest(t, patience)
      && t.calls.Keys == {1, 2} == t.intro.callers.Keys
      && t.calls[2] == Call(TOKEN, patience + ttl - 1, InFlight)
      && t.intro.callers[2].pc.Hit? && t.intro.callers[2].pc.entry.claims == CLAIMS
  {
    var cfg := OpaqueConfig(ttl, duration);
    actions := KeptOnce(ttl, duration, patience);
    var t;
    actions, t := RunMore(cfg, actions, Step(I.Tick(ttl - 1)));
    actions, t := RunMore(cfg, actions, Begin(2, TOKEN, true));
    assert t.calls[2] == Call(TOKEN, patience + ttl - 1, Asking) && 2 !in t.intro.callers;
    actions, t := RunMore(cfg, actions, Ask(2));
  }

  /** Its result, kept from then, answers a third just before it expires itself. */
  lemma BothCaches(ttl: int, duration: int, patience: nat) returns (actions: seq<Action>)
    requires ttl > 0 && duration > 0
    ensures ReachesTheWindow(OpaqueConfig(ttl, duration), actions, 3, 2, patience)
  {
    var cfg := OpaqueConfig(ttl, duration);
    actions := HitsLate(ttl, duration, patience);
    var t;
    actions, t := RunMore(cfg, actions, Finish(2));
    assert t.results == map[TOKEN := Entry(CLAIMS, patience + ttl - 1 + duration)] && t.source == map[TOKEN := 2];
    assert t.calls.Keys == {1, 2} == t.intro.callers.Keys && OneRequest(t, patience);
    ServedLast(cfg, actions, 2, patience);
    actions := LastCall(actions, duration);
  }

  function LastCall(actions: seq<Action>, duration: int): seq<Action>
    requires duration > 0
  {
    actions + [Step(I.Tick(duration - 1))] + [Begin(3, TOKEN, true)]
  }

  lemma ServedLast(cfg: Config, actions: seq<Action>, origin: nat, patience: nat)
    requires cfg.introspects && cfg.duration.Some? && cfg.duration.value > 0 && origin in {1, 2}
    requires var t := Run(cfg, INITIAL, actions);
      && t.intro.clock == patience + Max(cfg.ttl - 1, 0)
      && t.results == map[TOKEN := Entry(CLAIMS, t.intro.clock + cfg.duration.value)] && t.source == map[TOKEN := origin]
      && t.calls.Keys == {1, 2} == t.intro.callers.Keys && OneRequest(t, patience)
    ensures ReachesTheWindow(cfg, LastCall(actions, cfg.duration.value), 3, origin, patience)
  {
    var t, more := Run(cfg, INITIAL, actions), actions;
    var began := t.intro.clock + cfg.duration.value - 1;
    more, t := RunMore(cfg, more, Step(I.Tick(cfg.duration.value - 1)));
    assert OneRequest(t, patience) && 3 !in t.calls && 3 !in t.intro.callers;
    more, t := RunMore(cfg, more, Begin(3, TOKEN, true));
    assert t.calls[3] == Call(TOKEN, began, FromCache(CLAIMS, origin));
    assert OneRequest(t, patience);
  }

  // Without the introspection cache, the last call to join the request does as well.

  /** Calls 1 and 2 wait for the request. */
  function Joined(cfg: Config, now: Time, flight: I.Flight, pc: I.Pc): State {
    var known := KnownExpiry(cfg.local(TOKEN));
    State(Alone(now, flight, map[1 := I.Caller(TOKEN, known, 0, I.Waiting(0)), 2 := I.Caller(TOKEN, known, now, pc)]),
          map[], map[], map[1 := Call(TOKEN, 0, InFlight), 2 := Call(TOKEN, now, InFlight)])
  }

  lemma CallsLate(cfg: Config, patience: nat) returns (actions: seq<Action>)
    requires cfg.introspects && cfg.ttl <= 0
    ensures Run(cfg, INITIAL, actions)
         == Joined(cfg, patience, I.Flight(TOKEN, KnownExpiry(cfg.local(TOKEN)), 0, None, None), I.Joining)
  {
    actions := AskedFirst(cfg, patience);
    var t;
    actions, t := RunMore(cfg, actions, Begin(2, TOKEN, true));
    assert t.calls == map[1 := Call(TOKEN, 0, InFlight), 2 := Call(TOKEN, patience, Asking)];
    actions, t := RunMore(cfg, actions, Ask(2));
  }

  lemma JoinsLate(cfg: Config, patience: nat) returns (actions: seq<Action>)
    requires cfg.introspects && cfg.ttl <= 0
    ensures Run(cfg, INITIAL, actions)
         == Joined(cfg, patience, I.Flight(TOKEN, KnownExpiry(cfg.local(TOKEN)), 0, None, None), I.Waiting(0))
  {
    actions := CallsLate(cfg, patience);
    var t;
    actions, t := RunMore(cfg, actions, Step(I.Join(2)));
    assert t.intro.callers == Joined(cfg, patience, t.intro.flights[0], I.Waiting(0)).intro.callers;
  }

  lemma AnsweredLate(cfg: Config, patience: nat) returns (actions: seq<Action>)
    requires cfg.introspects && cfg.ttl <= 0
    ensures Run(cfg, INITIAL, actions) == Joined(cfg, patience, Answered1(cfg, CLAIMS, patience), I.Waiting(0))
  {
    actions := JoinsLate(cfg, patience);
    var flight := Answered1(cfg, CLAIMS, patience);
    var t;
    actions, t := RunMore(cfg, actions, Step(I.Respond(0, I.Active(CLAIMS))));
    assert t.intro.flights == [flight.(landedAt := None)];
    actions, t := RunMore(cfg, actions, Step(I.Land(0)));
    assert t.intro.flights == [flight] && t.intro.inflight == map[];
  }

  lemma LandsLate(ttl: int, duration: int, patience: nat) returns (actions: seq<Action>)
    requires ttl <= 0
    ensures var cfg := OpaqueConfig(ttl, duration);
      Run(cfg, INITIAL, actions) == Joined(cfg, patience, Answered1(cfg, CLAIMS, patience), I.Got(0, CLAIMS))
  {
    var cfg := OpaqueConfig(ttl, duration);
    actions := AnsweredLate(cfg, patience);
    var t;
    actions, t := RunMore(cfg, actions, Step(I.Receive(2)));
    assert t.intro.callers == Joined(cfg, patience, t.intro.flights[0], I.Got(0, CLAIMS)).intro.callers;
  }

  lemma OneCache(ttl: int, duration: int, patience: nat) returns (actions: seq<Action>)
    requires ttl <= 0 && duration > 0
    ensures ReachesTheWindow(OpaqueConfig(ttl, duration), actions, 3, 2, patience)
  {
    var cfg := OpaqueConfig(ttl, duration);
    actions := LandsLate(ttl, duration, patience);
    var t;
    actions, t := RunMore(cfg, actions, Finish(2));
    assert t.results == map[TOKEN := Entry(CLAIMS, patience + duration)] && t.source == map[TOKEN := 2];
    assert t.calls.Keys == {1, 2} == t.intro.callers.Keys && OneRequest(t, patience);
    ServedLast(cfg, actions, 2, patience);
    actions := LastCall(actions, duration);
  }

  /** Call `v`, served from the result cache, begins at the last instant RevocationWindow allows
      after a revocation just after the only request was made. */
  ghost predicate ReachesTheWindow(cfg: Config, actions: seq<Action>, v: nat, origin: nat, patience: int) {
    var t := Run(cfg, INITIAL, actions);
    && v != origin && cfg.duration.Some? && Succeeds(t, v, origin)
    && RevokedFrom(t, t.calls[v].token, 1) && Patient(t, t.calls[v].token, patience)
    && t.calls[v].begunAt == 1 + LastSuccess(patience, cfg.ttl, cfg.duration.value)
  }

  /** The windows do add up: for every request time, TTL and duration some call succeeds at the
      very end of all three. */
  lemma WindowsAddUp(ttl: int, duration: int, patience: nat)
    returns (cfg: Config, actions: seq<Action>, v: nat, origin: nat)
    requires duration > 0
    ensures cfg.introspects && cfg.ttl == ttl && cfg.duration == Some(duration)
    ensures ReachesTheWindow(cfg, actions, v, origin, patience)
  {
    cfg, v, origin := OpaqueConfig(ttl, duration), 3, 2;
    if ttl > 0 {
      actions := BothCaches(ttl, duration, patience);
    } else {
      actions := OneCache(ttl, duration, patience);
    }
  }

  // ----- one window --------------------------------------------------------

  /** A revoked token still succeeds a whole result-cache duration after its revocation. */
  ghost predicate Outlives(
    cfg: Config, actions: seq<Action>, v: nat, origin: nat, revokedAt: Time, patience: int)
  {
    var t := Run(cfg, INITIAL, actions);
    && cfg.introspects && cfg.duration.Some? && Succeeds(t, v, origin)
    && RevokedFrom(t, t.calls[v].token, revokedAt) && Patient(t, t.calls[v].token, patience)
    && revokedAt + cfg.duration.value <= t.calls[v].begunAt
  }

  ghost predicate OneWindow(ttl: int, duration: int, patience: int) {
    forall cfg: Config, actions, v, origin, revokedAt | cfg.ttl == ttl && cfg.duration == Some(duration) ::
      !Outlives(cfg, actions, v, origin, revokedAt, patience)
  }

  /** That revoked tokens are gone after the result cache's duration holds exactly when requests
      and introspection entries together last two nanoseconds at most: in effect, never. */
  lemma OneWindowIff(ttl: int, duration: int, patience: nat)
    requires duration > 0
    ensures OneWindow(ttl, duration, patience) <==> patience + Max(ttl - 1, 0) <= 1
  {
    if patience + Max(ttl - 1, 0) <= 1 {
      forall cfg: Config, actions, v, origin, revokedAt | cfg.ttl == ttl && cfg.duration == Some(duration)
        ensures !Outlives(cfg, actions, v, origin, revokedAt, patience)
      {
        if Outlives(cfg, actions, v, origin, revokedAt, patience) {
          RevocationWindow(cfg, actions, v, origin, revokedAt, patience);
        }
      }
    } else {
      var cfg, actions, v, origin := WindowsAddUp(ttl, duration, patience);
      assert Outlives(cfg, actions, v, origin, 1, patience);
    }
  }

  // ----- an expiry only introspection reports ------------------------------

  /** Call `o` verified a JWT, and its result is in the cache and not yet expired. */
  ghost predicate Keeps(cfg: Config, s: State, o: nat) {
    && o in s.calls && cfg.duration.Some? && cfg.local(s.calls[o].token).Jwt?
    && s.calls[o].token in s.results && s.calls[o].token in s.source && s.source[s.calls[o].token] == o
    && s.intro.clock < s.results[s.calls[o].token].expiresAt
  }

  /** Some continuation serves a later call from that result at or past the limit. */
  ghost predicate ServesPast(cfg: Config, s: State, o: nat, limit: Time) {
    exists actions, v :: ServedPast(s, Run(cfg, s, actions), o, limit, v)
  }

  ghost predicate ServedPast(s: State, t: State, o: nat, limit: Time, v: nat) {
    && v !in s.calls && v in t.calls && t.calls[v].pc.FromCache? && t.calls[v].pc.source == o
    && limit <= t.calls[v].begunAt
  }

  /** After any history, a kept JWT result can be served at or past the expiry that the answer
      behind it reported exactly when that expiry comes before the one the result cache gave it,
      which knows only the token's own claims. */
  lemma ServedPastReportedIff(cfg: Config, history: seq<Action>, o: nat)
    requires cfg.introspects && Keeps(cfg, Run(cfg, INITIAL, history), o)
    ensures var s := Run(cfg, INITIAL, history);
      var f := FlightBehind(s, o);
      && Answered(s, f) && s.intro.flights[f].token == s.calls[o].token
      && var reported := AnswerOf(s, f).reply.claims.exp;
      reported > 0.0 ==>
        (ServesPast(cfg, s, o, Unix(reported)) <==>
         Unix(reported) < ResultExpiry(cfg.duration.value, cfg.local(s.calls[o].token).claims, s.calls[o].begunAt))
  {
    var s := Run(cfg, INITIAL, history);
    InvRun(cfg, INITIAL, history);
    assert ResultOk(cfg, s, s.calls[o].token) && CallOk(cfg, s, o);
    VerifyTracesToAnActiveAnswer(cfg, history, o, o);
    var reported := AnswerOf(s, FlightBehind(s, o)).reply.claims.exp;
    if reported > 0.0 { ServesPastIff(cfg, s, o, Unix(reported)); }
  }

  lemma ServesPastIff(cfg: Config, s: State, o: nat, limit: Time)
    requires cfg.introspects && Inv(cfg, s) && Keeps(cfg, s, o)
    ensures ServesPast(cfg, s, o, limit) <==> limit < s.results[s.calls[o].token].expiresAt
  {
    assert ResultOk(cfg, s, s.calls[o].token);
    if limit < s.results[s.calls[o].token].expiresAt {
      var actions, v := ServeAt(cfg, s, o, limit);
    } else {
      forall actions, v ensures !ServedPast(s, Run(cfg, s, actions), o, limit, v) {
        var t := Run(cfg, s, actions);
        InvRun(cfg, s, actions);
        AcceptedStays(cfg, s, actions, o);
        if v in t.calls { assert CallOk(cfg, t, v); }
      }
    }
  }

  lemma ServeAt(cfg: Config, s: State, o: nat, limit: Time) returns (actions: seq<Action>, v: nat)
    requires Keeps(cfg, s, o) && limit < s.results[s.calls[o].token].expiresAt
    ensures ServedPast(s, Run(cfg, s, actions), o, limit, v)
  {
    v := T.Above(s.calls.Keys + s.intro.callers.Keys);
    var token := s.calls[o].token;
    var wait := Step(I.Tick(Max(limit - s.intro.clock, 0)));
    var begin := Begin(v, token, true);
    actions := [wait, begin];
    var s1 := Next(cfg, s, wait);
    assert v !in s1.calls && v !in s1.intro.callers && s1.results == s.results;
    assert actions[1..] == [begin] && [begin][1..] == [];
    var s2 := Next(cfg, s1, begin);
    assert Run(cfg, s, actions) == Run(cfg, s1, actions[1..]);
    assert Run(cfg, s1, [begin]) == Run(cfg, s2, []);
    assert s2.calls[v].pc.FromCache?;
  }

  lemma AcceptedStaysStep(cfg: Config, s: State, a: Action, o: nat)
    requires o in s.calls && s.calls[o].pc.Accepted?
    ensures o in Next(cfg, s, a).calls && Next(cfg, s, a).calls[o] == s.calls[o]
  {
  }

  lemma {:induction false} AcceptedStays(cfg: Config, s: State, actions: seq<Action>, o: nat)
    requires o in s.calls && s.calls[o].pc.Accepted?
    ensures o in Run(cfg, s, actions).calls && Run(cfg, s, actions).calls[o] == s.calls[o]
    decreases |actions|
  {
    if actions != [] {
      AcceptedStaysStep(cfg, s, actions[0], o);
      AcceptedStays(cfg, Next(cfg, s, actions[0]), actions[1..], o);
    }
  }

  /** A JWT good for a minute, reported good for ten seconds, is served after twenty. */
  lemma ReportedExpiryIsNotKeptForJwts() returns (cfg: Config, actions: seq<Action>)
    ensures cfg.introspects && cfg.local(TOKEN) == Jwt(Claims("u", 60.0, {}))
    ensures var t := Run(cfg, INITIAL, actions);
      && 2 in t.calls && t.calls[2].begunAt == 20 * SECOND && t.calls[2].pc.FromCache?
      && |t.intro.flights| == 1 && t.intro.flights[0].answer.Some?
      && t.intro.flights[0].answer.value.reply == I.Active(Claims("u", 10.0, {}))
  {
    var reported, own := Claims("u", 10.0, {}), Claims("u", 60.0, {});
    cfg := Config(true, 0, Some(5 * MINUTE), (token: string) => Jwt(own));
    actions := AnsweredFirst(cfg, reported, 0);
    var known := Some(60 * SECOND);
    var flight := I.Flight(TOKEN, known, 0, Some(I.Answer(I.Active(reported), None, 0)), Some(0));
    assert Run(cfg, INITIAL, actions) == Asked(cfg, 0, flight, I.Waiting(0));
    var t;
    actions, t := RunMore(cfg, actions, Step(I.Receive(1)));
    assert t.intro.callers == map[1 := I.Caller(TOKEN, known, 0, I.Got(0, reported))];
    assert t == Asked(cfg, 0, flight, I.Got(0, reported));
    actions, t := RunMore(cfg, actions, Finish(1));
    assert t.results == map[TOKEN := Entry(own, 60 * SECOND)];
    assert t.calls.Keys == {1} == t.intro.callers.Keys && t.intro.flights == [flight];
    actions, t := RunMore(cfg, actions, Step(I.Tick(20 * SECOND)));
    assert t.intro.clock == 20 * SECOND && t.results == map[TOKEN := Entry(own, 60 * SECOND)];
    actions, t := RunMore(cfg, actions, Begin(2, TOKEN, true));
  }
}
