/** How stale an accepted token can be, over every interleaving of `Verify`,
    introspections, evictions and `ClearCache`. */
module VerifierSafety {
  import opened Prelude
  import opened Caches
  import opened Verifier
  import I = Introspection
  import S = IntrospectionSafety
  import T = IntrospectionTheorems

  // ----- the introspector underneath --------------------------------------

  /** Every caller and request carries the expiry local verification knows. */
  ghost predicate KnownOk(cfg: Config, i: I.State) {
    && (forall c <- i.callers :: i.callers[c].known == KnownExpiry(cfg.local(i.callers[c].token)))
    && (forall f | 0 <= f < |i.flights| :: i.flights[f].known == KnownExpiry(cfg.local(i.flights[f].token)))
  }

  predicate Settled(pc: I.Pc) { pc.Hit? || pc.Got? || pc.Refused? || pc.Cancelled? }

  lemma CallersStay(ttl: int, i: I.State, a: I.Action, c: nat)
    requires c in i.callers
    ensures var j := I.Next(ttl, i, a);
      && c in j.callers && j.callers[c] == i.callers[c].(pc := j.callers[c].pc)
      && (Settled(i.callers[c].pc) ==> j.callers[c] == i.callers[c])
  {
  }

  lemma NoNewCallers(ttl: int, i: I.State, a: I.Action)
    requires !a.Call?
    ensures I.Next(ttl, i, a).callers.Keys == i.callers.Keys
  {
  }

  lemma NewFlight(ttl: int, i: I.State, a: I.Action, f: nat)
    requires |i.flights| <= f < |I.Next(ttl, i, a).flights|
    ensures a.Join? && a.c in i.callers
    ensures var flight := I.Next(ttl, i, a).flights[f];
      flight.known == i.callers[a.c].known && flight.token == i.callers[a.c].token
  {
  }

  lemma KnownStep(cfg: Config, i: I.State, a: I.Action)
    requires KnownOk(cfg, i)
    requires a.Call? ==> a.known == KnownExpiry(cfg.local(a.token))
    ensures KnownOk(cfg, I.Next(cfg.ttl, i, a))
  {
    var j := I.Next(cfg.ttl, i, a);
    S.StepExtends(cfg.ttl, i, a);
    forall c | c in j.callers
      ensures j.callers[c].known == KnownExpiry(cfg.local(j.callers[c].token))
    {
      if c in i.callers {
        CallersStay(cfg.ttl, i, a, c);
      } else if !a.Call? {
        NoNewCallers(cfg.ttl, i, a);
        assert false;
      }
    }
    forall f | 0 <= f < |j.flights|
      ensures j.flights[f].known == KnownExpiry(cfg.local(j.flights[f].token))
    {
      if |i.flights| <= f { NewFlight(cfg.ttl, i, a, f); }
    }
  }

  // ----- calls ------------------------------------------------------------

  function Final(cfg: Config, token: string, introspected: Claims): Claims {
    if cfg.local(token).Jwt? then cfg.local(token).claims else introspected
  }

  ghost predicate Linked(s: State, v: nat)
    requires v in s.calls
  {
    && v in s.intro.callers && s.intro.callers[v].token == s.calls[v].token
    && s.calls[v].begunAt <= s.intro.callers[v].calledAt
  }

  /** Call `v` was accepted on its own, without the result cache. */
  ghost predicate Grounded(cfg: Config, s: State, v: nat, claims: Claims)
    requires v in s.calls
  {
    var token := s.calls[v].token;
    if cfg.introspects then
      Linked(s, v) && match s.intro.callers[v].pc
                      case Got(_, introspected) => claims == Final(cfg, token, introspected)
                      case Hit(_, entry) => claims == Final(cfg, token, entry.claims)
                      case _ => false
    else cfg.local(token) == Jwt(claims)
  }

  ghost predicate CallOk(cfg: Config, s: State, v: nat)
    requires v in s.calls
  {
    var call := s.calls[v];
    && call.begunAt <= s.intro.clock
    && match call.pc
       case Asking => cfg.introspects && v !in s.intro.callers
       case InFlight => cfg.introspects && Linked(s, v)
       case Accepted(claims) => Grounded(cfg, s, v, claims)
       case FromCache(claims, source) =>
         && cfg.duration.Some? && source in s.calls
         && s.calls[source].token == call.token && s.calls[source].pc == Accepted(claims)
         && call.begunAt < ResultExpiry(cfg.duration.value, claims, s.calls[source].begunAt)
       case Rejected => true
  }

  ghost predicate ResultOk(cfg: Config, s: State, token: string)
    requires token in s.results
  {
    && cfg.duration.Some? && token in s.source && s.source[token] in s.calls
    && var call := s.calls[s.source[token]];
    && call.token == token && call.pc == Accepted(s.results[token].claims)
    && s.results[token].expiresAt == ResultExpiry(cfg.duration.value, s.results[token].claims, call.begunAt)
  }

  ghost predicate Inv(cfg: Config, s: State) {
    && S.Inv(cfg.ttl, s.intro) && KnownOk(cfg, s.intro)
    && s.intro.callers.Keys <= s.calls.Keys
    && (forall v <- s.calls :: CallOk(cfg, s, v))
    && (forall token <- s.results :: ResultOk(cfg, s, token))
  }

  /** `t` differs from `s` in call `v` alone, and finished calls never change. */
  ghost predicate Moves(s: State, t: State, v: nat) {
    && t.intro == s.intro && v in t.calls
    && t.calls == s.calls[v := t.calls[v]]
    && (v in s.calls ==> !s.calls[v].pc.Accepted?)
  }

  lemma InvMove(cfg: Config, s: State, t: State, v: nat)
    requires Inv(cfg, s) && Moves(s, t, v) && CallOk(cfg, t, v)
    requires forall token <- t.results :: ResultOk(cfg, t, token)
    ensures Inv(cfg, t)
  {
    forall w | w in t.calls ensures CallOk(cfg, t, w) {
      if w != v { assert CallOk(cfg, s, w); }
    }
  }

  lemma ResultsKept(cfg: Config, s: State, t: State, v: nat)
    requires Inv(cfg, s) && Moves(s, t, v) && t.results == s.results && t.source == s.source
    ensures forall token <- t.results :: ResultOk(cfg, t, token)
  {
    forall token | token in t.results ensures ResultOk(cfg, t, token) {
      assert ResultOk(cfg, s, token);
    }
  }

  lemma InvAccept(cfg: Config, s: State, v: nat, call: Call, claims: Claims)
    requires Inv(cfg, s) && (v in s.calls ==> !s.calls[v].pc.Accepted?)
    requires call.begunAt <= s.intro.clock
    requires Grounded(cfg, s.(calls := s.calls[v := call]), v, claims)
    ensures Inv(cfg, Accept(cfg, s, v, call, claims))
  {
    var t := Accept(cfg, s, v, call, claims);
    forall token | token in t.results ensures ResultOk(cfg, t, token) {
      if token in s.results { assert ResultOk(cfg, s, token); }
    }
    InvMove(cfg, s, t, v);
  }

  lemma InvBegin(cfg: Config, s: State, v: nat, token: string, verifies: bool)
    requires Inv(cfg, s) && v !in s.calls && v !in s.intro.callers
    ensures Inv(cfg, BeginStep(cfg, s, v, token, verifies))
  {
    var t := BeginStep(cfg, s, v, token, verifies);
    if token in s.results { assert ResultOk(cfg, s, token); }
    if t.calls[v].pc.Accepted? {
      InvAccept(cfg, s, v, Call(token, s.intro.clock, Rejected), cfg.local(token).claims);
    } else {
      ResultsKept(cfg, s, t, v);
      InvMove(cfg, s, t, v);
    }
  }

  lemma InvFinish(cfg: Config, s: State, v: nat)
    requires Inv(cfg, s) && v in s.calls && v in s.intro.callers && s.calls[v].pc.InFlight?
    ensures Inv(cfg, FinishStep(cfg, s, v))
  {
    var t, call := FinishStep(cfg, s, v), s.calls[v];
    assert CallOk(cfg, s, v);
    match s.intro.callers[v].pc
    case Hit(_, entry) => InvAccept(cfg, s, v, call, Final(cfg, call.token, entry.claims));
    case Got(_, claims) => InvAccept(cfg, s, v, call, Final(cfg, call.token, claims));
    case _ =>
      if t != s {
        ResultsKept(cfg, s, t, v);
        InvMove(cfg, s, t, v);
      }
  }

  /** Anything the introspector does leaves every call as well founded as it was. */
  lemma InvIntro(cfg: Config, s: State, a: I.Action)
    requires Inv(cfg, s) && !a.Call?
    ensures Inv(cfg, s.(intro := I.Next(cfg.ttl, s.intro, a)))
  {
    var t := s.(intro := I.Next(cfg.ttl, s.intro, a));
    S.InvStep(cfg.ttl, s.intro, a);
    S.StepExtends(cfg.ttl, s.intro, a);
    KnownStep(cfg, s.intro, a);
    NoNewCallers(cfg.ttl, s.intro, a);
    forall v | v in t.calls ensures CallOk(cfg, t, v) {
      assert CallOk(cfg, s, v);
      if v in s.intro.callers { CallersStay(cfg.ttl, s.intro, a, v); }
    }
    forall token | token in t.results ensures ResultOk(cfg, t, token) {
      assert ResultOk(cfg, s, token);
    }
  }

  lemma InvAsk(cfg: Config, s: State, v: nat)
    requires Inv(cfg, s) && v in s.calls && s.calls[v].pc.Asking?
    ensures Inv(cfg, Next(cfg, s, Ask(v)))
  {
    var t := Next(cfg, s, Ask(v));
    var call := s.calls[v];
    var a := I.Call(v, call.token, KnownExpiry(cfg.local(call.token)));
    assert CallOk(cfg, s, v);
    S.InvStep(cfg.ttl, s.intro, a);
    KnownStep(cfg, s.intro, a);
    assert t.intro == I.CallStep(cfg.ttl, s.intro, v, a.token, a.known);
    forall w | w in t.calls ensures CallOk(cfg, t, w) {
      assert CallOk(cfg, s, w);
    }
    forall token | token in t.results ensures ResultOk(cfg, t, token) {
      assert ResultOk(cfg, s, token);
    }
  }

  lemma InvStep(cfg: Config, s: State, a: Action)
    requires Inv(cfg, s)
    ensures Inv(cfg, Next(cfg, s, a))
  {
    match a
    case Begin(v, token, verifies) =>
      if v !in s.calls && v !in s.intro.callers { InvBegin(cfg, s, v, token, verifies); }
    case Ask(v) => if v in s.calls && s.calls[v].pc.Asking? { InvAsk(cfg, s, v); }
    case Finish(v) =>
      if v in s.calls && v in s.intro.callers && s.calls[v].pc.InFlight? { InvFinish(cfg, s, v); }
    case Step(a) => if !a.Call? { InvIntro(cfg, s, a); }
    case EvictResults(_) =>
      var t := Next(cfg, s, a);
      forall v | v in t.calls ensures CallOk(cfg, t, v) { assert CallOk(cfg, s, v); }
      forall token | token in t.results ensures ResultOk(cfg, t, token) { assert ResultOk(cfg, s, token); }
  }

  lemma {:induction false} InvRun(cfg: Config, s: State, actions: seq<Action>)
    requires Inv(cfg, s)
    ensures Inv(cfg, Run(cfg, s, actions))
    decreases |actions|
  {
    if actions != [] {
      InvStep(cfg, s, actions[0]);
      InvRun(cfg, Next(cfg, s, actions[0]), actions[1..]);
    }
  }

  // ----- how old an accepted answer can be --------------------------------

  /** Call `v` succeeded; `origin` is the call whose verification it relies on. */
  ghost predicate Succeeds(t: State, v: nat, origin: nat) {
    && v in t.calls && origin in t.calls
    && match t.calls[v].pc
       case Accepted(_) => origin == v
       case FromCache(_, source) => origin == source
       case _ => false
  }

  /** The request whose answer call `v` went by. */
  function FlightBehind(s: State, v: nat): nat {
    if v in s.intro.callers then
      match s.intro.callers[v].pc
      case Hit(f, _) => f
      case Got(f, _) => f
      case _ => 0
    else 0
  }

  /** The request has landed with an active answer. */
  predicate Answered(s: State, f: nat) {
    I.Landed(s.intro, f) && s.intro.flights[f].answer.value.reply.Active?
  }

  function AnswerOf(s: State, f: nat): I.Answer
    requires Answered(s, f)
  {
    s.intro.flights[f].answer.value
  }

  function LandingOf(s: State, f: nat): Time
    requires Answered(s, f)
  {
    s.intro.flights[f].landedAt.value
  }

  /** The request behind `origin` was still outstanding when it began, or answered less than
      CacheTTL before. */
  ghost predicate Backed(cfg: Config, t: State, origin: nat, f: nat)
    requires origin in t.calls
  {
    && Answered(t, f) && t.intro.flights[f].token == t.calls[origin].token
    && t.intro.flights[f].startedAt <= AnswerOf(t, f).at <= LandingOf(t, f)
    && (t.calls[origin].begunAt <= LandingOf(t, f) || t.calls[origin].begunAt < AnswerOf(t, f).at + cfg.ttl)
  }

  /** With introspection on, every successful `Verify` goes back to an active
      answer of the issuer about that token: of a request outstanding when the originating
      call began, or answered less than IntrospectionCacheTTL before; and a call served from
      the result cache began less than its duration after the originating call.
      The claims it returns are the token's own, for a JWT, or those of that answer. */
  lemma VerifyTracesToAnActiveAnswer(cfg: Config, actions: seq<Action>, v: nat, origin: nat)
    requires cfg.introspects && Succeeds(Run(cfg, INITIAL, actions), v, origin)
    ensures var t := Run(cfg, INITIAL, actions);
      var f := FlightBehind(t, origin);
      && t.calls[origin].token == t.calls[v].token
      && Backed(cfg, t, origin, f)
      && t.calls[v].pc.claims == Final(cfg, t.calls[v].token, AnswerOf(t, f).reply.claims)
      && (v != origin ==> cfg.duration.Some? && t.calls[v].begunAt < t.calls[origin].begunAt + cfg.duration.value)
  {
    InvRun(cfg, INITIAL, actions);
    var t := Run(cfg, INITIAL, actions);
    assert CallOk(cfg, t, v) && CallOk(cfg, t, origin);
    T.HitOrGot(cfg.ttl, t.intro, origin);
    if v != origin { assert t.calls[v].pc.FromCache?; }
  }

  /** The issuer does not call the token active in answer to any request made from `revokedAt`
      on. When it decided on earlier ones is not known. */
  ghost predicate RevokedFrom(t: State, token: string, revokedAt: Time) {
    forall f | 0 <= f < |t.intro.flights| && Answered(t, f) && t.intro.flights[f].token == token ::
      t.intro.flights[f].startedAt < revokedAt
  }

  /** No request about the token takes longer than `patience` from its start until it lands. */
  ghost predicate Patient(t: State, token: string, patience: int) {
    forall f | 0 <= f < |t.intro.flights| && Answered(t, f) && t.intro.flights[f].token == token ::
      LandingOf(t, f) <= t.intro.flights[f].startedAt + patience
  }

  /** The last instant, counted from the revocation, at which a call can begin and succeed: the
      time a request may take and the windows of the two caches add up, each cache's short of a
      nanosecond. */
  function LastSuccess(patience: int, ttl: int, duration: int): int { patience + Max(ttl - 1, 0) + duration - 2 }

  /** A token the issuer no longer calls active is rejected by every call that begins after
      a request's time and both caches' windows have run out. */
  lemma RevocationWindow(cfg: Config, actions: seq<Action>, v: nat, origin: nat, revokedAt: Time, patience: int)
    requires cfg.introspects && Succeeds(Run(cfg, INITIAL, actions), v, origin)
    requires var t := Run(cfg, INITIAL, actions);
      RevokedFrom(t, t.calls[v].token, revokedAt) && Patient(t, t.calls[v].token, patience)
    ensures var kept := if v == origin || cfg.duration.None? then 1 else cfg.duration.value;
      Run(cfg, INITIAL, actions).calls[v].begunAt <= revokedAt + LastSuccess(patience, cfg.ttl, kept)
  {
    VerifyTracesToAnActiveAnswer(cfg, actions, v, origin);
  }

  /** Neither cache is hit at or past an expiry it knows: the result cache honours
      the `exp` of the claims it keeps, which for an opaque token are those of the answer
      behind it; the introspection cache the token's own and the reported one. */
  lemma CacheHitsPrecedeKnownExpiries(cfg: Config, actions: seq<Action>, v: nat)
    requires v in Run(cfg, INITIAL, actions).calls
    ensures var t := Run(cfg, INITIAL, actions);
      var call := t.calls[v];
      && (call.pc.FromCache? ==>
            && (call.pc.claims.exp > 0.0 ==> call.begunAt as real < call.pc.claims.exp * 1000000000.0)
            && if cfg.local(call.token).Jwt? then call.pc.claims == cfg.local(call.token).claims
               else Answered(t, FlightBehind(t, call.pc.source)) &&
                    t.intro.flights[FlightBehind(t, call.pc.source)].token == call.token &&
                    call.pc.claims == AnswerOf(t, FlightBehind(t, call.pc.source)).reply.claims)
      && (v in t.intro.callers && t.intro.callers[v].pc.Hit? ==>
            var caller := t.intro.callers[v];
            var entry, shape := caller.pc.entry, cfg.local(caller.token);
            && (entry.claims.exp > 0.0 ==> caller.calledAt as real < entry.claims.exp * 1000000000.0)
            && (shape.Jwt? && shape.claims.exp > 0.0 ==>
                  caller.calledAt as real < shape.claims.exp * 1000000000.0))
  {
    InvRun(cfg, INITIAL, actions);
    var t := Run(cfg, INITIAL, actions);
    assert CallOk(cfg, t, v);
    if t.calls[v].pc.FromCache? {
      assert CallOk(cfg, t, t.calls[v].pc.source);
      if cfg.introspects { VerifyTracesToAnActiveAnswer(cfg, actions, v, t.calls[v].pc.source); }
    }
    if v in t.intro.callers { T.HitOrGot(cfg.ttl, t.intro, v); }
  }
}
