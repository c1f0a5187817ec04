/** One call of the introspector, and one of `OIDC.Verify`, that nobody interferes with,
    as runs of the protocols; and how each such run ends. */
module VerifierCalls {
  import opened Prelude
  import opened Caches
  import opened Introspection
  import R = VerifierRuns
  import T = IntrospectionTheorems
  import V = Verifier

  // ----- introspection ------------------------------------------------------

  /** The steps after the lookup, whatever it found: those of other paths are not enabled. */
  function Asking(s: State, c: nat, reply: Reply, delay: nat): seq<Action> {
    [Join(c), Tick(delay), Respond(|s.flights|, reply), Land(|s.flights|), Receive(c), Store(c)]
  }

  /** A lookup at the clock, and the issuer's reply `delay` later if it is asked. */
  function IntrospectAlone(
    ttl: int, s: State, c: nat, token: string, known: Option<Time>, reply: Reply, delay: nat): State
  {
    Run(ttl, Next(ttl, s, Call(c, token, known)), Asking(s, c, reply, delay))
  }

  /** The caller is done, with these claims or an error. */
  predicate Ends(pc: Pc, claims: Option<Claims>) {
    match pc
    case Hit(_, entry) => claims == Some(entry.claims)
    case Got(_, got) => claims == Some(got)
    case Refused => claims == None
    case _ => false
  }

  lemma RunSix(ttl: int, s: State, a: Action, b: Action, c: Action, d: Action, e: Action, f: Action)
    ensures Run(ttl, s, [a, b, c, d, e, f])
         == Next(ttl, Next(ttl, Next(ttl, Next(ttl, Next(ttl, Next(ttl, s, a), b), c), d), e), f)
  {
    T.RunThree(ttl, s, a, b, c);
    T.RunThree(ttl, Next(ttl, Next(ttl, Next(ttl, s, a), b), c), d, e, f);
    T.RunAppend(ttl, s, [a, b, c], [d, e, f]);
    assert [a, b, c] + [d, e, f] == [a, b, c, d, e, f];
  }

  /** For a caller that is done, or not there, nothing but time happens. */
  lemma NobodyAsks(ttl: int, s: State, c: nat, reply: Reply, delay: nat)
    requires c in s.callers ==> s.callers[c].pc.Hit? || s.callers[c].pc.Refused?
    ensures Run(ttl, s, Asking(s, c, reply, delay)) == s.(clock := s.clock + delay)
  {
    RunSix(ttl, s, Join(c), Tick(delay), Respond(|s.flights|, reply), Land(|s.flights|), Receive(c), Store(c));
  }

  /** The empty token, and a token in the cache. */
  lemma AnsweredAtOnce(
    ttl: int, s: State, c: nat, token: string, known: Option<Time>, reply: Reply, delay: nat)
    requires c !in s.callers
    requires token == "" || (ttl > 0 && LookupIn(s.entries, token, s.clock).Some?)
    ensures var t := IntrospectAlone(ttl, s, c, token, known, reply, delay);
      && t.entries == s.entries && c in t.callers
      && Ends(t.callers[c].pc, if token == "" then None else Some(s.entries[token].claims))
  {
    NobodyAsks(ttl, CallStep(ttl, s, c, token, known), c, reply, delay);
  }

  /** The state when the reply to a lone request comes in. */
  function Replied(
    ttl: int, s: State, c: nat, token: string, known: Option<Time>, reply: Reply, delay: nat): State
  {
    var now := s.clock + delay;
    var deadline := if reply.Active? then EffectiveExpiry(ttl, now, known, reply.claims.exp) else None;
    s.(clock := now,
       flights := s.flights + [Flight(token, known, s.clock, Some(Answer(reply, deadline, now)), Some(now))],
       callers := s.callers[c := Caller(token, known, s.clock, Waiting(|s.flights|))])
  }

  /** A lone request for the token is outstanding. */
  function Requested(s: State, c: nat, token: string, known: Option<Time>): State {
    s.(flights := s.flights + [Flight(token, known, s.clock, None, None)],
       inflight := s.inflight[token := |s.flights|],
       callers := s.callers[c := Caller(token, known, s.clock, Waiting(|s.flights|))])
  }

  lemma RequestsAlone(ttl: int, s: State, c: nat, token: string, known: Option<Time>)
    requires c !in s.callers && token !in s.inflight && token != ""
    requires ttl > 0 ==> LookupIn(s.entries, token, s.clock).None?
    ensures Next(ttl, Next(ttl, s, Call(c, token, known)), Join(c)) == Requested(s, c, token, known)
  {
    var s1 := Next(ttl, s, Call(c, token, known));
    assert s1 == s.(callers := s.callers[c := Caller(token, known, s.clock, Joining)]);
    assert JoinStep(s1, c).callers == Requested(s, c, token, known).callers;
  }

  lemma RepliesAlone(ttl: int, s: State, c: nat, token: string, known: Option<Time>, reply: Reply, delay: nat)
    requires token !in s.inflight
    ensures var n := |s.flights|;
      Next(ttl, Next(ttl, Next(ttl, Requested(s, c, token, known), Tick(delay)), Respond(n, reply)), Land(n))
         == Replied(ttl, s, c, token, known, reply, delay)
  {
    var n := |s.flights|;
    var s1 := Next(ttl, Requested(s, c, token, known), Tick(delay));
    var s2, t := RespondStep(ttl, s1, n, reply), Replied(ttl, s, c, token, known, reply, delay);
    assert s2.flights[n] == t.flights[n].(landedAt := None);
    var s3 := LandStep(s2, n);
    assert s3.flights == t.flights;
    assert s3.inflight == s.inflight;
  }

  lemma UntilTheReply(
    ttl: int, s: State, c: nat, token: string, known: Option<Time>, reply: Reply, delay: nat)
    requires c !in s.callers && token !in s.inflight && token != ""
    requires ttl > 0 ==> LookupIn(s.entries, token, s.clock).None?
    ensures IntrospectAlone(ttl, s, c, token, known, reply, delay)
         == Next(ttl, Next(ttl, Replied(ttl, s, c, token, known, reply, delay), Receive(c)), Store(c))
  {
    var s1 := Next(ttl, s, Call(c, token, known));
    RunSix(ttl, s1, Join(c), Tick(delay), Respond(|s.flights|, reply), Land(|s.flights|), Receive(c), Store(c));
    RequestsAlone(ttl, s, c, token, known);
    RepliesAlone(ttl, s, c, token, known, reply, delay);
  }

  /** Every other token is asked about, and only an active answer with time to live is kept. */
  lemma AnsweredByTheIssuer(
    ttl: int, s: State, c: nat, token: string, known: Option<Time>, reply: Reply, delay: nat)
    requires c !in s.callers && token !in s.inflight && token != ""
    requires ttl > 0 ==> LookupIn(s.entries, token, s.clock).None?
    ensures var t := IntrospectAlone(ttl, s, c, token, known, reply, delay);
      && c in t.callers
      && if reply.Active? then
           var deadline := EffectiveExpiry(ttl, s.clock + delay, known, reply.claims.exp);
           && Ends(t.callers[c].pc, Some(reply.claims))
           && t.entries == if deadline.Some? then s.entries[token := Entry(reply.claims, deadline.value)]
                           else s.entries
         else Ends(t.callers[c].pc, None) && t.entries == s.entries
  {
    UntilTheReply(ttl, s, c, token, known, reply, delay);
    AnswerTaken(ttl, Replied(ttl, s, c, token, known, reply, delay), |s.flights|, c);
  }

  /** The caller takes the answer of a request that has landed, and keeps it. */
  lemma AnswerTaken(ttl: int, t: State, f: nat, c: nat)
    requires Landed(t, f) && c in t.callers && t.callers[c].pc == Waiting(f)
    ensures var answer, token := t.flights[f].answer.value, t.callers[c].token;
      var u := Next(ttl, Next(ttl, t, Receive(c)), Store(c));
      && c in u.callers
      && if answer.reply.Active? then
           && Ends(u.callers[c].pc, Some(answer.reply.claims))
           && u.entries == if ttl > 0 && answer.expiresAt.Some?
                           then t.entries[token := Entry(answer.reply.claims, answer.expiresAt.value)] else t.entries
         else Ends(u.callers[c].pc, None) && u.entries == t.entries
  {
    var received := Next(ttl, t, Receive(c));
    assert received.callers[c].pc == Received(ttl, f, t.flights[f].answer.value);
    assert received.callers[c].token == t.callers[c].token && received.entries == t.entries;
  }

  /** What a lone introspection comes to: the live entry, read at `asked`, or the issuer's reply,
      received at `replied`; only an active reply with time to live is kept. */
  predicate Introspected(
    ttl: int, before: Entries, token: string, known: Option<Time>, asked: Time, reply: Reply, replied: Time,
    claims: Option<Claims>, after: Entries)
  {
    if token == "" then claims == None && after == before
    else if ttl > 0 && token in before && asked < before[token].expiresAt then
      claims == Some(before[token].claims) && after == before
    else if !reply.Active? then claims == None && after == before
    else
      var limit := EffectiveExpiry(ttl, replied, known, reply.claims.exp);
      && claims == Some(reply.claims)
      && after == if limit.Some? then before[token := Entry(reply.claims, limit.value)] else before
  }

  /** The run of a lone caller in the protocol ends in exactly that. */
  lemma LoneIntrospectionOutcome(
    ttl: int, s: State, c: nat, token: string, known: Option<Time>, reply: Reply, delay: nat,
    claims: Option<Claims>, after: Entries)
    requires c !in s.callers && token !in s.inflight
    ensures var t := IntrospectAlone(ttl, s, c, token, known, reply, delay);
      c in t.callers &&
      (Introspected(ttl, s.entries, token, known, s.clock, reply, s.clock + delay, claims, after) <==>
       Ends(t.callers[c].pc, claims) && after == t.entries)
  {
    if token == "" || (ttl > 0 && LookupIn(s.entries, token, s.clock).Some?) {
      AnsweredAtOnce(ttl, s, c, token, known, reply, delay);
    } else {
      AnsweredByTheIssuer(ttl, s, c, token, known, reply, delay);
    }
  }

  // ----- verification -------------------------------------------------------

  function Lift(steps: seq<Action>): seq<V.Action> {
    if steps == [] then [] else [V.Step(steps[0])] + Lift(steps[1..])
  }

  /** Up to and with the call of the introspector, `pause` after the only clock reading. */
  function Starting(v: nat, token: string, verifies: bool, pause: nat): seq<V.Action> {
    [V.Begin(v, token, verifies), V.Step(Tick(pause)), V.Ask(v)]
  }

  function Started(cfg: V.Config, s: V.State, v: nat, token: string, verifies: bool, pause: nat): V.State {
    V.Next(cfg, V.Next(cfg, V.Next(cfg, s, V.Begin(v, token, verifies)), V.Step(Tick(pause))), V.Ask(v))
  }

  function VerifyAlone(
    cfg: V.Config, s: V.State, v: nat, token: string, verifies: bool, pause: nat, reply: Reply, delay: nat): V.State
  {
    V.Run(cfg, s, Starting(v, token, verifies, pause) + (Lift(Asking(s.intro, v, reply, delay)) + [V.Finish(v)]))
  }

  lemma RunThree(cfg: V.Config, s: V.State, steps: seq<V.Action>)
    requires 3 <= |steps|
    ensures V.Run(cfg, s, steps)
         == V.Run(cfg, V.Next(cfg, V.Next(cfg, V.Next(cfg, s, steps[0]), steps[1]), steps[2]), steps[1..][1..][1..])
  {
    var s1 := V.Next(cfg, s, steps[0]);
    assert V.Run(cfg, s, steps) == V.Run(cfg, s1, steps[1..]);
    var s2 := V.Next(cfg, s1, steps[1..][0]);
    assert V.Run(cfg, s1, steps[1..]) == V.Run(cfg, s2, steps[1..][1..]);
  }

  lemma AfterTheStart(
    cfg: V.Config, s: V.State, v: nat, token: string, verifies: bool, pause: nat, rest: seq<V.Action>)
    ensures V.Run(cfg, s, Starting(v, token, verifies, pause) + rest)
         == V.Run(cfg, Started(cfg, s, v, token, verifies, pause), rest)
  {
    var steps := Starting(v, token, verifies, pause) + rest;
    assert steps[1..] == [V.Step(Tick(pause)), V.Ask(v)] + rest;
    assert steps[1..][1..] == [V.Ask(v)] + rest && steps[1..][1..][1..] == rest;
    RunThree(cfg, s, steps);
  }

  predicate Returns(pc: V.Pc, claims: Option<Claims>) {
    match pc
    case Accepted(c) => claims == Some(c)
    case FromCache(c, _) => claims == Some(c)
    case Rejected => claims == None
    case _ => false
  }

  lemma {:induction false} LiftRuns(cfg: V.Config, s: V.State, steps: seq<Action>)
    requires forall a <- steps :: !a.Call?
    ensures V.Run(cfg, s, Lift(steps)) == s.(intro := Run(cfg.ttl, s.intro, steps))
    decreases |steps|
  {
    if steps != [] {
      assert Lift(steps)[1..] == Lift(steps[1..]);
      LiftRuns(cfg, V.Next(cfg, s, V.Step(steps[0])), steps[1..]);
    }
  }

  lemma FinishesLast(cfg: V.Config, s: V.State, v: nat, steps: seq<Action>)
    requires forall a <- steps :: !a.Call?
    ensures V.Run(cfg, s, Lift(steps) + [V.Finish(v)])
         == V.Next(cfg, s.(intro := Run(cfg.ttl, s.intro, steps)), V.Finish(v))
  {
    LiftRuns(cfg, s, steps);
    R.RunSnoc(cfg, s, Lift(steps), V.Finish(v));
  }

  /** What the result cache holds once a call begun at `now` has ended with these claims. */
  function Kept(cfg: V.Config, results: Entries, token: string, claims: Option<Claims>, now: Time): Entries {
    if cfg.duration.None? || claims.None? then results
    else results[token := Entry(claims.value, ResultExpiry(cfg.duration.value, claims.value, now))]
  }

  /** How a lone call ends: its result, and both caches. */
  ghost predicate Concludes(t: V.State, v: nat, claims: Option<Claims>, results: Entries, entries: Entries) {
    v in t.calls && Returns(t.calls[v].pc, claims) && t.results == results && t.intro.entries == entries
  }

  lemma DecidedLocally(
    cfg: V.Config, s: V.State, v: nat, token: string, verifies: bool, pause: nat, reply: Reply, delay: nat,
    b: V.State)
    requires v !in s.calls && v !in s.intro.callers && b == V.BeginStep(cfg, s, v, token, verifies)
    requires b.intro == s.intro && v in b.calls && !b.calls[v].pc.Asking? && !b.calls[v].pc.InFlight?
    ensures var t := VerifyAlone(cfg, s, v, token, verifies, pause, reply, delay);
      t == b.(intro := t.intro) && t.intro.entries == s.intro.entries
  {
    var started := Started(cfg, s, v, token, verifies, pause);
    assert V.Next(cfg, s, V.Begin(v, token, verifies)) == b;
    assert started == b.(intro := s.intro.(clock := s.intro.clock + pause));
    AfterTheStart(cfg, s, v, token, verifies, pause, Lift(Asking(s.intro, v, reply, delay)) + [V.Finish(v)]);
    FinishesLast(cfg, started, v, Asking(s.intro, v, reply, delay));
    NobodyAsks(cfg.ttl, started.intro, v, reply, delay);
  }

  /** Served from the result cache. */
  lemma ServedFromResults(
    cfg: V.Config, s: V.State, v: nat, token: string, verifies: bool, pause: nat, reply: Reply, delay: nat)
    requires v !in s.calls && v !in s.intro.callers
    requires cfg.duration.Some? && LookupIn(s.results, token, s.intro.clock).Some?
    ensures Concludes(VerifyAlone(cfg, s, v, token, verifies, pause, reply, delay), v,
                      Some(s.results[token].claims), s.results, s.intro.entries)
  {
    DecidedLocally(cfg, s, v, token, verifies, pause, reply, delay, V.BeginStep(cfg, s, v, token, verifies));
  }

  predicate Missed(cfg: V.Config, s: V.State, token: string) {
    cfg.duration.Some? ==> LookupIn(s.results, token, s.intro.clock).None?
  }

  /** A JWT that does not verify, or a token nothing could verify, is rejected; a JWT that
      verifies is accepted with its own claims when nobody else is to be asked. */
  lemma VerifiedLocally(
    cfg: V.Config, s: V.State, v: nat, token: string, verifies: bool, pause: nat, reply: Reply, delay: nat)
    requires v !in s.calls && v !in s.intro.callers && Missed(cfg, s, token)
    requires (cfg.local(token).Jwt? && !verifies) || !cfg.introspects
    ensures var claims := if cfg.local(token).Jwt? && verifies then Some(cfg.local(token).claims) else None;
      Concludes(VerifyAlone(cfg, s, v, token, verifies, pause, reply, delay), v, claims,
                Kept(cfg, s.results, token, claims, s.intro.clock), s.intro.entries)
  {
    DecidedLocally(cfg, s, v, token, verifies, pause, reply, delay, V.BeginStep(cfg, s, v, token, verifies));
  }

  /** Left to the introspector, the call's last step follows the introspection. */
  lemma AsksTheIntrospector(
    cfg: V.Config, s: V.State, v: nat, token: string, verifies: bool, pause: nat, reply: Reply, delay: nat)
    requires v !in s.calls && v !in s.intro.callers && Missed(cfg, s, token)
    requires cfg.introspects && (cfg.local(token).Jwt? ==> verifies)
    ensures var later := s.intro.(clock := s.intro.clock + pause);
      var i := IntrospectAlone(cfg.ttl, later, v, token, V.KnownExpiry(cfg.local(token)), reply, delay);
      var asked := s.(intro := i, calls := s.calls[v := V.Call(token, s.intro.clock, V.InFlight)]);
      VerifyAlone(cfg, s, v, token, verifies, pause, reply, delay) == V.Next(cfg, asked, V.Finish(v))
  {
    var later := s.intro.(clock := s.intro.clock + pause);
    var started := Started(cfg, s, v, token, verifies, pause);
    var known := V.KnownExpiry(cfg.local(token));
    var begun := V.Next(cfg, V.Next(cfg, s, V.Begin(v, token, verifies)), V.Step(Tick(pause)));
    assert begun == s.(intro := later, calls := s.calls[v := V.Call(token, s.intro.clock, V.Asking)]);
    assert started.intro == Next(cfg.ttl, later, Call(v, token, known));
    assert started.calls == s.calls[v := V.Call(token, s.intro.clock, V.InFlight)];
    AfterTheStart(cfg, s, v, token, verifies, pause, Lift(Asking(s.intro, v, reply, delay)) + [V.Finish(v)]);
    FinishesLast(cfg, started, v, Asking(s.intro, v, reply, delay));
    assert Asking(later, v, reply, delay) == Asking(s.intro, v, reply, delay);
  }

  /** It is accepted just when the introspection ends with claims; a JWT keeps its own. */
  lemma VerifiedByIntrospection(
    cfg: V.Config, s: V.State, v: nat, token: string, verifies: bool, pause: nat, reply: Reply, delay: nat,
    i: State, introspected: Option<Claims>)
    requires v !in s.calls && v !in s.intro.callers && Missed(cfg, s, token)
    requires cfg.introspects && (cfg.local(token).Jwt? ==> verifies)
    requires i == IntrospectAlone(cfg.ttl, s.intro.(clock := s.intro.clock + pause), v, token,
                                  V.KnownExpiry(cfg.local(token)), reply, delay)
    requires v in i.callers && Ends(i.callers[v].pc, introspected)
    ensures var claims := if introspected.Some? && cfg.local(token).Jwt? then Some(cfg.local(token).claims)
                          else introspected;
      Concludes(VerifyAlone(cfg, s, v, token, verifies, pause, reply, delay), v, claims,
                Kept(cfg, s.results, token, claims, s.intro.clock), i.entries)
  {
    AsksTheIntrospector(cfg, s, v, token, verifies, pause, reply, delay);
    FinishConcludes(cfg, s, v, token, i, introspected);
  }

  lemma AcceptConcludes(cfg: V.Config, asked: V.State, v: nat, call: V.Call, claims: Claims)
    ensures Concludes(V.Accept(cfg, asked, v, call, claims), v, Some(claims),
                      Kept(cfg, asked.results, call.token, Some(claims), call.begunAt), asked.intro.entries)
  {
  }

  lemma FinishConcludes(cfg: V.Config, s: V.State, v: nat, token: string, i: State, introspected: Option<Claims>)
    requires v in i.callers && Ends(i.callers[v].pc, introspected)
    ensures var asked := s.(intro := i, calls := s.calls[v := V.Call(token, s.intro.clock, V.InFlight)]);
      var claims := if introspected.Some? && cfg.local(token).Jwt? then Some(cfg.local(token).claims)
                    else introspected;
      Concludes(V.Next(cfg, asked, V.Finish(v)), v, claims,
                Kept(cfg, s.results, token, claims, s.intro.clock), i.entries)
  {
    var call := V.Call(token, s.intro.clock, V.InFlight);
    var asked := s.(intro := i, calls := s.calls[v := call]);
    assert asked.calls[v] == call;
    if introspected.Some? {
      var claims := if cfg.local(token).Jwt? then cfg.local(token).claims else introspected.value;
      AcceptConcludes(cfg, asked, v, call, claims);
      assert V.FinishStep(cfg, asked, v) == V.Accept(cfg, asked, v, call, claims);
    } else {
      assert V.FinishStep(cfg, asked, v) == asked.(calls := asked.calls[v := call.(pc := V.Rejected)]);
    }
  }

  // ----- what a lone call comes to, in full ---------------------------------

  /** What a verifier is configured with and holds; the result cache is empty when there is none. */
  datatype Held = Held(introspects: bool, ttl: int, entries: Entries, duration: Option<int>, results: Entries)

  /** The result cache, if there is one, keeps accepted claims until its duration has passed or
      their `exp` comes, as `ServedUntilIff` says. */
  predicate Remembers(before: Held, token: string, now: Time, claims: Option<Claims>, results: Entries) {
    results ==
      if before.duration.None? || claims.None? then before.results
      else before.results[token := Entry(claims.value, ResultExpiry(before.duration.value, claims.value, now))]
  }

  /** A live result is served as it is. Otherwise a JWT must verify, and with introspection on
      the introspector's live entry, read at `asked`, or the issuer's reply, received at
      `replied`, must vouch for the token; a JWT keeps its own claims. Only an accepted call
      changes the result cache, and only an active reply the introspector's. */
  predicate Outcome(
    before: Held, token: string, now: Time, shape: V.Shape, verifies: bool, asked: Time, reply: Reply, replied: Time,
    claims: Option<Claims>, after: Held)
  {
    after == before.(entries := after.entries, results := after.results) &&
    if token in before.results && now < before.results[token].expiresAt then
      claims == Some(before.results[token].claims) && after == before
    else if shape.Jwt? && !verifies then claims == None && after == before
    else if !before.introspects then
      && claims == (if shape.Jwt? then Some(shape.claims) else None)
      && after.entries == before.entries && Remembers(before, token, now, claims, after.results)
    else
      && Remembers(before, token, now, claims, after.results)
      && if token == "" then claims == None && after.entries == before.entries
         else if before.ttl > 0 && token in before.entries && asked < before.entries[token].expiresAt then
           && claims == Some(if shape.Jwt? then shape.claims else before.entries[token].claims)
           && after.entries == before.entries
         else if !reply.Active? then claims == None && after.entries == before.entries
         else
           var own := if shape.Jwt? && shape.claims.exp > 0.0 then Some(Unix(shape.claims.exp)) else None;
           var limit := EffectiveExpiry(before.ttl, replied, own, reply.claims.exp);
           && claims == Some(if shape.Jwt? then shape.claims else reply.claims)
           && after.entries == if limit.Some? then before.entries[token := Entry(reply.claims, limit.value)]
                               else before.entries
  }

  function HeldAs(cfg: V.Config, results: Entries, entries: Entries): Held {
    Held(cfg.introspects, cfg.ttl, entries, cfg.duration, if cfg.duration.None? then map[] else results)
  }

  function HeldBy(cfg: V.Config, s: V.State): Held { HeldAs(cfg, s.results, s.intro.entries) }

  lemma KeptIsRemembered(
    cfg: V.Config, before: Held, results: Entries, token: string, now: Time, claims: Option<Claims>, kept: Entries)
    requires before.duration == cfg.duration && before.results == (if cfg.duration.None? then map[] else results)
    requires kept == Kept(cfg, results, token, claims, now)
    ensures Remembers(before, token, now, claims, if cfg.duration.None? then map[] else kept)
  {
  }

  lemma IntrospectedOutcome(
    cfg: V.Config, s: V.State, token: string, verifies: bool, asked: Time, reply: Reply, replied: Time,
    introspected: Option<Claims>, entries: Entries)
    requires Missed(cfg, s, token) && cfg.introspects && (cfg.local(token).Jwt? ==> verifies)
    requires Introspected(cfg.ttl, s.intro.entries, token, V.KnownExpiry(cfg.local(token)), asked, reply, replied,
                          introspected, entries)
    ensures var claims := AcceptedClaims(cfg, token, introspected);
      Outcome(HeldBy(cfg, s), token, s.intro.clock, cfg.local(token), verifies, asked, reply, replied,
              claims, HeldAs(cfg, Kept(cfg, s.results, token, claims, s.intro.clock), entries))
  {
    var claims := AcceptedClaims(cfg, token, introspected);
    var kept := Kept(cfg, s.results, token, claims, s.intro.clock);
    KeptIsRemembered(cfg, HeldBy(cfg, s), s.results, token, s.intro.clock, claims, kept);
  }

  lemma LoneIntrospection(
    cfg: V.Config, s: V.State, v: nat, token: string, pause: nat, reply: Reply, delay: nat, i: State)
    returns (claims: Option<Claims>)
    requires v !in s.intro.callers && token !in s.intro.inflight
    requires i == IntrospectAlone(cfg.ttl, s.intro.(clock := s.intro.clock + pause), v, token,
                                  V.KnownExpiry(cfg.local(token)), reply, delay)
    ensures v in i.callers && Ends(i.callers[v].pc, claims)
    ensures Introspected(cfg.ttl, s.intro.entries, token, V.KnownExpiry(cfg.local(token)), s.intro.clock + pause,
                         reply, s.intro.clock + pause + delay, claims, i.entries)
  {
    var later, known := s.intro.(clock := s.intro.clock + pause), V.KnownExpiry(cfg.local(token));
    claims := if token == "" then None
              else if cfg.ttl > 0 && LookupIn(later.entries, token, later.clock).Some? then
                Some(later.entries[token].claims)
              else if reply.Active? then Some(reply.claims) else None;
    var limit := if reply.Active? then EffectiveExpiry(cfg.ttl, later.clock + delay, known, reply.claims.exp) else None;
    var stays := claims.None? || !reply.Active? || limit.None?
                 || (cfg.ttl > 0 && LookupIn(later.entries, token, later.clock).Some?);
    var after := if stays then later.entries else later.entries[token := Entry(reply.claims, limit.value)];
    LoneIntrospectionOutcome(cfg.ttl, later, v, token, known, reply, delay, claims, after);
  }

  function AcceptedClaims(cfg: V.Config, token: string, introspected: Option<Claims>): Option<Claims> {
    if introspected.Some? && cfg.local(token).Jwt? then Some(cfg.local(token).claims) else introspected
  }

  /** A token left to the introspector. */
  lemma EndsByIntrospection(
    cfg: V.Config, s: V.State, v: nat, token: string, verifies: bool, pause: nat, reply: Reply, delay: nat)
    returns (introspected: Option<Claims>, entries: Entries)
    requires v !in s.calls && v !in s.intro.callers && token !in s.intro.inflight
    requires Missed(cfg, s, token) && cfg.introspects && (cfg.local(token).Jwt? ==> verifies)
    ensures var claims := AcceptedClaims(cfg, token, introspected);
      Concludes(VerifyAlone(cfg, s, v, token, verifies, pause, reply, delay), v, claims,
                Kept(cfg, s.results, token, claims, s.intro.clock), entries)
    ensures Introspected(cfg.ttl, s.intro.entries, token, V.KnownExpiry(cfg.local(token)), s.intro.clock + pause,
                         reply, s.intro.clock + pause + delay, introspected, entries)
  {
    var i := IntrospectAlone(cfg.ttl, s.intro.(clock := s.intro.clock + pause), v, token,
                             V.KnownExpiry(cfg.local(token)), reply, delay);
    introspected := LoneIntrospection(cfg, s, v, token, pause, reply, delay, i);
    entries := i.entries;
    VerifiedByIntrospection(cfg, s, v, token, verifies, pause, reply, delay, i, introspected);
  }

  /** `t` is where a call ends, in the outcome stated. */
  ghost predicate EndsIn(
    cfg: V.Config, s: V.State, t: V.State, v: nat, token: string, verifies: bool, asked: Time, reply: Reply,
    replied: Time, claims: Option<Claims>)
  {
    && v in t.calls && Returns(t.calls[v].pc, claims)
    && Outcome(HeldBy(cfg, s), token, s.intro.clock, cfg.local(token), verifies, asked, reply, replied, claims,
               HeldBy(cfg, t))
  }

  /** The lone calls that ask nobody. */
  lemma LocalOutcome(
    cfg: V.Config, s: V.State, t: V.State, v: nat, token: string, verifies: bool, asked: Time, reply: Reply,
    replied: Time, claims: Option<Claims>)
    requires if !Missed(cfg, s, token) then
               claims == Some(s.results[token].claims) && Concludes(t, v, claims, s.results, s.intro.entries)
             else
               && ((cfg.local(token).Jwt? && !verifies) || !cfg.introspects)
               && claims == (if cfg.local(token).Jwt? && verifies then Some(cfg.local(token).claims) else None)
               && Concludes(t, v, claims, Kept(cfg, s.results, token, claims, s.intro.clock), s.intro.entries)
    ensures EndsIn(cfg, s, t, v, token, verifies, asked, reply, replied, claims)
  {
    if Missed(cfg, s, token) {
      KeptIsRemembered(cfg, HeldBy(cfg, s), s.results, token, s.intro.clock, claims, t.results);
    }
  }

  lemma ConcludesIn(
    cfg: V.Config, s: V.State, t: V.State, v: nat, token: string, verifies: bool, asked: Time, reply: Reply,
    replied: Time, introspected: Option<Claims>, entries: Entries)
    requires Missed(cfg, s, token) && cfg.introspects && (cfg.local(token).Jwt? ==> verifies)
    requires Introspected(cfg.ttl, s.intro.entries, token, V.KnownExpiry(cfg.local(token)), asked, reply, replied,
                          introspected, entries)
    requires var claims := AcceptedClaims(cfg, token, introspected);
      Concludes(t, v, claims, Kept(cfg, s.results, token, claims, s.intro.clock), entries)
    ensures EndsIn(cfg, s, t, v, token, verifies, asked, reply, replied, AcceptedClaims(cfg, token, introspected))
  {
    IntrospectedOutcome(cfg, s, token, verifies, asked, reply, replied, introspected, entries);
  }

  lemma LoneVerifyEnds(
    cfg: V.Config, s: V.State, v: nat, token: string, verifies: bool, pause: nat, reply: Reply, delay: nat)
    returns (claims: Option<Claims>)
    requires v !in s.calls && v !in s.intro.callers && token !in s.intro.inflight
    ensures EndsIn(cfg, s, VerifyAlone(cfg, s, v, token, verifies, pause, reply, delay), v, token, verifies,
                   s.intro.clock + pause, reply, s.intro.clock + pause + delay, claims)
  {
    var t := VerifyAlone(cfg, s, v, token, verifies, pause, reply, delay);
    var asked, replied := s.intro.clock + pause, s.intro.clock + pause + delay;
    if !Missed(cfg, s, token) {
      ServedFromResults(cfg, s, v, token, verifies, pause, reply, delay);
      claims := Some(s.results[token].claims);
      LocalOutcome(cfg, s, t, v, token, verifies, asked, reply, replied, claims);
    } else if (cfg.local(token).Jwt? && !verifies) || !cfg.introspects {
      VerifiedLocally(cfg, s, v, token, verifies, pause, reply, delay);
      claims := if cfg.local(token).Jwt? && verifies then Some(cfg.local(token).claims) else None;
      LocalOutcome(cfg, s, t, v, token, verifies, asked, reply, replied, claims);
    } else {
      var introspected, entries := EndsByIntrospection(cfg, s, v, token, verifies, pause, reply, delay);
      claims := AcceptedClaims(cfg, token, introspected);
      ConcludesIn(cfg, s, t, v, token, verifies, asked, reply, replied, introspected, entries);
    }
  }

  /** An outcome is what it says and nothing else. */
  lemma OutcomeIsUnique(
    before: Held, token: string, now: Time, shape: V.Shape, verifies: bool, asked: Time, reply: Reply, replied: Time,
    claims: Option<Claims>, after: Held, claims2: Option<Claims>, after2: Held)
    requires Outcome(before, token, now, shape, verifies, asked, reply, replied, claims, after)
    requires Outcome(before, token, now, shape, verifies, asked, reply, replied, claims2, after2)
    ensures claims2 == claims && after2 == after
  {
  }

  lemma EndsUniquely(
    cfg: V.Config, s: V.State, t: V.State, v: nat, token: string, verifies: bool, asked: Time, reply: Reply,
    replied: Time, c: Option<Claims>, claims: Option<Claims>, after: Held)
    requires EndsIn(cfg, s, t, v, token, verifies, asked, reply, replied, c)
    ensures Outcome(HeldBy(cfg, s), token, s.intro.clock, cfg.local(token), verifies, asked, reply, replied, claims,
                    after)
      <==> Returns(t.calls[v].pc, claims) && after == HeldBy(cfg, t)
  {
    if Outcome(HeldBy(cfg, s), token, s.intro.clock, cfg.local(token), verifies, asked, reply, replied, claims, after) {
      OutcomeIsUnique(HeldBy(cfg, s), token, s.intro.clock, cfg.local(token), verifies, asked, reply, replied,
                      c, HeldBy(cfg, t), claims, after);
    }
  }

  /** The run of a lone call in the protocol ends in exactly that outcome. */
  lemma LoneVerifyOutcome(
    cfg: V.Config, s: V.State, v: nat, token: string, verifies: bool, pause: nat, reply: Reply, delay: nat,
    claims: Option<Claims>, after: Held)
    requires v !in s.calls && v !in s.intro.callers && token !in s.intro.inflight
    ensures var t := VerifyAlone(cfg, s, v, token, verifies, pause, reply, delay);
      v in t.calls &&
      (Outcome(HeldBy(cfg, s), token, s.intro.clock, cfg.local(token), verifies, s.intro.clock + pause, reply,
               s.intro.clock + pause + delay, claims, after) <==>
       Returns(t.calls[v].pc, claims) && after == HeldBy(cfg, t))
  {
    var c := LoneVerifyEnds(cfg, s, v, token, verifies, pause, reply, delay);
    var t := VerifyAlone(cfg, s, v, token, verifies, pause, reply, delay);
    EndsUniquely(cfg, s, t, v, token, verifies, s.intro.clock + pause, reply, s.intro.clock + pause + delay, c,
                 claims, after);
  }
}
