/** The idle timeout under interleaving: LastSeenAt holds the `now` of whoever wrote it last,
    which need not be the latest `now` it was used at. */
module SessionIdle {
  import opened Prelude
  import opened Sessions
  import opened SessionProtocol
  import opened SessionSafety

  /** The `now` that a step records as a use of the session: a touch that is not lost, or a
      granted refresh. */
  function UseIn(settings: Settings, s: State, a: Action, id: Id): seq<Time> {
    match a
    case Touch(r, lost) =>
      if At(s, r) && s.requests[r].pc.Touching? && s.requests[r].id == id && !lost then [s.requests[r].now] else []
    case Lock(r, answer) =>
      if At(s, r) && s.requests[r].pc.Locking? && s.requests[r].id == id && Grants(settings, s, r, answer)
      then [s.requests[r].now] else []
    case _ => []
  }

  predicate Grants(settings: Settings, s: State, r: Req, answer: Option<TokenResponse>)
    requires At(s, r)
  {
    var rq := s.requests[r];
    && rq.id in s.store && AsksIssuer(settings, s.store[rq.id], rq.now)
    && answer.Some? && s.issuer.MayIssue(answer.value.refresh, s.store[rq.id].tokens.refresh)
  }

  /** The uses a run records, in the order in which they reach the store. */
  function Uses(settings: Settings, s: State, actions: seq<Action>, id: Id): seq<Time>
    decreases |actions|
  {
    if actions == [] then []
    else UseIn(settings, s, actions[0], id) + Uses(settings, Next(settings, s, actions[0]), actions[1..], id)
  }

  function LastOr(uses: seq<Time>, seen: Option<Time>): Option<Time> {
    if uses == [] then seen else Some(uses[|uses| - 1])
  }

  lemma UseIsSeen(settings: Settings, s: State, a: Action, id: Id)
    requires id in s.store && id in s.used && id in Next(settings, s, a).store
    ensures Next(settings, s, a).store[id].lastSeen == LastOr(UseIn(settings, s, a, id), s.store[id].lastSeen)
  {
  }

  /** In every run LastSeenAt is the `now` of the last use to reach the store. */
  lemma {:induction false} LastSeenIsTheLastWrite(settings: Settings, s: State, actions: seq<Action>, id: Id)
    requires id in s.store && id in s.used && id in Run(settings, s, actions).store
    ensures Run(settings, s, actions).store[id].lastSeen == LastOr(Uses(settings, s, actions, id), s.store[id].lastSeen)
    decreases |actions|
  {
    if actions != [] {
      var t := Next(settings, s, actions[0]);
      EvolvesStep(settings, s, actions[0]);
      SessionsKeepTheirIdentity(settings, t, actions[1..]);
      UseIsSeen(settings, s, actions[0], id);
      LastSeenIsTheLastWrite(settings, t, actions[1..], id);
    }
  }

  predicate Within(settings: Settings, use: Time, at: Time) { at - use <= settings.idleTimeout }

  /** After any history and continuation, a session used within the idle time and below its
      ceiling is expired all the same exactly when the last use to reach the store is a stale
      one, written by a request that had read its clock too long before. */
  lemma IdleExpiredThoughUsedIff(
    settings: Settings, history: seq<Action>, actions: seq<Action>, id: Id, at: Time, use: Time)
    requires settings.idleTimeout > 0
    requires var s := Run(settings, INITIAL, history);
      && id in s.store && id in Run(settings, s, actions).store
      && at < Run(settings, s, actions).store[id].expiresAt
      && use in Uses(settings, s, actions, id) && Within(settings, use, at)
    ensures var s := Run(settings, INITIAL, history);
      var uses := Uses(settings, s, actions, id);
      IsExpired(settings, Run(settings, s, actions).store[id], at) <==> !Within(settings, uses[|uses| - 1], at)
  {
    var s := Run(settings, INITIAL, history);
    StoreInvRun(settings, INITIAL, history);
    assert StoredOk(settings, s, id);
    LastSeenIsTheLastWrite(settings, s, actions, id);
  }

  /** It happens: two requests have read the session, the earlier one touches it last. */
  lemma SlowTouchExpires(settings: Settings, s: State, slow: Req, quick: Req, id: Id)
    requires settings.idleTimeout > 0 && id in s.store && slow != quick
    requires At(s, slow) && At(s, quick) && s.requests[slow].pc.Touching? && s.requests[quick].pc.Touching?
    requires s.requests[slow].id == id == s.requests[quick].id && s.requests[slow].now < s.requests[quick].now
    ensures var t := Run(settings, s, [Touch(quick, false), Touch(slow, false)]);
      var at := s.requests[quick].now + settings.idleTimeout;
      id in t.store && Within(settings, s.requests[quick].now, at) && IsExpired(settings, t.store[id], at)
  {
    var steps := [Touch(quick, false), Touch(slow, false)];
    assert steps[1..] == [Touch(slow, false)] && steps[1..][1..] == [];
    var s1 := Next(settings, s, steps[0]);
    assert s1.requests[slow] == s.requests[slow] && id in s1.store;
    var s2 := Next(settings, s1, steps[1]);
    assert Run(settings, s, steps) == Run(settings, s1, steps[1..]);
    assert Run(settings, s1, steps[1..]) == Run(settings, s2, []);
  }
}
