/** `OIDC.Verify` over its two caches: the whole-result cache in front, local
    verification, then the introspector, whose own steps interleave freely with
    every call's. */
module Verifier {
  import opened Prelude
  import opened Caches
  import I = Introspection

  /** What local verification can establish about a token: nothing for an opaque
      one, the signed claims for a JWT. */
  datatype Shape = Opaque | Jwt(claims: Claims)

  /** `duration` is the whole-result cache's, when one is attached; `local` is a
      function of the token, while whether a JWT still verifies is not. */
  datatype Config = Config(introspects: bool, ttl: int, duration: Option<int>, local: string -> Shape)

  function KnownExpiry(shape: Shape): Option<Time> {
    if shape.Jwt? && shape.claims.exp > 0.0 then Some(Unix(shape.claims.exp)) else None
  }

  datatype Pc =
    | Asking
    | InFlight
    | Accepted(claims: Claims)
    | FromCache(claims: Claims, source: nat)
    | Rejected

  /** One call of `Verify`: `begunAt` is its only clock reading. */
  datatype Call = Call(token: string, begunAt: Time, pc: Pc)

  /** `source` remembers, for the proofs, which call stored each result. */
  datatype State = State(
    intro: I.State, results: Entries, source: map<string, nat>, calls: map<nat, Call>)

  datatype Action =
    | Begin(v: nat, token: string, verifies: bool)
    | Ask(v: nat)
    | Finish(v: nat)
    | Step(a: I.Action)
    | EvictResults(at: Time)

  const INITIAL := State(I.INITIAL, map[], map[], map[])

  function SourceOf(s: State, token: string): nat {
    if token in s.source then s.source[token] else 0
  }

  function BeginStep(cfg: Config, s: State, v: nat, token: string, verifies: bool): State {
    var now := s.intro.clock;
    var cached := if cfg.duration.Some? then LookupIn(s.results, token, now) else None;
    var shape := cfg.local(token);
    var draft := Call(token, now, Rejected);
    if cached.Some? then
      s.(calls := s.calls[v := draft.(pc := FromCache(cached.value.claims, SourceOf(s, token)))])
    else if shape.Jwt? && !verifies then s.(calls := s.calls[v := draft])
    else if cfg.introspects then s.(calls := s.calls[v := draft.(pc := Asking)])
    else if shape.Opaque? then s.(calls := s.calls[v := draft])
    else Accept(cfg, s, v, draft, shape.claims)
  }

  /** The claims are good: keep them when a result cache is attached. */
  function Accept(cfg: Config, s: State, v: nat, call: Call, claims: Claims): State {
    var accepted := s.(calls := s.calls[v := call.(pc := Accepted(claims))]);
    if cfg.duration.None? then accepted
    else accepted.(
      results := s.results[call.token := Entry(claims, ResultExpiry(cfg.duration.value, claims, call.begunAt))],
      source := s.source[call.token := v])
  }

  function FinishStep(cfg: Config, s: State, v: nat): State
    requires v in s.calls && v in s.intro.callers
  {
    var call, shape := s.calls[v], cfg.local(s.calls[v].token);
    match s.intro.callers[v].pc
    case Hit(_, entry) => Accept(cfg, s, v, call, if shape.Jwt? then shape.claims else entry.claims)
    case Got(_, claims) => Accept(cfg, s, v, call, if shape.Jwt? then shape.claims else claims)
    case Refused => s.(calls := s.calls[v := call.(pc := Rejected)])
    case Cancelled => s.(calls := s.calls[v := call.(pc := Rejected)])
    case _ => s
  }

  function Next(cfg: Config, s: State, a: Action): State {
    match a
    case Begin(v, token, verifies) =>
      if v in s.calls || v in s.intro.callers then s else BeginStep(cfg, s, v, token, verifies)
    case Ask(v) =>
      if v in s.calls && s.calls[v].pc.Asking? then
        var call := s.calls[v];
        s.(intro := I.Next(cfg.ttl, s.intro, I.Call(v, call.token, KnownExpiry(cfg.local(call.token)))),
           calls := s.calls[v := call.(pc := InFlight)])
      else s
    case Finish(v) =>
      if v in s.calls && v in s.intro.callers && s.calls[v].pc.InFlight? then FinishStep(cfg, s, v) else s
    case Step(a) => if a.Call? then s else s.(intro := I.Next(cfg.ttl, s.intro, a))
    case EvictResults(at) =>
      if at <= s.intro.clock then s.(results := Unexpired(s.results, at)) else s
  }

  function Run(cfg: Config, s: State, actions: seq<Action>): State
    decreases |actions|
  {
    if actions == [] then s else Run(cfg, Next(cfg, s, actions[0]), actions[1..])
  }
}
