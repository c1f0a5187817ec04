/** The introspector as a transition system: callers that look up, join or start
    a shared request, receive its answer and store it, each as late as it likes;
    requests that are answered, and later leave the map of outstanding ones;
    cancellations, `ClearCache` and evictions in between. Actions that are not
    enabled leave the state alone. */
module Introspection {
  import opened Prelude
  import opened Caches

  /** What the issuer says (section 2.2 of RFC 7662), or that it could not be asked. */
  datatype Reply = Active(claims: Claims) | Inactive | Unavailable

  /** What the shared request hands to its waiters: claims and a deadline, if any. */
  datatype Answer = Answer(reply: Reply, expiresAt: Option<Time>, at: Time)

  /** One shared HTTP request: the leader's token and known expiry, the answer once it is
      computed, and the instant it reaches its waiters and can no longer be joined. */
  datatype Flight = Flight(
    token: string, known: Option<Time>, startedAt: Time, answer: Option<Answer>, landedAt: Option<Time>)

  datatype Pc =
    | Joining
    | Waiting(flight: nat)
    | Storing(flight: nat, entry: Entry)
    | Hit(flight: nat, entry: Entry)
    | Got(flight: nat, claims: Claims)
    | Refused
    | Cancelled

  datatype Caller = Caller(token: string, known: Option<Time>, calledAt: Time, pc: Pc)

  /** `flights` lists every request ever made and `inflight` the outstanding ones
      by token; `origin` remembers whose answer each entry is, for the proofs. */
  datatype State = State(
    clock: Time,
    entries: Entries,
    origin: map<string, nat>,
    flights: seq<Flight>,
    inflight: map<string, nat>,
    callers: map<nat, Caller>)

  datatype Action =
    | Tick(d: nat)
    | Call(c: nat, token: string, known: Option<Time>)
    | Join(c: nat)
    | Respond(flight: nat, reply: Reply)
    | Land(flight: nat)
    | Receive(c: nat)
    | Store(c: nat)
    | Cancel(c: nat)
    | Clear
    | Evict(at: Time)

  const INITIAL := State(0, map[], map[], [], map[], map[])

  function SetPc(s: State, c: nat, pc: Pc): State
    requires c in s.callers
  {
    s.(callers := s.callers[c := s.callers[c].(pc := pc)])
  }

  function OriginOf(s: State, token: string): nat {
    if token in s.origin then s.origin[token] else 0
  }

  function CallStep(ttl: int, s: State, c: nat, token: string, known: Option<Time>): State {
    var hit := if ttl > 0 then LookupIn(s.entries, token, s.clock) else None;
    var pc :=
      if token == "" then Refused
      else if hit.Some? then Hit(OriginOf(s, token), hit.value)
      else Joining;
    s.(callers := s.callers[c := Caller(token, known, s.clock, pc)])
  }

  /** `DoChan`: join the outstanding request for the token, or start one. */
  function JoinStep(s: State, c: nat): State
    requires c in s.callers
  {
    var x := s.callers[c];
    if x.token in s.inflight then SetPc(s, c, Waiting(s.inflight[x.token]))
    else
      SetPc(s, c, Waiting(|s.flights|)).(
        flights := s.flights + [Flight(x.token, x.known, s.clock, None, None)],
        inflight := s.inflight[x.token := |s.flights|])
  }

  function RespondStep(ttl: int, s: State, f: nat, reply: Reply): State
    requires f < |s.flights|
  {
    var flight := s.flights[f];
    var deadline := if reply.Active? then EffectiveExpiry(ttl, s.clock, flight.known, reply.claims.exp) else None;
    s.(flights := s.flights[f := flight.(answer := Some(Answer(reply, deadline, s.clock)))])
  }

  function LandStep(s: State, f: nat): State
    requires f < |s.flights|
  {
    s.(flights := s.flights[f := s.flights[f].(landedAt := Some(s.clock))],
       inflight := s.inflight - {s.flights[f].token})
  }

  predicate Landed(s: State, f: nat) {
    f < |s.flights| && s.flights[f].answer.Some? && s.flights[f].landedAt.Some?
  }

  /** What a waiter does with the answer. */
  function Received(ttl: int, f: nat, answer: Answer): Pc {
    if !answer.reply.Active? then Refused
    else if ttl > 0 && answer.expiresAt.Some? then Storing(f, Entry(answer.reply.claims, answer.expiresAt.value))
    else Got(f, answer.reply.claims)
  }

  function ReceiveStep(ttl: int, s: State, c: nat): State
    requires c in s.callers && s.callers[c].pc.Waiting?
  {
    var f := s.callers[c].pc.flight;
    if Landed(s, f) then SetPc(s, c, Received(ttl, f, s.flights[f].answer.value)) else s
  }

  function StoreStep(s: State, c: nat): State
    requires c in s.callers && s.callers[c].pc.Storing?
  {
    var x := s.callers[c];
    SetPc(s, c, Got(x.pc.flight, x.pc.entry.claims)).(
      entries := s.entries[x.token := x.pc.entry],
      origin := s.origin[x.token := x.pc.flight])
  }

  function Next(ttl: int, s: State, a: Action): State {
    match a
    case Tick(d) => s.(clock := s.clock + d)
    case Call(c, token, known) => if c in s.callers then s else CallStep(ttl, s, c, token, known)
    case Join(c) => if c in s.callers && s.callers[c].pc.Joining? then JoinStep(s, c) else s
    case Respond(f, reply) =>
      if f < |s.flights| && s.flights[f].answer.None? then RespondStep(ttl, s, f, reply) else s
    case Land(f) =>
      if f < |s.flights| && s.flights[f].answer.Some? && s.flights[f].landedAt.None? then LandStep(s, f) else s
    case Receive(c) => if c in s.callers && s.callers[c].pc.Waiting? then ReceiveStep(ttl, s, c) else s
    case Store(c) => if c in s.callers && s.callers[c].pc.Storing? then StoreStep(s, c) else s
    case Cancel(c) => if c in s.callers && s.callers[c].pc.Waiting? then SetPc(s, c, Cancelled) else s
    case Clear => s.(entries := map[])
    case Evict(at) => if at <= s.clock then s.(entries := Unexpired(s.entries, at)) else s
  }

  function Run(ttl: int, s: State, actions: seq<Action>): State
    decreases |actions|
  {
    if actions == [] then s else Run(ttl, Next(ttl, s, actions[0]), actions[1..])
  }
}
