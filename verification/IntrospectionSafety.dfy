/** Safety of the introspector over every interleaving. */
module IntrospectionSafety {
  import opened Prelude
  import opened Caches
  import opened Introspection

  // ----- provenance -------------------------------------------------------

  ghost predicate FlightOk(ttl: int, s: State, f: nat)
    requires f < |s.flights|
  {
    var flight := s.flights[f];
    && flight.startedAt <= s.clock
    && (flight.answer.Some? ==>
          var a := flight.answer.value;
          && flight.startedAt <= a.at <= s.clock
          && a.expiresAt ==
             if a.reply.Active? then EffectiveExpiry(ttl, a.at, flight.known, a.reply.claims.exp) else None)
    && (flight.landedAt.Some? ==> flight.answer.Some? && flight.answer.value.at <= flight.landedAt.value <= s.clock)
    && (flight.landedAt.None? ==> flight.token in s.inflight && s.inflight[flight.token] == f)
  }

  /** `entry` is the active answer of flight `f`, which asked about `token` and has landed. */
  ghost predicate Backs(s: State, f: nat, token: string, entry: Entry) {
    && Landed(s, f) && s.flights[f].token == token
    && s.flights[f].answer.value.reply == Active(entry.claims)
    && s.flights[f].answer.value.expiresAt == Some(entry.expiresAt)
  }

  ghost predicate CallerOk(ttl: int, s: State, c: nat)
    requires c in s.callers
  {
    var x := s.callers[c];
    && x.calledAt <= s.clock
    && match x.pc
       case Waiting(f) =>
         && f < |s.flights| && s.flights[f].token == x.token
         && (s.flights[f].landedAt.Some? ==> x.calledAt <= s.flights[f].landedAt.value)
       case Storing(f, entry) => Backs(s, f, x.token, entry) && x.calledAt <= s.flights[f].landedAt.value
       case Hit(f, entry) => ttl > 0 && Backs(s, f, x.token, entry) && x.calledAt < entry.expiresAt
       case Got(f, claims) =>
         && Landed(s, f) && s.flights[f].token == x.token
         && s.flights[f].answer.value.reply == Active(claims)
         && x.calledAt <= s.flights[f].landedAt.value
       case _ => true
  }

  ghost predicate Inv(ttl: int, s: State) {
    && (forall f | 0 <= f < |s.flights| :: FlightOk(ttl, s, f))
    && (forall k <- s.inflight :: s.inflight[k] < |s.flights| && s.flights[s.inflight[k]].landedAt.None?
                                 && s.flights[s.inflight[k]].token == k)
    && (forall c <- s.callers :: CallerOk(ttl, s, c))
    && EntriesOk(ttl, s)
  }

  /** Every entry is the positive answer of a request for its token. */
  ghost predicate EntriesOk(ttl: int, s: State) {
    forall k <- s.entries :: ttl > 0 && k in s.origin && Backs(s, s.origin[k], k, s.entries[k])
  }

  /** Requests are only ever added or answered, once. */
  ghost predicate Extends(s: State, t: State) {
    && |s.flights| <= |t.flights| && s.clock <= t.clock
    && (forall f | 0 <= f < |s.flights| ::
          && t.flights[f].token == s.flights[f].token && t.flights[f].known == s.flights[f].known
          && t.flights[f].startedAt == s.flights[f].startedAt
          && (s.flights[f].answer.Some? ==> t.flights[f].answer == s.flights[f].answer)
          && (s.flights[f].landedAt.Some? ==> t.flights[f].landedAt == s.flights[f].landedAt)
          && (t.flights[f].answer.Some? && s.flights[f].answer.None? ==> s.clock <= t.flights[f].answer.value.at)
          && (t.flights[f].landedAt.Some? && s.flights[f].landedAt.None? ==> s.clock <= t.flights[f].landedAt.value))
  }

  lemma StepExtends(ttl: int, s: State, a: Action)
    ensures Extends(s, Next(ttl, s, a))
  {
  }

  lemma CallerKept(ttl: int, s: State, t: State, c: nat)
    requires Extends(s, t) && c in s.callers && CallerOk(ttl, s, c)
    requires c in t.callers && t.callers[c] == s.callers[c]
    ensures CallerOk(ttl, t, c)
  {
  }

  lemma JoinKeepsFlights(ttl: int, s: State, c: nat)
    requires Inv(ttl, s) && c in s.callers
    ensures var t := JoinStep(s, c);
      && (forall f | 0 <= f < |t.flights| :: FlightOk(ttl, t, f))
      && (forall k <- t.inflight :: t.inflight[k] < |t.flights| && t.flights[t.inflight[k]].landedAt.None?
                                   && t.flights[t.inflight[k]].token == k)
  {
    var t := JoinStep(s, c);
    forall f | 0 <= f < |t.flights| ensures FlightOk(ttl, t, f) {
      if f < |s.flights| { assert FlightOk(ttl, s, f); }
    }
  }

  lemma JoinerOk(ttl: int, s: State, c: nat)
    requires Inv(ttl, s) && c in s.callers
    ensures CallerOk(ttl, JoinStep(s, c), c)
  {
    assert CallerOk(ttl, s, c);
  }

  lemma InvJoin(ttl: int, s: State, c: nat)
    requires Inv(ttl, s) && c in s.callers
    ensures Inv(ttl, JoinStep(s, c))
  {
    var t := JoinStep(s, c);
    JoinKeepsFlights(ttl, s, c);
    JoinerOk(ttl, s, c);
    assert Extends(s, t);
    forall d | d in t.callers ensures CallerOk(ttl, t, d) {
      assert CallerOk(ttl, s, d);
      if d != c { CallerKept(ttl, s, t, d); }
    }
  }

  lemma InvRespond(ttl: int, s: State, f: nat, reply: Reply)
    requires Inv(ttl, s) && f < |s.flights| && s.flights[f].answer.None?
    ensures Inv(ttl, RespondStep(ttl, s, f, reply))
  {
    var t := RespondStep(ttl, s, f, reply);
    assert FlightOk(ttl, s, f);
    assert Extends(s, t);
    forall d | d in t.callers ensures CallerOk(ttl, t, d) {
      assert CallerOk(ttl, s, d);
      CallerKept(ttl, s, t, d);
    }
    forall g | 0 <= g < |t.flights| ensures FlightOk(ttl, t, g) {
      assert FlightOk(ttl, s, g);
    }
  }

  lemma InvLand(ttl: int, s: State, f: nat)
    requires Inv(ttl, s) && f < |s.flights| && s.flights[f].answer.Some? && s.flights[f].landedAt.None?
    ensures Inv(ttl, LandStep(s, f))
  {
    var t := LandStep(s, f);
    assert FlightOk(ttl, s, f);
    assert Extends(s, t);
    forall d | d in t.callers ensures CallerOk(ttl, t, d) {
      assert CallerOk(ttl, s, d);
      CallerKept(ttl, s, t, d);
    }
    forall g | 0 <= g < |t.flights| ensures FlightOk(ttl, t, g) {
      assert FlightOk(ttl, s, g);
    }
  }

  predicate OneCaller(a: Action) { a.Call? || a.Receive? || a.Store? || a.Cancel? }

  /** What a caller knows after its own step. */
  lemma OwnStepOk(ttl: int, s: State, a: Action)
    requires Inv(ttl, s) && OneCaller(a)
    ensures a.c in Next(ttl, s, a).callers ==> CallerOk(ttl, Next(ttl, s, a), a.c)
  {
    if a.c in s.callers { assert CallerOk(ttl, s, a.c); }
    if a.Receive? && a.c in s.callers && s.callers[a.c].pc.Waiting? {
      assert FlightOk(ttl, s, s.callers[a.c].pc.flight);
    }
  }

  lemma EntriesStep(ttl: int, s: State, a: Action)
    requires Inv(ttl, s) && OneCaller(a)
    ensures EntriesOk(ttl, Next(ttl, s, a))
  {
    if a.Store? && a.c in s.callers && s.callers[a.c].pc.Storing? {
      assert CallerOk(ttl, s, a.c);
      assert EffectiveExpiry(ttl, 0, None, 0.0).Some? <==> ttl > 0;
      assert FlightOk(ttl, s, s.callers[a.c].pc.flight);
      var t := StoreStep(s, a.c);
      forall k | k in t.entries ensures k in t.origin && Backs(t, t.origin[k], k, t.entries[k]) {
      }
    }
  }

  lemma OneCallerFrame(ttl: int, s: State, a: Action)
    requires OneCaller(a)
    ensures var t := Next(ttl, s, a);
      && t.flights == s.flights && t.inflight == s.inflight && t.clock == s.clock
      && (forall d <- t.callers :: d == a.c || (d in s.callers && t.callers[d] == s.callers[d]))
  {
  }

  /** The steps of one caller that leave the requests alone. */
  lemma InvCaller(ttl: int, s: State, a: Action)
    requires Inv(ttl, s) && OneCaller(a)
    ensures Inv(ttl, Next(ttl, s, a))
  {
    var t := Next(ttl, s, a);
    OneCallerFrame(ttl, s, a);
    OwnStepOk(ttl, s, a);
    EntriesStep(ttl, s, a);
    OtherCallersKept(ttl, s, t, a.c);
  }

  lemma OtherCallersKept(ttl: int, s: State, t: State, c: nat)
    requires Inv(ttl, s) && EntriesOk(ttl, t)
    requires t.flights == s.flights && t.inflight == s.inflight && t.clock == s.clock
    requires forall d <- t.callers :: d == c || (d in s.callers && t.callers[d] == s.callers[d])
    requires c in t.callers ==> CallerOk(ttl, t, c)
    ensures Inv(ttl, t)
  {
    forall f | 0 <= f < |t.flights| ensures FlightOk(ttl, t, f) { assert FlightOk(ttl, s, f); }
    forall d | d in t.callers ensures CallerOk(ttl, t, d) {
      if d != c { CallerKept(ttl, s, t, d); }
    }
  }

  lemma InvStep(ttl: int, s: State, a: Action)
    requires Inv(ttl, s)
    ensures Inv(ttl, Next(ttl, s, a))
  {
    var t := Next(ttl, s, a);
    match a
    case Join(c) => if c in s.callers { InvJoin(ttl, s, c); }
    case Respond(f, reply) => if f < |s.flights| && s.flights[f].answer.None? { InvRespond(ttl, s, f, reply); }
    case Land(f) =>
      if f < |s.flights| && s.flights[f].answer.Some? && s.flights[f].landedAt.None? { InvLand(ttl, s, f); }
    case Tick(_) =>
      forall f | 0 <= f < |t.flights| ensures FlightOk(ttl, t, f) { assert FlightOk(ttl, s, f); }
      forall d | d in t.callers ensures CallerOk(ttl, t, d) { CallerKept(ttl, s, t, d); }
    case Clear => CallersKept(ttl, s, t);
    case Evict(_) => CallersKept(ttl, s, t);
    case _ => InvCaller(ttl, s, a);
  }

  lemma CallersKept(ttl: int, s: State, t: State)
    requires Inv(ttl, s) && t == s.(entries := t.entries)
    requires forall k <- t.entries :: k in s.entries && t.entries[k] == s.entries[k]
    ensures Inv(ttl, t)
  {
    forall f | 0 <= f < |t.flights| ensures FlightOk(ttl, t, f) { assert FlightOk(ttl, s, f); }
    forall d | d in t.callers ensures CallerOk(ttl, t, d) { CallerKept(ttl, s, t, d); }
  }

  lemma {:induction false} InvRun(ttl: int, s: State, actions: seq<Action>)
    requires Inv(ttl, s)
    ensures Inv(ttl, Run(ttl, s, actions))
    decreases |actions|
  {
    if actions != [] {
      InvStep(ttl, s, actions[0]);
      InvRun(ttl, Next(ttl, s, actions[0]), actions[1..]);
    }
  }
}
