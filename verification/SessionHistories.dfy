/** Sequential histories: each `Resolve` runs to its end before the next command.
    Cleanup passes, wherever they are inserted, change no outcome. */
module SessionHistories {
  import opened Prelude
  import opened Sessions
  import opened SessionProtocol

  /** The steps of one `Resolve` after its clock reading, whatever path it takes:
      those of the other paths are not enabled. */
  function Steps(r: Req, accepted: bool, answer: Option<TokenResponse>, delay: nat): seq<Action> {
    [Fetch(r, false), Verify(r, accepted), Touch(r, false), Tick(delay), Lock(r, answer), Drop(r, false)]
  }

  /** `Resolve` alone, uninterrupted; `delay` passes before the issuer answers. */
  function ResolveAlone(
    settings: Settings, s: State, r: Req, id: Id, accepted: bool, answer: Option<TokenResponse>, delay: nat): State
  {
    Run(settings, Next(settings, s, Begin(r, id)), Steps(r, accepted, answer, delay))
  }

  datatype Command =
    | Resolve(r: Req, id: Id, accepted: bool, answer: Option<TokenResponse>, delay: nat)
    | Login(id: Id, response: TokenResponse, claims: Claims)
    | EndSession(id: Id)
    | Wait(d: nat)
    | Sweep

  function Exec(settings: Settings, s: State, c: Command): State {
    match c
    case Resolve(r, id, accepted, answer, delay) =>
      if r in s.requests then s else ResolveAlone(settings, s, r, id, accepted, answer, delay)
    case Login(id, response, claims) => Next(settings, s, Create(id, response, claims, s.clock))
    case EndSession(id) => Next(settings, s, Logout(id))
    case Wait(d) => Next(settings, s, Tick(d))
    case Sweep => Next(settings, s, Cleanup(s.clock))
  }

  function History(settings: Settings, s: State, commands: seq<Command>): State
    decreases |commands|
  {
    if commands == [] then s else History(settings, Exec(settings, s, commands[0]), commands[1..])
  }

  function WithoutSweeps(commands: seq<Command>): seq<Command> {
    if commands == [] then []
    else (if commands[0].Sweep? then [] else [commands[0]]) + WithoutSweeps(commands[1..])
  }

  /** `swept` lacks only sessions that are past their ceiling. */
  ghost predicate Sim(plain: State, swept: State) {
    && swept.clock == plain.clock && swept.used == plain.used && swept.issuer == plain.issuer
    && swept.requests == plain.requests && swept.grants == plain.grants
    && (forall id <- swept.store :: id in plain.store && swept.store[id] == plain.store[id])
    && (forall id <- plain.store :: id !in swept.store ==> plain.store[id].expiresAt <= plain.clock)
  }

  ghost predicate Agree(plain: State, swept: State, id: Id) {
    id in plain.store <==> id in swept.store
  }

  lemma SimLock(settings: Settings, plain: State, swept: State, r: Req, answer: Option<TokenResponse>)
    requires Sim(plain, swept) && r in plain.requests && Agree(plain, swept, plain.requests[r].id)
    ensures Sim(LockStep(settings, plain, r, answer), LockStep(settings, swept, r, answer))
    ensures Agree(LockStep(settings, plain, r, answer), LockStep(settings, swept, r, answer), plain.requests[r].id)
  {
  }

  lemma SimFetch(settings: Settings, plain: State, swept: State, r: Req)
    requires Sim(plain, swept) && r in plain.requests && Agree(plain, swept, plain.requests[r].id)
    ensures Sim(FetchStep(settings, plain, r, false), FetchStep(settings, swept, r, false))
  {
  }

  lemma SimTouch(plain: State, swept: State, id: Id, at: Time)
    requires Sim(plain, swept) && Agree(plain, swept, id)
    ensures Sim(plain.(store := Touched(plain.store, id, at)), swept.(store := Touched(swept.store, id, at)))
    ensures Touched(plain.store, id, at).Keys == plain.store.Keys
    ensures Touched(swept.store, id, at).Keys == swept.store.Keys
  {
  }

  lemma SimDrop(plain: State, swept: State, r: Req)
    requires Sim(plain, swept) && r in plain.requests
    ensures var id := plain.requests[r].id;
      var p := SetPc(plain, r, Failed).(store := plain.store - {id});
      var q := SetPc(swept, r, Failed).(store := swept.store - {id});
      Sim(p, q) && Agree(p, q, id)
  {
  }

  predicate Drives(a: Action, r: Req) {
    match a
    case Fetch(q, down) => q == r && !down
    case Verify(q, _) => q == r
    case Touch(q, _) => q == r
    case Tick(_) => true
    case _ => false
  }

  /** A step on a session both stores have, or neither, keeps the two in step. */
  lemma SimStep(settings: Settings, plain: State, swept: State, a: Action, r: Req)
    requires Sim(plain, swept) && r in plain.requests && Agree(plain, swept, plain.requests[r].id) && Drives(a, r)
    ensures Sim(Next(settings, plain, a), Next(settings, swept, a))
    ensures Agree(Next(settings, plain, a), Next(settings, swept, a), plain.requests[r].id)
  {
    match a
    case Fetch(_, _) => SimFetch(settings, plain, swept, r);
    case Touch(_, _) => SimTouch(plain, swept, plain.requests[r].id, plain.requests[r].now);
    case _ =>
  }

  lemma SimLockOrDrop(settings: Settings, plain: State, swept: State, a: Action, r: Req)
    requires Sim(plain, swept) && r in plain.requests && Agree(plain, swept, plain.requests[r].id)
    requires (a.Lock? || a.Drop?) && a.r == r
    ensures Sim(Next(settings, plain, a), Next(settings, swept, a))
    ensures Agree(Next(settings, plain, a), Next(settings, swept, a), plain.requests[r].id)
  {
    if a.Lock? { SimLock(settings, plain, swept, r, a.answer); } else { SimDrop(plain, swept, r); }
  }

  lemma RequestsKeepTheirId(settings: Settings, s: State, a: Action, r: Req)
    requires r in s.requests
    ensures r in Next(settings, s, a).requests && Next(settings, s, a).requests[r].id == s.requests[r].id
  {
  }

  lemma SimBoth(settings: Settings, plain: State, swept: State, c: Command)
    requires Sim(plain, swept) && c.Resolve? && c.r !in plain.requests && Agree(plain, swept, c.id)
    ensures Sim(Exec(settings, plain, c), Exec(settings, swept, c))
  {
    var p, q := Next(settings, plain, Begin(c.r, c.id)), Next(settings, swept, Begin(c.r, c.id));
    var steps := Steps(c.r, c.accepted, c.answer, c.delay);
    for i := 0 to 6
      invariant Sim(p, q) && Agree(p, q, c.id) && c.r in p.requests && p.requests[c.r].id == c.id
      invariant Exec(settings, plain, c) == Run(settings, p, steps[i..])
      invariant Exec(settings, swept, c) == Run(settings, q, steps[i..])
    {
      if i < 4 {
        SimStep(settings, p, q, steps[i], c.r);
      } else {
        SimLockOrDrop(settings, p, q, steps[i], c.r);
      }
      RequestsKeepTheirId(settings, p, steps[i], c.r);
      assert steps[i..][1..] == steps[i + 1..];
      p, q := Next(settings, p, steps[i]), Next(settings, q, steps[i]);
    }
  }

  ghost predicate Belongs(a: Action, r: Req) {
    a.Tick? || ((a.Fetch? || a.Verify? || a.Touch? || a.Lock? || a.Drop?) && a.r == r)
  }

  /** A request that is done does nothing, nor does one waiting to drop its
      session until it does. */
  lemma {:induction false} SettledWaits(settings: Settings, s: State, r: Req, steps: seq<Action>)
    requires r in s.requests && (forall a <- steps :: Belongs(a, r))
    requires var pc := s.requests[r].pc;
      pc.Failed? || pc.Succeeded? || (pc.Dropping? && forall a <- steps :: !a.Drop?)
    ensures var t := Run(settings, s, steps);
      t == s.(clock := t.clock) && s.clock <= t.clock
    decreases |steps|
  {
    if steps != [] {
      assert steps[0] in steps;
      SettledWaits(settings, Next(settings, s, steps[0]), r, steps[1..]);
    }
  }

  lemma {:induction false} ClocksAgree(settings: Settings, s: State, t: State, steps: seq<Action>)
    requires s.clock == t.clock
    ensures Run(settings, s, steps).clock == Run(settings, t, steps).clock
    decreases |steps|
  {
    if steps != [] {
      ClocksAgree(settings, Next(settings, s, steps[0]), Next(settings, t, steps[0]), steps[1..]);
    }
  }

  lemma {:induction false} RunAppend(settings: Settings, s: State, first: seq<Action>, next: seq<Action>)
    ensures Run(settings, s, first + next) == Run(settings, Run(settings, s, first), next)
    decreases |first|
  {
    if first == [] {
      assert first + next == next;
    } else {
      assert (first + next)[1..] == first[1..] + next;
      RunAppend(settings, Next(settings, s, first[0]), first[1..], next);
    }
  }

  /** A session only the unswept store still has is expired, so the call fails and drops it. */
  lemma SimExpired(settings: Settings, plain: State, swept: State, c: Command)
    requires Sim(plain, swept) && c.Resolve? && c.r !in plain.requests
    requires c.id in plain.store && c.id !in swept.store
    ensures Sim(Exec(settings, plain, c), Exec(settings, swept, c))
  {
    var steps := Steps(c.r, c.accepted, c.answer, c.delay);
    var middle := steps[1..5];
    assert steps[1..] == middle + [Drop(c.r, false)];
    var p, q := Next(settings, plain, Begin(c.r, c.id)), Next(settings, swept, Begin(c.r, c.id));
    var p1, q1 := Next(settings, p, steps[0]), Next(settings, q, steps[0]);
    assert p1 == SetPc(p, c.r, Dropping) && q1 == SetPc(q, c.r, Failed);
    RunAppend(settings, p1, middle, [Drop(c.r, false)]);
    RunAppend(settings, q1, middle, [Drop(c.r, false)]);
    SettledWaits(settings, p1, c.r, middle);
    SettledWaits(settings, q1, c.r, middle);
    ClocksAgree(settings, p1, q1, middle);
    var p2, q2 := Run(settings, p1, middle), Run(settings, q1, middle);
    var p3, q3 := Next(settings, p2, Drop(c.r, false)), Next(settings, q2, Drop(c.r, false));
    assert Run(settings, p2, [Drop(c.r, false)]) == p3 && Run(settings, q2, [Drop(c.r, false)]) == q3;
    assert p3.requests == q3.requests;
  }

  lemma SimResolve(settings: Settings, plain: State, swept: State, c: Command)
    requires Sim(plain, swept) && c.Resolve?
    ensures Sim(Exec(settings, plain, c), Exec(settings, swept, c))
  {
    if c.r !in plain.requests {
      if Agree(plain, swept, c.id) {
        SimBoth(settings, plain, swept, c);
      } else {
        SimExpired(settings, plain, swept, c);
      }
    }
  }

  lemma SimCommand(settings: Settings, plain: State, swept: State, c: Command)
    requires Sim(plain, swept) && !c.Sweep?
    ensures Sim(Exec(settings, plain, c), Exec(settings, swept, c))
  {
    if c.Resolve? { SimResolve(settings, plain, swept, c); }
  }

  lemma {:induction false} SimHistory(settings: Settings, plain: State, swept: State, commands: seq<Command>)
    requires Sim(plain, swept)
    ensures Sim(History(settings, plain, WithoutSweeps(commands)), History(settings, swept, commands))
    decreases |commands|
  {
    if commands != [] {
      var c := commands[0];
      var rest := WithoutSweeps(commands[1..]);
      if c.Sweep? {
        assert WithoutSweeps(commands) == rest;
        SimHistory(settings, plain, Exec(settings, swept, c), commands[1..]);
      } else {
        assert WithoutSweeps(commands)[1..] == rest;
        SimCommand(settings, plain, swept, c);
        SimHistory(settings, Exec(settings, plain, c), Exec(settings, swept, c), commands[1..]);
      }
    }
  }

  /** Taking every cleanup pass out of a history leaves each request's outcome,
      the returned session included, each grant and the issuer as they were. */
  lemma CleanupChangesNoOutcome(settings: Settings, s: State, commands: seq<Command>)
    ensures var swept, plain := History(settings, s, commands), History(settings, s, WithoutSweeps(commands));
      swept.requests == plain.requests && swept.grants == plain.grants && swept.issuer == plain.issuer
  {
    SimHistory(settings, s, s, commands);
  }
}
