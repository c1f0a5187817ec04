/** How often the issuer is asked: at most one refresh per expiry of the access
    token, and exactly one for any number of callers that found it expired. */
module SessionGrants {
  import opened Prelude
  import opened Sessions
  import opened SessionProtocol
  import opened SessionSafety

  // ----- successive grants ------------------------------------------------

  ghost predicate Covered(s: State, g: Grant) {
    && g.id in s.used
    && (g.stored.Some? && g.id in s.store ==> g.stored.value.accessExpires <= s.store[g.id].tokens.accessExpires)
  }

  ghost predicate Spaced(first: Grant, later: Grant) {
    first.id == later.id && first.stored.Some? ==> first.stored.value.accessExpires <= later.now
  }

  ghost predicate GrantInv(s: State) {
    && (forall g <- s.grants :: Covered(s, g))
    && (forall i, j | 0 <= i < j < |s.grants| :: Spaced(s.grants[i], s.grants[j]))
  }

  lemma GrantInvLock(settings: Settings, s: State, r: Req, answer: Option<TokenResponse>)
    requires StoreInv(settings, s) && RequestInv(settings, s, false) && GrantInv(s) && At(s, r)
    requires answer.Some? ==> PositiveAnswer(answer.value, false)
    ensures GrantInv(LockStep(settings, s, r, answer))
  {
    var t := LockStep(settings, s, r, answer);
    assert RequestOk(settings, s, r, false);
    if t.grants != s.grants {
      var g := t.grants[|s.grants|];
      assert t.grants == s.grants + [g];
      assert StoredOk(settings, s, s.requests[r].id);
      forall h | h in t.grants
        ensures Covered(t, h)
      {
        if h in s.grants { assert Covered(s, h); }
      }
      forall i, j | 0 <= i < j < |t.grants|
        ensures Spaced(t.grants[i], t.grants[j])
      {
        if j < |s.grants| {
          assert Spaced(s.grants[i], s.grants[j]);
        } else {
          assert t.grants[i] == s.grants[i] && Covered(s, s.grants[i]);
        }
      }
    } else {
      assert t.store == s.store && t.used == s.used;
      forall h | h in t.grants ensures Covered(t, h) { assert Covered(s, h); }
    }
  }

  lemma GrantInvStep(settings: Settings, s: State, a: Action)
    requires StoreInv(settings, s) && RequestInv(settings, s, false) && GrantInv(s) && Positive(a, false)
    ensures GrantInv(Next(settings, s, a))
  {
    var t := Next(settings, s, a);
    if a.Lock? {
      if At(s, a.r) && s.requests[a.r].pc.Locking? { GrantInvLock(settings, s, a.r, a.answer); }
    } else {
      if !a.Create? { OtherStepsAreQuiet(settings, s, a); }
      forall g | g in t.grants ensures Covered(t, g) { assert Covered(s, g); }
    }
  }

  lemma {:induction false} GrantInvRun(settings: Settings, s: State, actions: seq<Action>)
    requires StoreInv(settings, s) && RequestInv(settings, s, false) && GrantInv(s)
    requires forall a <- actions :: Positive(a, false)
    ensures GrantInv(Run(settings, s, actions))
    decreases |actions|
  {
    if actions != [] {
      StoreInvStep(settings, s, actions[0]);
      RequestInvStep(settings, s, actions[0], false);
      GrantInvStep(settings, s, actions[0]);
      GrantInvRun(settings, Next(settings, s, actions[0]), actions[1..]);
    }
  }

  /** In every interleaving, a grant for a session is made only by a caller whose
      `now` is at or past the access expiry every earlier successful grant stored:
      callers that all precede that expiry never cause a second one. */
  lemma NoGrantBeforeTheLastOneExpires(settings: Settings, actions: seq<Action>, i: nat, j: nat)
    requires forall a <- actions :: Positive(a, false)
    requires i < j < |Run(settings, INITIAL, actions).grants|
    ensures var grants := Run(settings, INITIAL, actions).grants;
      grants[i].id == grants[j].id && grants[i].stored.Some? ==>
        grants[i].stored.value.accessExpires <= grants[j].now
  {
    GrantInvRun(settings, INITIAL, actions);
    var grants := Run(settings, INITIAL, actions).grants;
    assert Spaced(grants[i], grants[j]);
  }

  // ----- N callers, one grant ---------------------------------------------

  function GrantsFor(grants: seq<Grant>, id: Id): nat {
    if grants == [] then 0
    else GrantsFor(grants[..|grants| - 1], id) + (if grants[|grants| - 1].id == id then 1 else 0)
  }

  lemma GrantsForAppend(grants: seq<Grant>, g: Grant, id: Id)
    ensures GrantsFor(grants + [g], id) == GrantsFor(grants, id) + (if g.id == id then 1 else 0)
  {
    assert (grants + [g])[..|grants|] == grants;
  }

  /** Every caller in `callers` read the session before it was refreshed and now
      waits for its lock. */
  ghost predicate AllWaiting(settings: Settings, s: State, id: Id, callers: set<Req>) {
    && id in s.store && s.store[id].tokens.refresh != ""
    && (forall r <- callers ::
          && r in s.requests && s.requests[r].id == id && s.requests[r].pc.Locking?
          && s.requests[r].now <= s.clock
          && AsksIssuer(settings, s.store[id], s.requests[r].now))
  }

  /** Some caller refreshed; the others wait or already left with its tokens. */
  ghost predicate Refreshed(s: State, id: Id, callers: set<Req>) {
    && id in s.store
    && (forall r <- callers ::
          && r in s.requests && s.requests[r].id == id
          && s.requests[r].now < s.store[id].tokens.accessExpires
          && (|| s.requests[r].pc.Locking?
              || (s.requests[r].pc.Succeeded? && s.requests[r].pc.session.tokens == s.store[id].tokens)))
    && (exists r <- callers :: s.requests[r].pc.Succeeded?)
  }

  /** A touch that cannot idle-expire the session under the waiting callers: there is no idle
      timeout, or one of them has refreshed, or it moves LastSeenAt to within the idle time. */
  ghost predicate HarmlessTouch(settings: Settings, s: State, r: Req, callers: set<Req>)
    requires At(s, r)
  {
    || settings.idleTimeout <= 0
    || (exists c <- callers :: At(s, c) && s.requests[c].pc.Succeeded?)
    || (forall c <- callers :: At(s, c) && s.requests[c].now - s.requests[r].now <= settings.idleTimeout)
  }

  /** Apart from the callers' own locked refreshes, which the issuer grants, nothing refreshes,
      removes or idle-expires this session. */
  ghost predicate Undisturbed(settings: Settings, s: State, a: Action, id: Id, callers: set<Req>) {
    match a
    case Lock(r, answer) =>
      if r in callers then answer.Some? && PositiveAnswer(answer.value, false)
      else r in s.requests ==> s.requests[r].id != id
    case Touch(r, _) => r in s.requests && s.requests[r].id == id ==> HarmlessTouch(settings, s, r, callers)
    case Drop(r, _) => r in s.requests ==> s.requests[r].id != id
    case Logout(other) => other != id
    case Cleanup(at) => id in s.store ==> at < s.store[id].expiresAt
    case _ => true
  }

  ghost predicate UndisturbedRun(settings: Settings, s: State, actions: seq<Action>, id: Id, callers: set<Req>)
    decreases |actions|
  {
    actions != [] ==>
      && Undisturbed(settings, s, actions[0], id, callers)
      && UndisturbedRun(settings, Next(settings, s, actions[0]), actions[1..], id, callers)
  }

  ghost predicate Resting(s: State, callers: set<Req>) {
    forall r <- callers :: r in s.requests && (s.requests[r].pc.Locking? || s.requests[r].pc.Succeeded?)
  }

  /** A step that at most touches this session, and leaves its waiting callers alone. */
  lemma OthersLeaveItAlone(settings: Settings, s: State, a: Action, id: Id, callers: set<Req>)
    requires id in s.store && id in s.used && Undisturbed(settings, s, a, id, callers) && Resting(s, callers)
    requires a.Lock? ==> a.r !in callers
    ensures var t := Next(settings, s, a);
      && id in t.store && t.store[id] == s.store[id].(lastSeen := t.store[id].lastSeen)
      && s.clock <= t.clock && id in t.used
      && GrantsFor(t.grants, id) == GrantsFor(s.grants, id)
      && (forall r <- callers :: r in t.requests && t.requests[r] == s.requests[r])
  {
    if a.Lock? {
      if a.r in s.requests && s.requests[a.r].pc.Locking? { OtherLocksGrantOthers(settings, s, a.r, a.answer, id); }
    } else {
      OthersKeepTheSession(settings, s, a, id, callers);
    }
    CallersRest(settings, s, a, callers);
  }

  lemma LocksGrantForThemselves(settings: Settings, s: State, r: Req, answer: Option<TokenResponse>)
    requires r in s.requests
    ensures var t := LockStep(settings, s, r, answer);
      || t.grants == s.grants
      || (t.grants == s.grants + [t.grants[|s.grants|]] && t.grants[|s.grants|].id == s.requests[r].id)
  {
  }

  lemma OtherLocksGrantOthers(settings: Settings, s: State, r: Req, answer: Option<TokenResponse>, id: Id)
    requires id in s.store && r in s.requests && s.requests[r].id != id
    ensures var t := LockStep(settings, s, r, answer);
      && id in t.store && t.store[id] == s.store[id] && t.clock == s.clock && t.used == s.used
      && GrantsFor(t.grants, id) == GrantsFor(s.grants, id)
  {
    var t := LockStep(settings, s, r, answer);
    LocksGrantForThemselves(settings, s, r, answer);
    if t.grants != s.grants { GrantsForAppend(s.grants, t.grants[|s.grants|], id); }
  }

  lemma OthersKeepTheSession(settings: Settings, s: State, a: Action, id: Id, callers: set<Req>)
    requires id in s.store && id in s.used && Undisturbed(settings, s, a, id, callers) && !a.Lock?
    ensures var t := Next(settings, s, a);
      && id in t.store && t.store[id] == s.store[id].(lastSeen := t.store[id].lastSeen)
      && s.clock <= t.clock && s.used <= t.used && t.grants == s.grants
  {
  }

  lemma CallersRest(settings: Settings, s: State, a: Action, callers: set<Req>)
    requires Resting(s, callers) && (a.Lock? ==> a.r !in callers)
    ensures forall r <- callers :: At(Next(settings, s, a), r) && Next(settings, s, a).requests[r] == s.requests[r]
  {
  }

  lemma OthersLeaveThemWaiting(settings: Settings, s: State, a: Action, id: Id, callers: set<Req>)
    requires id in s.used && AllWaiting(settings, s, id, callers) && Undisturbed(settings, s, a, id, callers)
    requires a.Lock? ==> a.r !in callers
    ensures AllWaiting(settings, Next(settings, s, a), id, callers)
  {
    var t := Next(settings, s, a);
    OthersLeaveItAlone(settings, s, a, id, callers);
    SeenLater(settings, s, a, id, callers);
  }

  /** What an allowed step can write to LastSeenAt. */
  lemma SeenLater(settings: Settings, s: State, a: Action, id: Id, callers: set<Req>)
    requires id in s.store && id in Next(settings, s, a).store && Undisturbed(settings, s, a, id, callers)
    requires Resting(s, callers) && (a.Lock? ==> a.r !in callers) && id in s.used
    ensures var seen := Next(settings, s, a).store[id].lastSeen;
      || seen == s.store[id].lastSeen
      || (a.Touch? && At(s, a.r) && HarmlessTouch(settings, s, a.r, callers) && seen == Some(s.requests[a.r].now))
  {
  }

  lemma FirstCallerRefreshes(
    settings: Settings, s: State, r: Req, answer: Option<TokenResponse>, id: Id, callers: set<Req>)
    requires AllWaiting(settings, s, id, callers) && r in callers
    requires answer.Some? && PositiveAnswer(answer.value, false)
    ensures var t := LockStep(settings, s, r, answer);
      || t == s
      || (Refreshed(t, id, callers) && GrantsFor(t.grants, id) == GrantsFor(s.grants, id) + 1)
  {
    var t := LockStep(settings, s, r, answer);
    if t != s {
      var g := t.grants[|s.grants|];
      assert t.grants == s.grants + [g];
      GrantsForAppend(s.grants, g, id);
      assert t.requests[r].pc.Succeeded?;
    }
  }

  lemma LaterCallersShare(
    settings: Settings, s: State, r: Req, answer: Option<TokenResponse>, id: Id, callers: set<Req>)
    requires Refreshed(s, id, callers) && r in callers && s.requests[r].pc.Locking?
    ensures var t := LockStep(settings, s, r, answer);
      Refreshed(t, id, callers) && t.grants == s.grants && t.store == s.store && t.used == s.used
  {
    var t := LockStep(settings, s, r, answer);
    assert t.requests[r].pc.Succeeded?;
  }

  /** N callers that all found the same access token expired cause exactly one
      grant between them, as soon as any of them has had the lock; every one that
      has had it succeeded with the tokens of that single grant. */
  lemma {:induction false} ConcurrentCallersShareOneGrant(
    settings: Settings, s: State, actions: seq<Action>, id: Id, callers: set<Req>)
    requires id in s.used && AllWaiting(settings, s, id, callers)
    requires UndisturbedRun(settings, s, actions, id, callers)
    ensures var t := Run(settings, s, actions);
      && id in t.store
      && (forall r <- callers :: r in t.requests
            && (t.requests[r].pc.Locking?
                || (t.requests[r].pc.Succeeded? && t.requests[r].pc.session.tokens == t.store[id].tokens)))
      && GrantsFor(t.grants, id) == GrantsFor(s.grants, id)
           + (if exists r <- callers :: !t.requests[r].pc.Locking? then 1 else 0)
    decreases |actions|
  {
    if actions != [] {
      var a := actions[0];
      var t := Next(settings, s, a);
      if a.Lock? && a.r in callers {
        FirstCallerRefreshes(settings, s, a.r, a.answer, id, callers);
        if t == s {
          ConcurrentCallersShareOneGrant(settings, t, actions[1..], id, callers);
        } else {
          AfterTheGrant(settings, t, actions[1..], id, callers);
        }
      } else {
        OthersLeaveItAlone(settings, s, a, id, callers);
        OthersLeaveThemWaiting(settings, s, a, id, callers);
        ConcurrentCallersShareOneGrant(settings, t, actions[1..], id, callers);
      }
    }
  }

  lemma {:induction false} AfterTheGrant(
    settings: Settings, s: State, actions: seq<Action>, id: Id, callers: set<Req>)
    requires id in s.used && Refreshed(s, id, callers)
    requires UndisturbedRun(settings, s, actions, id, callers)
    ensures var t := Run(settings, s, actions);
      Refreshed(t, id, callers) && GrantsFor(t.grants, id) == GrantsFor(s.grants, id)
    decreases |actions|
  {
    if actions != [] {
      var a := actions[0];
      var t := Next(settings, s, a);
      if a.Lock? && a.r in callers {
        if s.requests[a.r].pc.Locking? { LaterCallersShare(settings, s, a.r, a.answer, id, callers); }
      } else {
        OthersLeaveItAlone(settings, s, a, id, callers);
      }
      AfterTheGrant(settings, t, actions[1..], id, callers);
    }
  }
}
