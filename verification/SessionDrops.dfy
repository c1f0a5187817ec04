/** The deletes of a failing `Resolve` run outside the lock: exactly when they remove a
    session that another caller has refreshed in between. */
module SessionDrops {
  import opened Prelude
  import opened Sessions
  import opened SessionProtocol
  import opened SessionSafety
  import opened SessionGrants

  /** The issuer granted a refresh for the session between the two states. */
  ghost predicate RefreshedSince(s: State, t: State, id: Id) {
    exists i | |s.grants| <= i < |t.grants| :: t.grants[i].id == id && t.grants[i].stored.Some?
  }

  /** While the session is stored, its access token lies ahead of `now` just when it was
      refreshed since. */
  ghost predicate Tracks(s: State, t: State, id: Id, now: Time) {
    && id in t.used && now <= t.clock && |s.grants| <= |t.grants|
    && (id in t.store ==> (now < t.store[id].tokens.accessExpires <==> RefreshedSince(s, t, id)))
  }

  lemma OneMoreGrant(s: State, t: State, u: State, g: Grant, id: Id)
    requires |s.grants| <= |t.grants| && u.grants == t.grants + [g]
    ensures RefreshedSince(s, u, id) <==> RefreshedSince(s, t, id) || (g.id == id && g.stored.Some?)
  {
    if i :| |s.grants| <= i < |t.grants| && t.grants[i].id == id && t.grants[i].stored.Some? {
      assert u.grants[i] == t.grants[i];
    }
    assert u.grants[|t.grants|] == g;
  }

  lemma TracksLock(settings: Settings, s: State, t: State, r: Req, answer: Option<TokenResponse>, id: Id, now: Time)
    requires Tracks(s, t, id, now) && At(t, r)
    requires answer.Some? ==> PositiveAnswer(answer.value, false)
    ensures Tracks(s, LockStep(settings, t, r, answer), id, now)
  {
    var u := LockStep(settings, t, r, answer);
    if u.grants != t.grants { OneMoreGrant(s, t, u, u.grants[|t.grants|], id); }
  }

  lemma TracksStep(settings: Settings, s: State, t: State, a: Action, id: Id, now: Time)
    requires Tracks(s, t, id, now) && Positive(a, false)
    ensures Tracks(s, Next(settings, t, a), id, now)
  {
    if a.Lock? {
      if At(t, a.r) { TracksLock(settings, s, t, a.r, a.answer, id, now); }
    } else if !a.Create? {
      OtherStepsAreQuiet(settings, t, a);
    }
  }

  lemma {:induction false} TracksRun(settings: Settings, s: State, t: State, actions: seq<Action>, id: Id, now: Time)
    requires Tracks(s, t, id, now) && forall a <- actions :: Positive(a, false)
    ensures Tracks(s, Run(settings, t, actions), id, now)
    decreases |actions|
  {
    if actions != [] {
      TracksStep(settings, s, t, actions[0], id, now);
      TracksRun(settings, s, Next(settings, t, actions[0]), actions[1..], id, now);
    }
  }

  /** The delete about to run takes away a session refreshed since `s`. */
  ghost predicate LosesARefresh(settings: Settings, s: State, t: State, r: Req)
    requires At(t, r)
  {
    var id := t.requests[r].id;
    id in t.store && id !in Next(settings, t, Drop(r, false)).store && RefreshedSince(s, t, id)
  }

  // ----- from the read on, whichever exit leads to the delete -------------

  /** While the session is stored, its access expiry is that of `s`, or later just when it was
      refreshed since. */
  ghost predicate Renews(s: State, t: State, id: Id, expiry: Time) {
    && id in t.used && |s.grants| <= |t.grants|
    && (id in t.store ==>
          && expiry <= t.store[id].tokens.accessExpires
          && (expiry < t.store[id].tokens.accessExpires <==> RefreshedSince(s, t, id)))
  }

  lemma RenewsLock(settings: Settings, s: State, t: State, r: Req, answer: Option<TokenResponse>, id: Id, expiry: Time)
    requires Renews(s, t, id, expiry) && At(t, r) && t.requests[r].now <= t.clock
    requires answer.Some? ==> PositiveAnswer(answer.value, false)
    ensures Renews(s, LockStep(settings, t, r, answer), id, expiry)
  {
    var u := LockStep(settings, t, r, answer);
    if u.grants != t.grants { OneMoreGrant(s, t, u, u.grants[|t.grants|], id); }
  }

  lemma RenewsStep(settings: Settings, s: State, t: State, a: Action, id: Id, expiry: Time)
    requires RequestInv(settings, t, false) && Renews(s, t, id, expiry) && Positive(a, false)
    ensures Renews(s, Next(settings, t, a), id, expiry)
  {
    if a.Lock? {
      if At(t, a.r) {
        assert RequestOk(settings, t, a.r, false);
        RenewsLock(settings, s, t, a.r, a.answer, id, expiry);
      }
    } else if !a.Create? {
      OtherStepsAreQuiet(settings, t, a);
    }
  }

  lemma {:induction false} RenewsRun(settings: Settings, s: State, t: State, actions: seq<Action>, id: Id, expiry: Time)
    requires StoreInv(settings, t) && RequestInv(settings, t, false)
    requires Renews(s, t, id, expiry) && forall a <- actions :: Positive(a, false)
    ensures Renews(s, Run(settings, t, actions), id, expiry)
    decreases |actions|
  {
    if actions != [] {
      RenewsStep(settings, s, t, actions[0], id, expiry);
      StoreInvStep(settings, t, actions[0]);
      RequestInvStep(settings, t, actions[0], false);
      RenewsRun(settings, s, Next(settings, t, actions[0]), actions[1..], id, expiry);
    }
  }

  /** After any history and in every continuation, a stored session's access expiry has grown
      exactly when it was refreshed since. So a request that remembers the expiry it read can
      tell whether its delete, for an expired session, a rejected revalidation or a failed
      refresh, would lose another caller's refresh. */
  lemma DropAfterReadLosesARefreshIff(
    settings: Settings, history: seq<Action>, actions: seq<Action>, id: Id, r: Req)
    requires forall a <- history + actions :: Positive(a, false)
    requires id in Run(settings, INITIAL, history).store
    ensures var s := Run(settings, INITIAL, history);
      var t := Run(settings, s, actions);
      id in t.store ==>
        var grown := s.store[id].tokens.accessExpires < t.store[id].tokens.accessExpires;
        && (grown <==> RefreshedSince(s, t, id))
        && (At(t, r) && t.requests[r].id == id && t.requests[r].pc.Dropping? ==>
              (LosesARefresh(settings, s, t, r) <==> grown))
  {
    var s := Run(settings, INITIAL, history);
    forall a | a in history ensures Positive(a, false) { assert a in history + actions; }
    forall a | a in actions ensures Positive(a, false) { assert a in history + actions; }
    RequestInvRun(settings, INITIAL, history, false);
    StoreInvRun(settings, INITIAL, history);
    assert StoredOk(settings, s, id);
    RenewsRun(settings, s, s, actions, id, s.store[id].tokens.accessExpires);
  }

  /** A request that read the session as expired deletes it after one that had read its clock
      earlier has refreshed it. */
  lemma ExpiredReadRemovesARefreshedSession(
    settings: Settings, s: State, id: Id, late: Req, early: Req, response: TokenResponse)
    requires AllWaiting(settings, s, id, {early}) && s.issuer.MayIssue(response.refresh, s.store[id].tokens.refresh)
    requires At(s, late) && s.requests[late].id == id && s.requests[late].pc.Fetching?
    requires IsExpired(settings, s.store[id], s.requests[late].now)
    ensures var s1 := Next(settings, s, Fetch(late, false));
      var s2 := Next(settings, s1, Lock(early, Some(response)));
      && s2.requests[early].pc.Succeeded? && id in s2.store && RefreshedSince(s1, s2, id)
      && id !in Next(settings, s2, Drop(late, false)).store
  {
    RejectedThenRefreshed(settings, s, Next(settings, s, Fetch(late, false)), id, late, early, response);
  }

  /** So does one whose revalidation rejected the access token it had read. */
  lemma RejectedReadRemovesARefreshedSession(
    settings: Settings, s: State, id: Id, late: Req, early: Req, response: TokenResponse)
    requires AllWaiting(settings, s, id, {early}) && s.issuer.MayIssue(response.refresh, s.store[id].tokens.refresh)
    requires At(s, late) && s.requests[late].id == id && s.requests[late].pc.Verifying?
    ensures var s1 := Next(settings, s, Verify(late, false));
      var s2 := Next(settings, s1, Lock(early, Some(response)));
      && s2.requests[early].pc.Succeeded? && id in s2.store && RefreshedSince(s1, s2, id)
      && id !in Next(settings, s2, Drop(late, false)).store
  {
    RejectedThenRefreshed(settings, s, Next(settings, s, Verify(late, false)), id, late, early, response);
  }

  lemma RejectedThenRefreshed(
    settings: Settings, s: State, s1: State, id: Id, late: Req, early: Req, response: TokenResponse)
    requires AllWaiting(settings, s, id, {early}) && s.issuer.MayIssue(response.refresh, s.store[id].tokens.refresh)
    requires At(s, late) && s.requests[late].id == id && late != early && s1 == SetPc(s, late, Dropping)
    ensures var s2 := Next(settings, s1, Lock(early, Some(response)));
      && s2.requests[early].pc.Succeeded? && id in s2.store && RefreshedSince(s1, s2, id)
      && id !in Next(settings, s2, Drop(late, false)).store
  {
    var s2 := Next(settings, s1, Lock(early, Some(response)));
    assert s1.requests[early] == s.requests[early];
    assert s2 == LockStep(settings, s1, early, Some(response));
    var g := s2.grants[|s1.grants|];
    assert g.id == id && g.stored.Some?;
  }

  // ----- from a rejection under the lock on --------------------------------

  /** After any history, let a request leave its lock rejected with its session still stored.
      In every continuation its delete loses another caller's refresh exactly when the stored
      access token lies ahead of the request's own `now`, which it could have checked. */
  lemma DropLosesARefreshIff(
    settings: Settings, history: seq<Action>, r: Req, answer: Option<TokenResponse>, actions: seq<Action>)
    requires forall a <- history + actions :: Positive(a, false)
    requires var s := Run(settings, INITIAL, history);
      && At(s, r) && s.requests[r].pc.Locking? && s.requests[r].id in s.store
      && LockStep(settings, s, r, answer).requests[r].pc.Dropping?
    ensures var s1 := LockStep(settings, Run(settings, INITIAL, history), r, answer);
      var t := Run(settings, s1, actions);
      && At(t, r)
      && var id, now := s1.requests[r].id, s1.requests[r].now;
      && t.requests[r].id == id && t.requests[r].now == now
      && (id in t.store ==> (now < t.store[id].tokens.accessExpires <==> RefreshedSince(s1, t, id)))
      && (id in t.store && t.requests[r].pc.Dropping? ==>
            (LosesARefresh(settings, s1, t, r) <==> now < t.store[id].tokens.accessExpires))
  {
    var s := Run(settings, INITIAL, history);
    var s1 := LockStep(settings, s, r, answer);
    forall a | a in history ensures Positive(a, false) { assert a in history + actions; }
    forall a | a in actions ensures Positive(a, false) { assert a in history + actions; }
    RequestInvRun(settings, INITIAL, history, false);
    StoreInvRun(settings, INITIAL, history);
    assert RequestOk(settings, s, r, false) && StoredOk(settings, s, s.requests[r].id);
    assert Tracks(s1, s1, s1.requests[r].id, s1.requests[r].now);
    TracksRun(settings, s1, s1, actions, s1.requests[r].id, s1.requests[r].now);
    RequestStays(settings, s1, actions, r);
  }

  lemma {:induction false} RequestStays(settings: Settings, s: State, actions: seq<Action>, r: Req)
    requires At(s, r)
    ensures var t := Run(settings, s, actions);
      At(t, r) && t.requests[r].id == s.requests[r].id && t.requests[r].now == s.requests[r].now
    decreases |actions|
  {
    if actions != [] {
      RequestStaysStep(settings, s, actions[0], r);
      RequestStays(settings, Next(settings, s, actions[0]), actions[1..], r);
    }
  }

  lemma RequestStaysStep(settings: Settings, s: State, a: Action, r: Req)
    requires At(s, r)
    ensures var t := Next(settings, s, a);
      At(t, r) && t.requests[r].id == s.requests[r].id && t.requests[r].now == s.requests[r].now
  {
  }

  /** Such schedules exist wherever two callers wait for the same lock: the first is turned
      down, the second is granted a refresh, and the first then deletes. */
  lemma LateDropRemovesARefreshedSession(
    settings: Settings, s: State, id: Id, unlucky: Req, lucky: Req, response: TokenResponse)
    requires AllWaiting(settings, s, id, {unlucky, lucky}) && unlucky != lucky
    requires s.issuer.MayIssue(response.refresh, s.store[id].tokens.refresh)
    ensures
      var s1 := Next(settings, s, Lock(unlucky, None));
      var s2 := Next(settings, s1, Lock(lucky, Some(response)));
      var s3 := Next(settings, s2, Drop(unlucky, false));
      && s2.requests[lucky].pc.Succeeded? && s3.requests[lucky] == s2.requests[lucky]
      && id in s2.store && s2.store[id] == s2.requests[lucky].pc.session
      && id !in s3.store
  {
    var s1 := Next(settings, s, Lock(unlucky, None));
    assert s1.store == s.store && s1.issuer == s.issuer && s1.requests[lucky] == s.requests[lucky];
    var s2 := Next(settings, s1, Lock(lucky, Some(response)));
    assert s2.requests[unlucky] == s1.requests[unlucky];
  }
}
