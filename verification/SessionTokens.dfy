/** Whose tokens a stored session holds: in every interleaving those of the answers the issuer
    gave for its login, the latest that gave each of them. */
module SessionTokens {
  import opened Prelude
  import opened Sessions
  import opened SessionProtocol
  import opened SessionSafety

  /** An answer of the token endpoint and the clock when it was turned into tokens. */
  datatype Issued = Issued(answer: TokenResponse, clock: Time)

  /** What the issuer answers for the login in this step, if anything: its first tokens, or the
      grant that the step adds to the record. */
  function AnswerIn(settings: Settings, s: State, a: Action, id: Id): seq<Issued> {
    var t := Next(settings, s, a);
    match a
    case Create(i, response, _, _) => if i == id && id !in s.used && id in t.used then [Issued(response, s.clock)] else []
    case Lock(_, answer) =>
      if answer.Some? && |s.grants| < |t.grants| && t.grants[|s.grants|].id == id
      then [Issued(answer.value, s.clock)] else []
    case _ => []
  }

  function Answers(settings: Settings, s: State, actions: seq<Action>, id: Id): seq<Issued>
    decreases |actions|
  {
    if actions == [] then []
    else AnswerIn(settings, s, actions[0], id) + Answers(settings, Next(settings, s, actions[0]), actions[1..], id)
  }

  /** `x` is what the latest answer to give one gave; `none` when none did. */
  ghost predicate Latest<T(!new)>(x: T, given: seq<Option<T>>, none: T) {
    || (x == none && forall k | 0 <= k < |given| :: given[k] == None)
    || (exists k | 0 <= k < |given| ::
          given[k] == Some(x) && forall later | k < later < |given| :: given[later] == None)
  }

  function Given(text: string): Option<string> { if text == "" then None else Some(text) }

  function RefreshTokens(given: seq<Issued>): seq<Option<string>> {
    seq(|given|, i requires 0 <= i < |given| => Given(given[i].answer.refresh))
  }

  function IdTokens(given: seq<Issued>): seq<Option<string>> {
    seq(|given|, i requires 0 <= i < |given| => Given(given[i].answer.idToken))
  }

  function Scopes(given: seq<Issued>): seq<Option<seq<string>>> {
    seq(|given|, i requires 0 <= i < |given| => given[i].answer.scopes)
  }

  function RefreshExpiry(x: Issued): Option<Option<Time>> {
    if x.answer.refreshExpiresIn.Some? && x.answer.refreshExpiresIn.value > 0.0
    then Some(Some(x.clock + x.answer.refreshExpiresIn.value.Floor * 1_000_000_000)) else None
  }

  function RefreshExpiries(given: seq<Issued>): seq<Option<Option<Time>>> {
    seq(|given|, i requires 0 <= i < |given| => RefreshExpiry(given[i]))
  }

  /** The access token with its type and expiry are those of the last answer; each of the others
      comes from the last answer that gave it. */
  ghost predicate FromAnswers(ts: TokenSet, given: seq<Issued>) {
    && given != []
    && var last := given[|given| - 1];
    && ts.access == last.answer.access && ts.tokenType == last.answer.tokenType
    && ts.accessExpires == last.clock + (if last.answer.expiresIn.Some? then last.answer.expiresIn.value
                                         else 300_000_000_000)
    && Latest(ts.refresh, RefreshTokens(given), "") && Latest(ts.idToken, IdTokens(given), "")
    && Latest(ts.scopes, Scopes(given), []) && Latest(ts.refreshExpires, RefreshExpiries(given), None)
  }

  lemma LatestAfter<T(!new)>(x: T, given: seq<Option<T>>, none: T, next: Option<T>)
    requires Latest(x, given, none)
    ensures Latest(if next.Some? then next.value else x, given + [next], none)
  {
    var more := given + [next];
    if next.Some? {
      assert more[|given|] == Some(next.value);
    } else if !(x == none && forall k | 0 <= k < |given| :: given[k] == None) {
      var k :| 0 <= k < |given| && given[k] == Some(x) && forall later | k < later < |given| :: given[later] == None;
      assert more[k] == Some(x);
    }
  }

  lemma AnswerTakenOver(previous: TokenSet, given: seq<Issued>, answer: TokenResponse, clock: Time)
    requires if given == [] then previous == NO_TOKENS else FromAnswers(previous, given)
    ensures FromAnswers(TokenSetFrom(answer, previous, clock), given + [Issued(answer, clock)])
  {
    var next := Issued(answer, clock);
    var more := given + [next];
    assert RefreshTokens(more) == RefreshTokens(given) + [Given(answer.refresh)];
    assert IdTokens(more) == IdTokens(given) + [Given(answer.idToken)];
    assert Scopes(more) == Scopes(given) + [answer.scopes];
    assert RefreshExpiries(more) == RefreshExpiries(given) + [RefreshExpiry(next)];
    LatestAfter(previous.refresh, RefreshTokens(given), "", Given(answer.refresh));
    LatestAfter(previous.idToken, IdTokens(given), "", Given(answer.idToken));
    LatestAfter(previous.scopes, Scopes(given), [], answer.scopes);
    LatestAfter(previous.refreshExpires, RefreshExpiries(given), None, RefreshExpiry(next));
  }

  /** The stored session holds the tokens given so far; an unused id has been given none. */
  ghost predicate Holds(s: State, id: Id, given: seq<Issued>) {
    && (id in s.store ==> id in s.used && FromAnswers(s.store[id].tokens, given))
    && (id !in s.used ==> given == [])
  }

  lemma HoldsAfterLock(settings: Settings, s: State, r: Req, answer: Option<TokenResponse>, id: Id, given: seq<Issued>)
    requires Holds(s, id, given) && At(s, r) && s.requests[r].pc.Locking?
    ensures Holds(LockStep(settings, s, r, answer), id, given + AnswerIn(settings, s, Lock(r, answer), id))
  {
    var t := LockStep(settings, s, r, answer);
    if AnswerIn(settings, s, Lock(r, answer), id) == [] {
      assert given + [] == given;
    } else {
      AnswerTakenOver(s.store[id].tokens, given, answer.value, s.clock);
    }
  }

  lemma HoldsAfter(settings: Settings, s: State, a: Action, id: Id, given: seq<Issued>)
    requires Holds(s, id, given)
    ensures Holds(Next(settings, s, a), id, given + AnswerIn(settings, s, a, id))
  {
    if AnswerIn(settings, s, a, id) == [] { assert given + [] == given; }
    if a.Lock? {
      if At(s, a.r) && s.requests[a.r].pc.Locking? { HoldsAfterLock(settings, s, a.r, a.answer, id, given); }
    } else if a.Create? {
      if AnswerIn(settings, s, a, id) != [] { AnswerTakenOver(NO_TOKENS, given, a.response, s.clock); }
    } else {
      OtherStepsAreQuiet(settings, s, a);
    }
  }

  lemma {:induction false} HoldsThroughout(
    settings: Settings, s: State, actions: seq<Action>, id: Id, given: seq<Issued>)
    requires Holds(s, id, given)
    ensures Holds(Run(settings, s, actions), id, given + Answers(settings, s, actions, id))
    decreases |actions|
  {
    if actions == [] {
      assert given + [] == given;
    } else {
      var t, first := Next(settings, s, actions[0]), AnswerIn(settings, s, actions[0], id);
      HoldsAfter(settings, s, actions[0], id, given);
      HoldsThroughout(settings, t, actions[1..], id, given + first);
      var rest := Answers(settings, t, actions[1..], id);
      assert given + first + rest == given + (first + rest);
    }
  }

  /** In every interleaving, a stored session holds the access token, its type and its expiry
      from the last answer the issuer gave for that login, and the refresh token, ID token,
      scopes and refresh lifetime from the last answers that gave them. */
  lemma StoredTokensAreTheLatest(settings: Settings, actions: seq<Action>, id: Id)
    requires id in Run(settings, INITIAL, actions).store
    ensures FromAnswers(Run(settings, INITIAL, actions).store[id].tokens, Answers(settings, INITIAL, actions, id))
  {
    HoldsThroughout(settings, INITIAL, actions, id, []);
    assert [] + Answers(settings, INITIAL, actions, id) == Answers(settings, INITIAL, actions, id);
  }
}
