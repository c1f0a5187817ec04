/** When eviction is invisible, and that keys are independent. */
module RateLimitTheorems {
  import opened Prelude
  import opened RateLimit

  datatype Request = Request(key: string, at: Time)

  /** Answers of a limiter that never evicts. */
  function Plain(s: Limiters, requests: seq<Request>): seq<bool>
    decreases |requests|
  {
    if requests == [] then []
    else
      var r := requests[0];
      [Answer(s, r.key, r.at)] + Plain(Served(s, r.key, r.at), requests[1..])
  }

  /** Answers of the limiter as it is. */
  function Evicting(s: Limiters, requests: seq<Request>): seq<bool>
    decreases |requests|
  {
    if requests == [] then []
    else
      var r := requests[0];
      var e := Evicted(s, r.at);
      [Answer(e, r.key, r.at)] + Evicting(Served(e, r.key, r.at), requests[1..])
  }

  ghost predicate InOrder(now: Time, requests: seq<Request>)
    decreases |requests|
  {
    requests == [] || (now <= requests[0].at && InOrder(requests[0].at, requests[1..]))
  }

  // ----- eviction ---------------------------------------------------------

  ghost predicate Sound(b: Bucket, rpm: int, burst: int, early: bool, now: Time) {
    && b.rpm == rpm && b.burst == burst && b.early == early
    && -Grace(rpm, early) <= b.units && b.last <= b.lastSeen <= now
  }

  /** What the evicting limiter has dropped was idle long enough to be full again. */
  ghost predicate Same(plain: Limiters, e: Limiters, now: Time) {
    && e.rpm == plain.rpm && e.burst == plain.burst && e.early == plain.early
    && (forall k <- plain.buckets :: Sound(plain.buckets[k], plain.rpm, plain.burst, plain.early, now))
    && (forall k <- e.buckets :: k in plain.buckets && e.buckets[k] == plain.buckets[k])
    && (forall k <- plain.buckets :: k !in e.buckets ==> IDLE_TIMEOUT < now - plain.buckets[k].lastSeen)
  }

  /** The shortest idle time that can be evicted, ten minutes and a nanosecond, refills the
      burst. So it does for a burst of 10 * rpm, and for none that admits nothing. */
  predicate RefillsWhileIdle(rpm: int, burst: int, early: bool) {
    burst * TOKEN + Grace(rpm, early) <= Max(rpm, 0) * (IDLE_TIMEOUT + 1)
  }

  lemma IdleBucketIsFull(b: Bucket, rpm: int, burst: int, early: bool, now: Time)
    requires Sound(b, rpm, burst, early, now) && IDLE_TIMEOUT < now - b.lastSeen
    requires RefillsWhileIdle(rpm, burst, early)
    ensures Available(b, now) == burst * TOKEN
  {
    var idle, rate := now - b.last, Max(rpm, 0);
    assert IDLE_TIMEOUT + 1 <= idle;
    assert 0 <= rate * (IDLE_TIMEOUT + 1) <= rate * idle;
  }

  lemma SameStep(plain: Limiters, e: Limiters, now: Time, r: Request)
    requires Same(plain, e, now) && now <= r.at
    requires 0 < plain.burst && RefillsWhileIdle(plain.rpm, plain.burst, plain.early)
    ensures var f := Evicted(e, r.at);
      && Answer(f, r.key, r.at) == Answer(plain, r.key, r.at)
      && Same(Served(plain, r.key, r.at), Served(f, r.key, r.at), r.at)
  {
    var f := Evicted(e, r.at);
    assert Same(plain, f, r.at);
    if r.key in plain.buckets {
      var b := plain.buckets[r.key];
      assert Sound(b, plain.rpm, plain.burst, plain.early, r.at);
      if r.key !in f.buckets {
        IdleBucketIsFull(b, plain.rpm, plain.burst, plain.early, r.at);
        var waking, restarted := BucketOf(plain, r.key, r.at), BucketOf(f, r.key, r.at);
        assert Available(waking, r.at) == Available(b, r.at) == Available(restarted, r.at);
        assert Spend(waking, r.at) == Spend(restarted, r.at);
      }
    }
  }

  lemma {:induction false} SameAnswers(plain: Limiters, e: Limiters, now: Time, requests: seq<Request>)
    requires Same(plain, e, now) && InOrder(now, requests)
    requires 0 < plain.burst && RefillsWhileIdle(plain.rpm, plain.burst, plain.early)
    ensures Evicting(e, requests) == Plain(plain, requests)
    decreases |requests|
  {
    if requests != [] {
      var r := requests[0];
      SameStep(plain, e, now, r);
      SameAnswers(Served(plain, r.key, r.at), Served(Evicted(e, r.at), r.key, r.at), r.at, requests[1..]);
    }
  }

  ghost predicate AllDeny(s: Limiters) {
    s.burst <= 0 && forall k <- s.buckets :: s.buckets[k].burst <= 0
  }

  /** A burst that is not positive admits nothing, evictions or not. */
  lemma {:induction false} NothingAdmitted(plain: Limiters, e: Limiters, requests: seq<Request>)
    requires AllDeny(plain) && AllDeny(e)
    ensures Evicting(e, requests) == Plain(plain, requests)
    decreases |requests|
  {
    if requests != [] {
      var r := requests[0];
      NothingAdmitted(Served(plain, r.key, r.at), Served(Evicted(e, r.at), r.key, r.at), requests[1..]);
    }
  }

  // ----- the converse: a key that drains its bucket twice -----------------

  function Repeat(key: string, at: Time, n: nat): seq<Request> {
    if n == 0 then [] else [Request(key, at)] + Repeat(key, at, n - 1)
  }

  function PlainState(s: Limiters, requests: seq<Request>): Limiters
    decreases |requests|
  {
    if requests == [] then s else PlainState(Served(s, requests[0].key, requests[0].at), requests[1..])
  }

  lemma {:induction false} PlainAppend(s: Limiters, first: seq<Request>, rest: seq<Request>)
    ensures Plain(s, first + rest) == Plain(s, first) + Plain(PlainState(s, first), rest)
    decreases |first|
  {
    if first == [] {
      assert first + rest == rest;
    } else {
      assert (first + rest)[1..] == first[1..] + rest;
      PlainAppend(Served(s, first[0].key, first[0].at), first[1..], rest);
    }
  }

  function AllTrue(n: nat): seq<bool> { seq(n, i => true) }

  /** No eviction is due, so nothing tells the two apart. */
  lemma {:induction false} NoEvictionDue(s: Limiters, key: string, at: Time, n: nat, rest: seq<Request>)
    requires at - s.lastEvict < IDLE_TIMEOUT
    ensures Evicting(s, Repeat(key, at, n) + rest)
         == Plain(s, Repeat(key, at, n)) + Evicting(PlainState(s, Repeat(key, at, n)), rest)
    decreases n
  {
    var requests := Repeat(key, at, n);
    if n == 0 {
      assert requests + rest == rest;
    } else {
      assert (requests + rest)[1..] == Repeat(key, at, n - 1) + rest;
      NoEvictionDue(Served(s, key, at), key, at, n - 1, rest);
    }
  }

  /** `n` requests at one instant drain `n` tokens that are there. */
  lemma {:induction false} Drain(s: Limiters, key: string, at: Time, n: nat)
    requires var b := BucketOf(s, key, at); 1 <= b.burst && n * TOKEN <= Available(b, at)
    ensures Plain(s, Repeat(key, at, n)) == AllTrue(n)
    ensures var t := PlainState(s, Repeat(key, at, n));
      && t.rpm == s.rpm && t.burst == s.burst && t.lastEvict == s.lastEvict && t.early == s.early
      && (n > 0 ==>
            && key in t.buckets
            && var b := BucketOf(s, key, at);
            t.buckets[key] == b.(units := Available(b, at) - n * TOKEN, last := at))
    decreases n
  {
    if n > 0 {
      var b := BucketOf(s, key, at);
      assert TOKEN <= n * TOKEN;
      var t := Served(s, key, at);
      assert BucketOf(t, key, at) == t.buckets[key] == b.(units := Available(b, at) - TOKEN, last := at);
      assert Available(t.buckets[key], at) == Available(b, at) - TOKEN;
      Drain(t, key, at, n - 1);
      assert Repeat(key, at, n)[1..] == Repeat(key, at, n - 1);
    }
  }

  /** Admitting `n` requests at one instant takes `n` tokens, or all but a nanosecond's refill. */
  lemma {:induction false} AllAdmittedTakesTokens(s: Limiters, key: string, at: Time, n: nat)
    requires n > 0 && Plain(s, Repeat(key, at, n)) == AllTrue(n)
    ensures n * TOKEN <= Available(BucketOf(s, key, at), at) + Grace(BucketOf(s, key, at).rpm, BucketOf(s, key, at).early)
    decreases n
  {
    var t := Served(s, key, at);
    assert Plain(s, Repeat(key, at, n))[0];
    OneAdmitted(s, key, at);
    if n > 1 {
      assert Repeat(key, at, n)[1..] == Repeat(key, at, n - 1);
      assert Plain(t, Repeat(key, at, n - 1)) == AllTrue(n)[1..] == AllTrue(n - 1);
      AllAdmittedTakesTokens(t, key, at, n - 1);
    }
  }

  lemma OneAdmitted(s: Limiters, key: string, at: Time)
    requires Answer(s, key, at)
    ensures var b, c := BucketOf(s, key, at), BucketOf(Served(s, key, at), key, at);
      && TOKEN <= Available(b, at) + Grace(b.rpm, b.early)
      && Available(c, at) == Available(b, at) - TOKEN && c.rpm == b.rpm && c.early == b.early
  {
  }

  lemma {:induction false} RepeatInOrder(key: string, at: Time, n: nat, rest: seq<Request>)
    requires InOrder(at, rest)
    ensures InOrder(at, Repeat(key, at, n) + rest)
    decreases n
  {
    var requests := Repeat(key, at, n) + rest;
    if n == 0 {
      assert requests == rest;
    } else {
      assert requests[1..] == Repeat(key, at, n - 1) + rest;
      RepeatInOrder(key, at, n - 1, rest);
      assert requests[0].at == at && InOrder(at, requests[1..]);
    }
  }

  function New(rpm: int, burst: int, start: Time, early: bool): Limiters {
    Limiters(map[], rpm, burst, start, early)
  }

  ghost predicate EvictionInvisible(rpm: int, burst: int, start: Time, early: bool) {
    forall requests | InOrder(start, requests) ::
      Evicting(New(rpm, burst, start, early), requests) == Plain(New(rpm, burst, start, early), requests)
  }

  /** A burst, ten minutes and a nanosecond of silence, and a burst again. */
  function TwoBursts(key: string, start: Time, burst: nat): seq<Request> {
    Repeat(key, start, burst) + Repeat(key, start + IDLE_TIMEOUT + 1, burst)
  }

  /** Even the shortest idle time leaves the drained bucket more than a nanosecond short. */
  predicate TooLarge(rpm: int, burst: int, early: bool) {
    Max(rpm, 0) * (IDLE_TIMEOUT + 1) + Grace(rpm, early) < burst * TOKEN
  }

  /** The first burst drains the bucket. */
  lemma FirstBurst(rpm: int, burst: nat, start: Time, early: bool, key: string)
    requires 0 < burst
    ensures var t := PlainState(New(rpm, burst, start, early), Repeat(key, start, burst));
      && t.rpm == rpm && t.burst == burst && t.early == early && t.lastEvict == start
      && key in t.buckets && t.buckets[key] == Bucket(0, start, rpm, burst, start, early)
  {
    Drain(New(rpm, burst, start, early), key, start, burst);
  }

  lemma EvictionShows(rpm: int, burst: int, start: Time, early: bool, key: string)
    requires TooLarge(rpm, burst, early) && 0 < burst
    ensures InOrder(start, TwoBursts(key, start, burst))
    ensures Evicting(New(rpm, burst, start, early), TwoBursts(key, start, burst))
         != Plain(New(rpm, burst, start, early), TwoBursts(key, start, burst))
  {
    var s, later := New(rpm, burst, start, early), start + IDLE_TIMEOUT + 1;
    var first, second := Repeat(key, start, burst), Repeat(key, later, burst);
    RepeatInOrder(key, later, burst, []);
    assert second + [] == second;
    assert InOrder(start, second);
    RepeatInOrder(key, start, burst, second);
    FirstBurst(rpm, burst, start, early, key);
    var t := PlainState(s, first);
    PlainAppend(s, first, second);
    NoEvictionDue(s, key, start, burst, second);
    SecondBurst(t, key, later, burst);
    var before := Plain(s, first);
    assert (before + Evicting(t, second))[|before|..] == Evicting(t, second);
    assert (before + Plain(t, second))[|before|..] == Plain(t, second);
  }

  /** The drained bucket is dropped and starts full; kept, it is not full yet. */
  lemma SecondBurst(t: Limiters, key: string, later: Time, burst: nat)
    requires t.burst == burst > 0 && key in t.buckets && TooLarge(t.rpm, burst, t.early)
    requires t.lastEvict == later - IDLE_TIMEOUT - 1
    requires t.buckets[key] == Bucket(0, t.lastEvict, t.rpm, burst, t.lastEvict, t.early)
    ensures Evicting(t, Repeat(key, later, burst)) != Plain(t, Repeat(key, later, burst))
  {
    var second := Repeat(key, later, burst);
    var e := Evicted(t, later);
    assert key !in e.buckets && e.lastEvict == later;
    Drain(e, key, later, burst);
    NoEvictionDue(e, key, later, burst, []);
    assert second + [] == second;
    assert Evicting(e, second) == AllTrue(burst) + [];
    assert Evicted(e, later) == e;
    assert Evicting(t, second) == Evicting(e, second);
    var waking := BucketOf(t, key, later);
    assert later - waking.last == IDLE_TIMEOUT + 1;
    assert Available(waking, later) + Grace(waking.rpm, waking.early) < burst * TOKEN;
    if Plain(t, second) == AllTrue(burst) {
      AllAdmittedTakesTokens(t, key, later, burst);
    }
  }

  /** Under a fixed policy eviction is invisible, for every sequence of requests over all
      keys, when the burst refills in the idle time. */
  lemma EvictionInvisibleIf(rpm: int, burst: int, start: Time, early: bool)
    requires RefillsWhileIdle(rpm, burst, early)
    ensures EvictionInvisible(rpm, burst, start, early)
  {
    var s := New(rpm, burst, start, early);
    forall requests | InOrder(start, requests)
      ensures Evicting(s, requests) == Plain(s, requests)
    {
      if 0 < burst { SameAnswers(s, s, start, requests); } else { NothingAdmitted(s, s, requests); }
    }
  }

  /** And only then; with the library's rounding, at rates of at most half a token a
      nanosecond, which is thirty thousand million requests a minute. */
  lemma EvictionInvisibleIff(rpm: int, burst: int, start: Time, early: bool)
    requires early ==> 2 * rpm <= TOKEN
    ensures EvictionInvisible(rpm, burst, start, early) <==> RefillsWhileIdle(rpm, burst, early)
  {
    if RefillsWhileIdle(rpm, burst, early) {
      EvictionInvisibleIf(rpm, burst, start, early);
    } else {
      NoMiddleGround(rpm, burst, early);
      EvictionShows(rpm, burst, start, early, "k");
    }
  }

  /** A burst that does not refill is far too large. */
  lemma NoMiddleGround(rpm: int, burst: int, early: bool)
    requires (early ==> 2 * rpm <= TOKEN) && !RefillsWhileIdle(rpm, burst, early)
    ensures TooLarge(rpm, burst, early) && 0 < burst
  {
    var rate := Max(rpm, 0);
    assert rate * (IDLE_TIMEOUT + 1) == 10 * rate * TOKEN + rate;
    if early && rpm > 0 {
      assert burst * TOKEN > 10 * rate * TOKEN + 1;
      assert burst > 10 * rate;
      assert burst * TOKEN >= 10 * rate * TOKEN + TOKEN;
    }
  }

  /** In the policy's own terms: at most ten times the rate, unless the rate is beyond a
      token a nanosecond. */
  lemma TenfoldBurstsRefill(rpm: int, burst: int, early: bool)
    requires 0 <= rpm
    ensures burst <= 10 * rpm ==> RefillsWhileIdle(rpm, burst, early)
    ensures rpm < TOKEN ==> (RefillsWhileIdle(rpm, burst, early) <==> burst <= 10 * rpm)
  {
    assert rpm * (IDLE_TIMEOUT + 1) == 10 * rpm * TOKEN + rpm;
  }

  // ----- keys are independent ---------------------------------------------

  function TimesOf(requests: seq<Request>, key: string): seq<Time> {
    if requests == [] then []
    else (if requests[0].key == key then [requests[0].at] else []) + TimesOf(requests[1..], key)
  }

  function AnswersTo(answers: seq<bool>, requests: seq<Request>, key: string): seq<bool>
    requires |answers| == |requests|
  {
    if requests == [] then []
    else (if requests[0].key == key then [answers[0]] else []) + AnswersTo(answers[1..], requests[1..], key)
  }

  /** One bucket serving its own requests. */
  function Alone(b: Option<Bucket>, rpm: int, burst: int, early: bool, times: seq<Time>): seq<bool>
    decreases |times|
  {
    if times == [] then []
    else
      var now := times[0];
      var x := if b.Some? then b.value.(lastSeen := now) else FullBucket(rpm, burst, now, early);
      [Admits(x, now)] + Alone(Some(Spend(x, now)), rpm, burst, early, times[1..])
  }

  lemma {:induction false} PlainLength(s: Limiters, requests: seq<Request>)
    ensures |Plain(s, requests)| == |requests|
    decreases |requests|
  {
    if requests != [] { PlainLength(Served(s, requests[0].key, requests[0].at), requests[1..]); }
  }

  lemma {:induction false} PlainKeysAreIndependent(s: Limiters, requests: seq<Request>, key: string)
    ensures |Plain(s, requests)| == |requests|
    ensures AnswersTo(Plain(s, requests), requests, key)
         == Alone(if key in s.buckets then Some(s.buckets[key]) else None, s.rpm, s.burst, s.early,
                  TimesOf(requests, key))
    decreases |requests|
  {
    PlainLength(s, requests);
    if requests != [] {
      var r := requests[0];
      var t := Served(s, r.key, r.at);
      PlainKeysAreIndependent(t, requests[1..], key);
      assert Plain(s, requests)[1..] == Plain(t, requests[1..]);
      var rest := AnswersTo(Plain(t, requests[1..]), requests[1..], key);
      if r.key == key {
        assert TimesOf(requests, key)[1..] == TimesOf(requests[1..], key);
        assert AnswersTo(Plain(s, requests), requests, key) == [Answer(s, key, r.at)] + rest;
      } else {
        assert TimesOf(requests, key) == TimesOf(requests[1..], key);
        assert AnswersTo(Plain(s, requests), requests, key) == rest;
        assert key in t.buckets <==> key in s.buckets;
      }
    }
  }

  /** With a burst that refills in the idle time, what a key is answered depends
      on its own request times alone, evictions and all. */
  lemma KeysAreIndependent(rpm: int, burst: int, start: Time, early: bool, requests: seq<Request>, key: string)
    requires RefillsWhileIdle(rpm, burst, early) && InOrder(start, requests)
    ensures var answers := Evicting(New(rpm, burst, start, early), requests);
      && |answers| == |requests|
      && AnswersTo(answers, requests, key) == Alone(None, rpm, burst, early, TimesOf(requests, key))
  {
    EvictionInvisibleIf(rpm, burst, start, early);
    PlainKeysAreIndependent(New(rpm, burst, start, early), requests, key);
  }
}
