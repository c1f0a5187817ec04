/** A bound on admitted requests that survives any sequence of retunes. */
module RateLimitBudget {
  import opened Prelude
  import opened RateLimit

  datatype Event = Ask(key: string, at: Time) | Policy(rpm: int, burst: int, at: Time)

  function Step(s: Limiters, e: Event): Limiters {
    match e
    case Ask(key, at) => Served(Evicted(s, at), key, at)
    case Policy(rpm, burst, at) => RetuneAll(s, rpm, burst, at)
  }

  /** How many of the requests for `key` are admitted. */
  function Admitted(s: Limiters, events: seq<Event>, key: string): nat
    decreases |events|
  {
    if events == [] then 0
    else
      var e := events[0];
      (if e.Ask? && e.key == key && Answer(Evicted(s, e.at), key, e.at) then 1 else 0)
      + Admitted(Step(s, e), events[1..], key)
  }

  /** `key`'s bucket lives through the whole window: no sweep drops it. */
  ghost predicate Survives(s: Limiters, events: seq<Event>, key: string)
    decreases |events|
  {
    && key in s.buckets
    && (events != [] ==>
          && (events[0].Ask? ==> key in Evicted(s, events[0].at).buckets)
          && Survives(Step(s, events[0]), events[1..], key))
  }

  ghost predicate Within(now: Time, events: seq<Event>, to: Time)
    decreases |events|
  {
    if events == [] then now <= to else now <= events[0].at && Within(events[0].at, events[1..], to)
  }

  /** The sum of rate times duration over the policies in force from `now` to `to`. */
  function Supply(s: Limiters, now: Time, events: seq<Event>, to: Time): int
    decreases |events|
  {
    if events == [] then Max(s.rpm, 0) * (to - now)
    else Max(s.rpm, 0) * (events[0].at - now) + Supply(Step(s, events[0]), events[0].at, events[1..], to)
  }

  /** The burst in force at the start, what the window supplies, and what may be admitted early. */
  function Budget(s: Limiters, now: Time, events: seq<Event>, to: Time, slack: int): int {
    Max(0, s.burst * TOKEN + slack) + Supply(s, now, events, to)
  }

  /** No policy of the window refills more than `slack` in less than a nanosecond; zero will do
      when nothing is admitted early. */
  ghost predicate Bounded(s: Limiters, events: seq<Event>, slack: int) {
    && 0 <= Grace(s.rpm, s.early) <= slack
    && (forall e <- events :: e.Policy? ==> Grace(e.rpm, s.early) <= slack)
  }

  /** The units that the requests admitted for a key took. */
  function Spent(s: Limiters, events: seq<Event>, key: string): int { Admitted(s, events, key) * TOKEN }

  /** At the instant of a retune no bucket gains tokens. */
  lemma RetuneGainsNothing(b: Bucket, rpm: int, burst: int, now: Time)
    requires b.last <= now
    ensures Available(Retuned(b, rpm, burst, now), now) <= Available(b, now)
  {
    var limited := SetLimit(b, rpm, now);
    assert limited.units <= limited.burst * TOKEN;
    assert Available(limited, now) == limited.units;
  }

  /** Waiting earns at most the rate times the wait. */
  lemma WaitEarnsTheRate(b: Bucket, now: Time, later: Time)
    requires b.last <= now <= later
    ensures 0 <= Max(b.rpm, 0) * (later - now)
    ensures Available(b, later) <= Available(b, now) + Max(b.rpm, 0) * (later - now)
  {
    var rate := Max(b.rpm, 0);
    assert rate * (later - b.last) == rate * (now - b.last) + rate * (later - now);
    assert 0 <= rate * (later - now);
  }

  ghost predicate InForce(s: Limiters, key: string, now: Time) {
    && key in s.buckets
    && s.buckets[key].rpm == s.rpm && s.buckets[key].burst == s.burst && s.buckets[key].early == s.early
    && s.buckets[key].last <= now
  }

  /** One event costs the bucket a token per admission and never adds any. */
  lemma EventSpends(s: Limiters, e: Event, key: string, slack: int)
    requires InForce(s, key, e.at) && Grace(s.rpm, s.early) <= slack
    requires e.Ask? ==> key in Evicted(s, e.at).buckets
    ensures InForce(Step(s, e), key, e.at)
    ensures var admitted := if e.Ask? && e.key == key && Answer(Evicted(s, e.at), key, e.at) then 1 else 0;
      admitted * TOKEN + Max(-slack, Available(Step(s, e).buckets[key], e.at))
        <= Max(-slack, Available(s.buckets[key], e.at))
  {
    match e
    case Ask(_, _) =>
    case Policy(rpm, burst, at) => RetuneGainsNothing(s.buckets[key], rpm, burst, at);
  }

  lemma {:induction false} AdmittedWithinAvailable(
    s: Limiters, now: Time, events: seq<Event>, to: Time, key: string, slack: int)
    requires InForce(s, key, now) && Survives(s, events, key) && Within(now, events, to) && Bounded(s, events, slack)
    ensures Admitted(s, events, key) * TOKEN
         <= Max(-slack, Available(s.buckets[key], now)) + slack + Supply(s, now, events, to)
    decreases |events|
  {
    var b := s.buckets[key];
    if events == [] {
      WaitEarnsTheRate(b, now, to);
    } else {
      var e := events[0];
      var t := Step(s, e);
      var waited := Max(s.rpm, 0) * (e.at - now);
      WaitEarnsTheRate(b, now, e.at);
      EventSpends(s, e, key, slack);
      StillBounded(s, events, slack);
      AdmittedWithinAvailable(t, e.at, events[1..], to, key, slack);
      var later := Supply(t, e.at, events[1..], to);
      var n := Admitted(t, events[1..], key);
      assert Supply(s, now, events, to) == waited + later;
      assert n * TOKEN <= Max(-slack, Available(t.buckets[key], e.at)) + slack + later;
    }
  }

  lemma StillBounded(s: Limiters, events: seq<Event>, slack: int)
    requires events != [] && Bounded(s, events, slack)
    ensures Bounded(Step(s, events[0]), events[1..], slack)
  {
    assert events[0] in events;
    forall e | e in events[1..] ensures e in events { }
  }

  function Reached(s: Limiters, events: seq<Event>): Limiters
    decreases |events|
  {
    if events == [] then s else Reached(Step(s, events[0]), events[1..])
  }

  ghost predicate AllInForce(s: Limiters, now: Time) {
    forall k <- s.buckets :: InForce(s, k, now)
  }

  /** Every bucket of a limiter reached from an empty one carries the policy in force. */
  lemma {:induction false} ReachedBucketsAreInForce(s: Limiters, now: Time, events: seq<Event>, to: Time)
    requires AllInForce(s, now) && Within(now, events, to)
    ensures AllInForce(Reached(s, events), to)
    decreases |events|
  {
    if events == [] {
      forall k | k in s.buckets ensures InForce(s, k, to) { assert InForce(s, k, now); }
    } else {
      var e := events[0];
      var t := Step(s, e);
      forall k | k in t.buckets ensures InForce(t, k, e.at) {
        if k in s.buckets { assert InForce(s, k, now); }
      }
      ReachedBucketsAreInForce(t, e.at, events[1..], to);
    }
  }

  /** In any window of a bucket's life, after any history and across any retunes,
      the requests admitted for its key are at most the burst in force at the start
      plus the sum of rate times duration over the policies in force; and, with the
      library's rounding, less than a nanosecond's refill more. */
  lemma AdmittedWithinBudget(
    start: Time, history: seq<Event>, now: Time, events: seq<Event>, to: Time, key: string,
    rpm: int, burst: int, early: bool, slack: int)
    requires Within(start, history, now) && Within(now, events, to)
    requires var s := Reached(Limiters(map[], rpm, burst, start, early), history);
      Survives(s, events, key) && Bounded(s, events, slack)
    ensures var s := Reached(Limiters(map[], rpm, burst, start, early), history);
      Spent(s, events, key) <= Budget(s, now, events, to, slack)
  {
    var empty := Limiters(map[], rpm, burst, start, early);
    ReachedBucketsAreInForce(empty, start, history, now);
    AdmittedWithinAvailable(Reached(empty, history), now, events, to, key, slack);
  }
}
