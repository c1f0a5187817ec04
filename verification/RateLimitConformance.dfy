/** What a key is answered, said without a bucket: a request is admitted exactly when no window
    that ends with it would then hold more than the burst and the rate allow. */
module RateLimitConformance {
  import opened Prelude
  import opened RateLimit
  import opened RateLimitTheorems

  /** What `d` nanoseconds at the rate bring, of which sixty thousand million make a token. */
  function Refill(rpm: int, d: int): int { if rpm <= 0 then 0 else rpm * d }

  /** Counting the new request, every window from an earlier admission until now holds at most the
      burst and what the window refills; with the library's rounding, less than a nanosecond's
      refill more. */
  ghost predicate Conforms(rpm: int, burst: int, early: bool, admitted: seq<Time>, now: Time) {
    1 <= burst && forall j | 0 <= j < |admitted| :: FitsFrom(rpm, burst, early, admitted, now, j)
  }

  predicate FitsFrom(rpm: int, burst: int, early: bool, admitted: seq<Time>, now: Time, j: nat)
    requires j < |admitted|
  {
    (|admitted| - j + 1) * 60_000_000_000
      <= burst * 60_000_000_000 + Refill(rpm, now - admitted[j]) + (if early && 0 < rpm then rpm - 1 else 0)
  }

  /** The answers to one key's requests, by that rule alone. */
  ghost function Conforming(rpm: int, burst: int, early: bool, admitted: seq<Time>, times: seq<Time>): seq<bool>
    decreases |times|
  {
    if times == [] then []
    else
      var ok := Conforms(rpm, burst, early, admitted, times[0]);
      [ok] + Conforming(rpm, burst, early, if ok then admitted + [times[0]] else admitted, times[1..])
  }

  ghost predicate Ascending(now: Time, times: seq<Time>)
    decreases |times|
  {
    times == [] || (now <= times[0] && Ascending(times[0], times[1..]))
  }

  // ----- the level of a bucket with these admissions ------------------------

  function Level(rpm: int, burst: int, admitted: seq<Time>, now: Time): int
    decreases |admitted|
  {
    if admitted == [] then burst * TOKEN
    else
      var last := admitted[|admitted| - 1];
      Min(Level(rpm, burst, admitted[..|admitted| - 1], last) - TOKEN + Refill(rpm, now - last), burst * TOKEN)
  }

  lemma RefillAdds(rpm: int, a: int, b: int)
    ensures Refill(rpm, a + b) == Refill(rpm, a) + Refill(rpm, b)
  {
  }

  lemma RefillGrows(rpm: int, a: int, b: int)
    requires a <= b
    ensures Refill(rpm, a) <= Refill(rpm, b) && (0 <= a ==> 0 <= Refill(rpm, a))
  {
  }

  /** `x` units are there since the admission `j`, and all the later ones. */
  predicate LeavesFrom(rpm: int, burst: int, admitted: seq<Time>, now: Time, x: int, j: nat)
    requires j < |admitted|
  {
    x <= burst * TOKEN - (|admitted| - j) * TOKEN + Refill(rpm, now - admitted[j])
  }

  lemma LeavesBefore(rpm: int, burst: int, admitted: seq<Time>, now: Time, x: int, j: nat)
    requires j < |admitted| - 1
    ensures var before, last := admitted[..|admitted| - 1], admitted[|admitted| - 1];
      LeavesFrom(rpm, burst, admitted, now, x, j) <==>
      LeavesFrom(rpm, burst, before, last, x + TOKEN - Refill(rpm, now - last), j)
  {
    var last := admitted[|admitted| - 1];
    RefillAdds(rpm, now - last, last - admitted[j]);
  }

  lemma {:induction false} LevelIff(rpm: int, burst: int, admitted: seq<Time>, now: Time, x: int)
    ensures x <= Level(rpm, burst, admitted, now) <==>
      x <= burst * TOKEN && forall j | 0 <= j < |admitted| :: LeavesFrom(rpm, burst, admitted, now, x, j)
    decreases |admitted|
  {
    if admitted != [] {
      var n := |admitted| - 1;
      var before, last := admitted[..n], admitted[n];
      var y := x + TOKEN - Refill(rpm, now - last);
      LevelIff(rpm, burst, before, last, y);
      forall j | 0 <= j < n
        ensures LeavesFrom(rpm, burst, admitted, now, x, j) <==> LeavesFrom(rpm, burst, before, last, y, j)
      {
        LeavesBefore(rpm, burst, admitted, now, x, j);
      }
      assert LeavesFrom(rpm, burst, admitted, now, x, n) <==> y <= burst * TOKEN;
    }
  }

  /** The bucket holds what these admissions have left. */
  ghost predicate Follows(b: Bucket, rpm: int, burst: int, early: bool, admitted: seq<Time>, now: Time) {
    && b.rpm == rpm && b.burst == burst && b.early == early && b.last <= now
    && if admitted == [] then b.units == burst * TOKEN
       else
         var n := |admitted| - 1;
         b.last == admitted[n] && b.units == Level(rpm, burst, admitted[..n], admitted[n]) - TOKEN
  }

  lemma AvailableIsTheLevel(b: Bucket, rpm: int, burst: int, early: bool, admitted: seq<Time>, now: Time)
    requires Follows(b, rpm, burst, early, admitted, now)
    ensures Available(b, now) == Level(rpm, burst, admitted, now)
  {
    RefillGrows(rpm, 0, now - b.last);
    assert Max(b.rpm, 0) * Max(now - b.last, 0) == Refill(rpm, now - b.last);
  }

  lemma AdmitsIffConforms(b: Bucket, rpm: int, burst: int, early: bool, admitted: seq<Time>, now: Time)
    requires Follows(b, rpm, burst, early, admitted, now)
    ensures Admits(b, now) <==> Conforms(rpm, burst, early, admitted, now)
  {
    AvailableIsTheLevel(b, rpm, burst, early, admitted, now);
    var x := TOKEN - Grace(rpm, early);
    LevelIff(rpm, burst, admitted, now, x);
    forall j | 0 <= j < |admitted|
      ensures LeavesFrom(rpm, burst, admitted, now, x, j) <==> FitsFrom(rpm, burst, early, admitted, now, j)
    {
      var counted := |admitted| - j;
      assert (counted + 1) * TOKEN == counted * TOKEN + TOKEN;
    }
    if 1 <= burst { Scale(1, burst, TOKEN); }
  }

  lemma SpendFollows(b: Bucket, rpm: int, burst: int, early: bool, admitted: seq<Time>, now: Time)
    requires Follows(b, rpm, burst, early, admitted, now)
    ensures Follows(Spend(b, now), rpm, burst, early, if Admits(b, now) then admitted + [now] else admitted, now)
  {
    if Admits(b, now) {
      AvailableIsTheLevel(b, rpm, burst, early, admitted, now);
      assert (admitted + [now])[..|admitted|] == admitted;
    }
  }

  lemma {:induction false} AloneConforms(
    b: Bucket, rpm: int, burst: int, early: bool, admitted: seq<Time>, now: Time, times: seq<Time>)
    requires Follows(b, rpm, burst, early, admitted, now) && Ascending(now, times)
    ensures Alone(Some(b), rpm, burst, early, times) == Conforming(rpm, burst, early, admitted, times)
    decreases |times|
  {
    if times != [] {
      var at := times[0];
      var x := b.(lastSeen := at);
      AdmitsIffConforms(x, rpm, burst, early, admitted, at);
      SpendFollows(x, rpm, burst, early, admitted, at);
      AloneConforms(Spend(x, at), rpm, burst, early, if Admits(x, at) then admitted + [at] else admitted, at, times[1..]);
    }
  }

  lemma FreshConforms(rpm: int, burst: int, early: bool, times: seq<Time>)
    requires times != [] ==> Ascending(times[0], times)
    ensures Alone(None, rpm, burst, early, times) == Conforming(rpm, burst, early, [], times)
  {
    if times != [] {
      var full := FullBucket(rpm, burst, times[0], early);
      AloneConforms(full, rpm, burst, early, [], times[0], times);
      assert full.(lastSeen := times[0]) == full;
    }
  }

  lemma {:induction false} TimesAscend(now: Time, requests: seq<Request>, key: string)
    requires InOrder(now, requests)
    ensures Ascending(now, TimesOf(requests, key))
    decreases |requests|
  {
    if requests != [] {
      TimesAscend(requests[0].at, requests[1..], key);
      var rest := TimesOf(requests[1..], key);
      assert ([requests[0].at] + rest)[1..] == rest && [] + rest == rest;
    }
  }

  /** The limiter, sweeps and all keys included, admits exactly the requests that conform. */
  lemma AdmittedIffConforming(rpm: int, burst: int, start: Time, early: bool, requests: seq<Request>, key: string)
    requires RefillsWhileIdle(rpm, burst, early) && InOrder(start, requests)
    ensures var answers := Evicting(New(rpm, burst, start, early), requests);
      && |answers| == |requests|
      && AnswersTo(answers, requests, key) == Conforming(rpm, burst, early, [], TimesOf(requests, key))
  {
    KeysAreIndependent(rpm, burst, start, early, requests, key);
    TimesAscend(start, requests, key);
    FreshConforms(rpm, burst, early, TimesOf(requests, key));
  }

  ghost predicate ConformsOn(rpm: int, burst: int, start: Time, early: bool, requests: seq<Request>, key: string) {
    var answers := Evicting(New(rpm, burst, start, early), requests);
    && |answers| == |requests|
    && AnswersTo(answers, requests, key) == Conforming(rpm, burst, early, [], TimesOf(requests, key))
  }

  ghost predicate AlwaysConforms(rpm: int, burst: int, start: Time, early: bool) {
    forall requests, key | InOrder(start, requests) :: ConformsOn(rpm, burst, start, early, requests, key)
  }

  lemma {:induction false} RepeatedKey(key: string, at: Time, n: nat)
    ensures forall r <- Repeat(key, at, n) :: r.key == key
    decreases n
  {
    if n > 0 { RepeatedKey(key, at, n - 1); }
  }

  lemma {:induction false} AllForOneKey(answers: seq<bool>, requests: seq<Request>, key: string)
    requires |answers| == |requests| && forall r <- requests :: r.key == key
    ensures AnswersTo(answers, requests, key) == answers
    decreases |requests|
  {
    if requests != [] {
      AllForOneKey(answers[1..], requests[1..], key);
      assert answers == [answers[0]] + answers[1..];
    }
  }

  /** Without the sweep the rule holds for every policy, so where the sweep shows it fails. */
  lemma TwoBurstsDoNotConform(rpm: int, burst: int, start: Time, early: bool, key: string)
    requires TooLarge(rpm, burst, early) && 0 < burst
    ensures InOrder(start, TwoBursts(key, start, burst))
    ensures !ConformsOn(rpm, burst, start, early, TwoBursts(key, start, burst), key)
  {
    var s, requests := New(rpm, burst, start, early), TwoBursts(key, start, burst);
    EvictionShows(rpm, burst, start, early, key);
    RepeatedKey(key, start, burst);
    RepeatedKey(key, start + IDLE_TIMEOUT + 1, burst);
    if ConformsOn(rpm, burst, start, early, requests, key) {
      PlainKeysAreIndependent(s, requests, key);
      TimesAscend(start, requests, key);
      FreshConforms(rpm, burst, early, TimesOf(requests, key));
      AllForOneKey(Plain(s, requests), requests, key);
      AllForOneKey(Evicting(s, requests), requests, key);
      assert false;
    }
  }

  /** The limiter keeps to the rule under exactly the policies whose burst refills in the idle
      time; with the library's rounding, at rates of at most half a token a nanosecond. */
  lemma ConformsIffRefills(rpm: int, burst: int, start: Time, early: bool)
    requires early ==> 2 * rpm <= TOKEN
    ensures AlwaysConforms(rpm, burst, start, early) <==> RefillsWhileIdle(rpm, burst, early)
  {
    if RefillsWhileIdle(rpm, burst, early) {
      forall requests, key | InOrder(start, requests) ensures ConformsOn(rpm, burst, start, early, requests, key) {
        AdmittedIffConforming(rpm, burst, start, early, requests, key);
      }
    } else {
      NoMiddleGround(rpm, burst, early);
      TwoBurstsDoNotConform(rpm, burst, start, early, "k");
    }
  }

  // ----- a lower bound ------------------------------------------------------

  /** Since each admission of its key before it, a token has been refilled when request `i` comes. */
  ghost predicate Waited(rpm: int, answers: seq<bool>, requests: seq<Request>, i: nat)
    requires i < |requests| == |answers|
  {
    forall j | 0 <= j < i && answers[j] && requests[j].key == requests[i].key ::
      60_000_000_000 <= Refill(rpm, requests[i].at - requests[j].at)
  }

  lemma WaitsOn(rpm: int, first: bool, rest: seq<bool>, requests: seq<Request>, i: nat)
    requires 0 < i < |requests| == |rest| + 1 && Waited(rpm, [first] + rest, requests, i)
    ensures Waited(rpm, rest, requests[1..], i - 1)
    ensures first && requests[0].key == requests[i].key ==>
      60_000_000_000 <= Refill(rpm, requests[i].at - requests[0].at)
  {
    var answers := [first] + rest;
    forall j | 0 <= j < i - 1 && rest[j] && requests[1..][j].key == requests[i].key
      ensures 60_000_000_000 <= Refill(rpm, requests[1..][i - 1].at - requests[1..][j].at)
    {
      assert answers[j + 1];
    }
    if first { assert answers[0]; }
  }

  lemma NewKeysAreAdmitted(s: Limiters, key: string, now: Time)
    requires 0 < s.burst && key !in s.buckets
    ensures Answer(s, key, now)
  {
    Scale(1, s.burst, TOKEN);
    assert Available(FullBucket(s.rpm, s.burst, now, s.early), now) == s.burst * TOKEN;
  }

  lemma {:induction false} EvictingLength(s: Limiters, requests: seq<Request>)
    ensures |Evicting(s, requests)| == |requests|
    decreases |requests|
  {
    if requests != [] {
      var r := requests[0];
      EvictingLength(Served(Evicted(s, r.at), r.key, r.at), requests[1..]);
    }
  }

  /** Nothing is owed beyond the rounding, and buckets carry the policy. */
  ghost predicate Solvent(s: Limiters, now: Time) {
    forall k <- s.buckets :: Sound(s.buckets[k], s.rpm, s.burst, s.early, now)
  }

  /** Full, or a token has been refilled since its last admission. */
  predicate Rested(b: Bucket, at: Time) {
    b.units == b.burst * TOKEN || 60_000_000_000 <= Refill(b.rpm, at - b.last)
  }

  lemma RestedAdmits(b: Bucket, rpm: int, burst: int, early: bool, now: Time)
    requires 1 <= burst && Sound(b, rpm, burst, early, now) && Rested(b, now)
    ensures Admits(b, now)
  {
    Scale(1, burst, TOKEN);
    RefillGrows(rpm, 0, now - b.last);
    assert Max(b.rpm, 0) * Max(now - b.last, 0) == Refill(rpm, now - b.last);
  }

  lemma StaysSolvent(s: Limiters, now: Time, r: Request)
    requires Solvent(s, now) && now <= r.at && 1 <= s.burst
    ensures Solvent(Served(Evicted(s, r.at), r.key, r.at), r.at)
  {
    var e := Evicted(s, r.at);
    forall k | k in e.buckets ensures Sound(e.buckets[k], s.rpm, s.burst, s.early, r.at) {
      assert Sound(s.buckets[k], s.rpm, s.burst, s.early, now);
    }
    Scale(1, s.burst, TOKEN);
  }

  /** The next request leaves the key's bucket rested, unless it is one that is admitted. */
  lemma StaysRested(s: Limiters, now: Time, r: Request, key: string, at: Time)
    requires Solvent(s, now) && now <= r.at && 1 <= s.burst
    requires key in s.buckets ==> Rested(s.buckets[key], at)
    requires r.key == key && Answer(Evicted(s, r.at), key, r.at) ==> 60_000_000_000 <= Refill(s.rpm, at - r.at)
    ensures var t := Served(Evicted(s, r.at), r.key, r.at); key in t.buckets ==> Rested(t.buckets[key], at)
  {
    if r.key == key && key in Evicted(s, r.at).buckets {
      assert Sound(s.buckets[key], s.rpm, s.burst, s.early, now);
    }
  }

  lemma {:induction false} RestedIsAdmitted(s: Limiters, now: Time, requests: seq<Request>, i: nat)
    requires Solvent(s, now) && InOrder(now, requests) && 1 <= s.burst && i < |requests|
    requires requests[i].key in s.buckets ==> Rested(s.buckets[requests[i].key], requests[i].at)
    requires |Evicting(s, requests)| == |requests| && Waited(s.rpm, Evicting(s, requests), requests, i)
    ensures Evicting(s, requests)[i]
    decreases i
  {
    var r, key, at := requests[0], requests[i].key, requests[i].at;
    var e := Evicted(s, r.at);
    var t := Served(e, r.key, r.at);
    if i == 0 {
      if key in e.buckets {
        assert Sound(s.buckets[key], s.rpm, s.burst, s.early, now);
        RestedAdmits(BucketOf(e, key, at), s.rpm, s.burst, s.early, at);
      } else {
        NewKeysAreAdmitted(e, key, at);
      }
    } else {
      var rest := Evicting(t, requests[1..]);
      WaitsOn(s.rpm, Answer(e, r.key, r.at), rest, requests, i);
      StaysSolvent(s, now, r);
      StaysRested(s, now, r, key, at);
      RestedIsAdmitted(t, r.at, requests[1..], i - 1);
    }
  }

  /** Nobody is starved, under any policy that admits anything: a request is admitted whenever a
      token has been refilled since the key's last admission, denials in between or not. */
  lemma AdmittedOnceRefilled(rpm: int, burst: int, start: Time, early: bool, requests: seq<Request>, i: nat)
    requires InOrder(start, requests) && 1 <= burst && i < |requests|
    ensures var answers := Evicting(New(rpm, burst, start, early), requests);
      |answers| == |requests| && (Waited(rpm, answers, requests, i) ==> answers[i])
  {
    var s := New(rpm, burst, start, early);
    EvictingLength(s, requests);
    if Waited(rpm, Evicting(s, requests), requests, i) { RestedIsAdmitted(s, start, requests, i); }
  }
}
