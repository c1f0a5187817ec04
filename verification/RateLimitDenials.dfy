/** Requests that are denied: what the others are answered does not depend on them, and exactly
    when not. */
module RateLimitDenials {
  import opened Prelude
  import opened RateLimit
  import opened RateLimitTheorems
  import opened RateLimitConformance

  /** Equal but for when each key was last seen. */
  ghost predicate Alike(s: Limiters, t: Limiters) {
    && s.rpm == t.rpm && s.burst == t.burst && s.early == t.early && s.buckets.Keys == t.buckets.Keys
    && forall k <- s.buckets :: s.buckets[k].(lastSeen := 0) == t.buckets[k].(lastSeen := 0)
  }

  lemma {:induction false} AlikeAnswer(s: Limiters, t: Limiters, requests: seq<Request>)
    requires Alike(s, t)
    ensures Plain(s, requests) == Plain(t, requests)
    decreases |requests|
  {
    if requests != [] {
      var r := requests[0];
      AlikeStep(s, t, r);
      AlikeAnswer(Served(s, r.key, r.at), Served(t, r.key, r.at), requests[1..]);
    }
  }

  lemma AlikeStep(s: Limiters, t: Limiters, r: Request)
    requires Alike(s, t)
    ensures Answer(s, r.key, r.at) == Answer(t, r.key, r.at)
    ensures Alike(Served(s, r.key, r.at), Served(t, r.key, r.at))
  {
    var b, c := BucketOf(s, r.key, r.at), BucketOf(t, r.key, r.at);
    assert b == c by {
      if r.key in s.buckets { assert s.buckets[r.key].(lastSeen := 0) == t.buckets[r.key].(lastSeen := 0); }
    }
  }

  /** A known key's denied request is as good as not made. */
  lemma DeniedChangesNothing(s: Limiters, r: Request, rest: seq<Request>)
    requires !Answer(s, r.key, r.at) && r.key in s.buckets
    ensures Plain(s, [r] + rest) == [false] + Plain(s, rest)
  {
    assert ([r] + rest)[1..] == rest;
    AlikeAnswer(Served(s, r.key, r.at), s, rest);
  }

  lemma {:induction false} PolicyStays(s: Limiters, requests: seq<Request>)
    ensures PlainState(s, requests).burst == s.burst
    decreases |requests|
  {
    if requests != [] { PolicyStays(Served(s, requests[0].key, requests[0].at), requests[1..]); }
  }

  /** Without a request, and without its answer. */
  function Without<T>(s: seq<T>, i: nat): seq<T>
    requires i < |s|
  {
    s[..i] + s[i + 1..]
  }

  lemma PlainWithoutDenied(rpm: int, burst: int, start: Time, early: bool, requests: seq<Request>, i: nat)
    requires i < |requests| && 0 < burst
    requires var answers := Plain(New(rpm, burst, start, early), requests); i < |answers| && !answers[i]
    ensures Plain(New(rpm, burst, start, early), Without(requests, i))
         == Without(Plain(New(rpm, burst, start, early), requests), i)
  {
    var s := New(rpm, burst, start, early);
    var first, r, rest := requests[..i], requests[i], requests[i + 1..];
    var t := PlainState(s, first);
    assert requests == first + ([r] + rest) && Without(requests, i) == first + rest;
    PlainAppend(s, first, [r] + rest);
    PlainAppend(s, first, rest);
    PlainLength(s, first);
    PlainHead(t, r, rest);
    PolicyStays(s, first);
    if r.key !in t.buckets { NewKeysAreAdmitted(t, r.key, r.at); }
    DeniedChangesNothing(t, r, rest);
    WithoutTheMiddle(Plain(s, first), false, Plain(t, rest));
  }

  lemma WithoutTheMiddle<T>(first: seq<T>, x: T, rest: seq<T>)
    ensures Without(first + ([x] + rest), |first|) == first + rest
  {
  }

  lemma PlainHead(s: Limiters, r: Request, rest: seq<Request>)
    ensures |Plain(s, [r] + rest)| > 0 && Plain(s, [r] + rest)[0] == Answer(s, r.key, r.at)
  {
  }

  lemma {:induction false} StillInOrder(now: Time, requests: seq<Request>, i: nat)
    requires i < |requests| && InOrder(now, requests)
    ensures InOrder(now, Without(requests, i))
    decreases i
  {
    if i == 0 {
      LaterInOrder(now, requests[0].at, requests[1..]);
      assert Without(requests, 0) == requests[1..];
    } else {
      StillInOrder(requests[0].at, requests[1..], i - 1);
      assert Without(requests, i)[1..] == Without(requests[1..], i - 1);
    }
  }

  lemma LaterInOrder(now: Time, later: Time, requests: seq<Request>)
    requires now <= later && InOrder(later, requests)
    ensures InOrder(now, requests)
  {
  }

  /** Taking any denied request out of any sequence over all keys changes no other answer. */
  lemma DeniedRequestsDoNotMatter(rpm: int, burst: int, start: Time, early: bool, requests: seq<Request>, i: nat)
    requires RefillsWhileIdle(rpm, burst, early) && InOrder(start, requests) && i < |requests|
    requires var answers := Evicting(New(rpm, burst, start, early), requests);
      |answers| == |requests| && !answers[i]
    ensures Evicting(New(rpm, burst, start, early), Without(requests, i))
         == Without(Evicting(New(rpm, burst, start, early), requests), i)
  {
    var s := New(rpm, burst, start, early);
    StillInOrder(start, requests, i);
    EvictionInvisibleIf(rpm, burst, start, early);
    if 0 < burst {
      PlainWithoutDenied(rpm, burst, start, early, requests, i);
    } else {
      NothingIsAdmitted(s, requests);
      NothingIsAdmitted(s, Without(requests, i));
      assert Plain(s, Without(requests, i)) == Without(Plain(s, requests), i);
    }
  }

  lemma {:induction false} NothingIsAdmitted(s: Limiters, requests: seq<Request>)
    requires s.burst <= 0 && forall k <- s.buckets :: s.buckets[k].burst <= 0
    ensures Plain(s, requests) == seq(|requests|, i => false)
    decreases |requests|
  {
    if requests != [] { NothingIsAdmitted(Served(s, requests[0].key, requests[0].at), requests[1..]); }
  }

  // ----- and then only ------------------------------------------------------

  /** If request `i` is denied, the others are answered as if it had not been made. */
  ghost predicate DenialDoesNotMatter(
    rpm: int, burst: int, start: Time, early: bool, requests: seq<Request>, i: nat)
    requires i < |requests|
  {
    var s := New(rpm, burst, start, early);
    var answers := Evicting(s, requests);
    && |answers| == |requests|
    && (!answers[i] ==> Evicting(s, Without(requests, i)) == Without(answers, i))
  }

  ghost predicate DenialsNeverMatter(rpm: int, burst: int, start: Time, early: bool) {
    forall requests, i: nat | InOrder(start, requests) && i < |requests| ::
      DenialDoesNotMatter(rpm, burst, start, early, requests, i)
  }

  /** A burst, a denied request a nanosecond later, and a burst when the first, but not the
      denied request, is long enough ago for the sweep. */
  function Reminded(key: string, start: Time, burst: nat): seq<Request> {
    Repeat(key, start, burst) + ([Request(key, start + 1)] + Repeat(key, start + IDLE_TIMEOUT + 1, burst))
  }

  /** The sweep drops the drained bucket, which starts full. */
  lemma SweptBurst(t: Limiters, key: string, later: Time, burst: nat)
    requires t.burst == burst > 0 && key in t.buckets && t.lastEvict == later - IDLE_TIMEOUT - 1
    requires t.buckets[key].lastSeen == t.lastEvict
    ensures Evicting(t, Repeat(key, later, burst)) == AllTrue(burst)
  {
    var second, e := Repeat(key, later, burst), Evicted(t, later);
    assert key !in e.buckets && e.lastEvict == later;
    assert Available(BucketOf(e, key, later), later) == burst * TOKEN;
    Drain(e, key, later, burst);
    NoEvictionDue(e, key, later, burst, []);
    assert second + [] == second && Evicting(e, second) == AllTrue(burst) + [];
    assert Evicted(e, later) == e && Evicting(t, second) == Evicting(e, second);
  }

  /** Seen a nanosecond later it is kept, and is not full. */
  lemma KeptBurst(t: Limiters, key: string, later: Time, burst: nat)
    requires t.burst == burst > 0 && key in t.buckets && TooLarge(t.rpm, burst, t.early)
    requires t.lastEvict == later - IDLE_TIMEOUT - 1
    requires t.buckets[key] == Bucket(0, t.lastEvict, t.rpm, burst, t.lastEvict + 1, t.early)
    ensures Evicting(t, Repeat(key, later, burst)) != AllTrue(burst)
  {
    var second, e := Repeat(key, later, burst), Evicted(t, later);
    assert key in e.buckets && e.buckets[key] == t.buckets[key] && e.lastEvict == later;
    NoEvictionDue(e, key, later, burst, []);
    assert second + [] == second && Evicting(e, second) == Plain(e, second) + [];
    assert Evicted(e, later) == e && Evicting(t, second) == Evicting(e, second);
    var waking := BucketOf(e, key, later);
    assert later - waking.last == IDLE_TIMEOUT + 1;
    assert Available(waking, later) + Grace(waking.rpm, waking.early) < burst * TOKEN;
    if Plain(e, second) == AllTrue(burst) { AllAdmittedTakesTokens(e, key, later, burst); }
  }

  /** The denied request, and the burst after it. */
  lemma RemindedBurst(t: Limiters, key: string, start: Time, burst: nat)
    requires t.burst == burst > 0 && key in t.buckets && TooLarge(t.rpm, burst, t.early) && 2 * t.rpm <= TOKEN
    requires t.lastEvict == start && t.buckets[key] == Bucket(0, start, t.rpm, burst, start, t.early)
    ensures var second := Repeat(key, start + IDLE_TIMEOUT + 1, burst);
      var answers := Evicting(t, [Request(key, start + 1)] + second);
      |answers| == burst + 1 && !answers[0] && answers[1..] != AllTrue(burst)
  {
    var r, second := Request(key, start + 1), Repeat(key, start + IDLE_TIMEOUT + 1, burst);
    assert Evicted(t, r.at) == t && ([r] + second)[1..] == second;
    var b := BucketOf(t, key, r.at);
    assert Max(b.rpm, 0) * Max(r.at - b.last, 0) == Max(b.rpm, 0);
    assert !Admits(b, r.at);
    var u := Served(t, key, r.at);
    assert u.buckets[key] == Bucket(0, start, t.rpm, burst, start + 1, t.early);
    KeptBurst(u, key, start + IDLE_TIMEOUT + 1, burst);
    EvictingLength(t, [r] + second);
    RepeatLength(key, start + IDLE_TIMEOUT + 1, burst);
    assert Evicting(t, [r] + second) == [false] + Evicting(u, second);
  }

  lemma {:induction false} RepeatLength(key: string, at: Time, n: nat)
    ensures |Repeat(key, at, n)| == n
    decreases n
  {
    if n > 0 { RepeatLength(key, at, n - 1); }
  }

  /** A denied request can keep a drained bucket from being swept. */
  lemma DenialKeepsTheBucket(rpm: int, burst: nat, start: Time, early: bool, key: string)
    requires TooLarge(rpm, burst, early) && 0 < burst && 2 * rpm <= TOKEN
    ensures InOrder(start, Reminded(key, start, burst)) && burst < |Reminded(key, start, burst)|
    ensures !DenialDoesNotMatter(rpm, burst, start, early, Reminded(key, start, burst), burst)
  {
    var s, r, later := New(rpm, burst, start, early), Request(key, start + 1), start + IDLE_TIMEOUT + 1;
    var first, second := Repeat(key, start, burst), Repeat(key, later, burst);
    RemindedInOrder(key, start, burst);
    RepeatLength(key, start, burst);
    RepeatLength(key, later, burst);
    FirstBurst(rpm, burst, start, early, key);
    var t := PlainState(s, first);
    PlainLength(s, first);
    NoEvictionDue(s, key, start, burst, [r] + second);
    NoEvictionDue(s, key, start, burst, second);
    RemindedBurst(t, key, start, burst);
    SweptBurst(t, key, later, burst);
    SplicesDiffer(Plain(s, first), Evicting(t, [r] + second), AllTrue(burst));
    assert Without(first + ([r] + second), burst) == first + second;
  }

  lemma SplicesDiffer(first: seq<bool>, with: seq<bool>, without: seq<bool>)
    requires with != [] && !with[0] && with[1..] != without
    ensures !(first + with)[|first|] && Without(first + with, |first|) != first + without
  {
    assert Without(first + with, |first|)[|first|..] == with[1..];
    assert (first + without)[|first|..] == without;
  }

  lemma RemindedInOrder(key: string, start: Time, burst: nat)
    ensures InOrder(start, Reminded(key, start, burst))
  {
    var later := start + IDLE_TIMEOUT + 1;
    var second := Repeat(key, later, burst);
    RepeatInOrder(key, later, burst, []);
    assert second + [] == second;
    LaterInOrder(start + 1, later, second);
    assert ([Request(key, start + 1)] + second)[1..] == second;
    LaterInOrder(start, start + 1, [Request(key, start + 1)] + second);
    RepeatInOrder(key, start, burst, [Request(key, start + 1)] + second);
  }

  /** At rates of at most half a token a nanosecond, denied requests never matter under exactly
      the policies whose burst refills in the idle time. */
  lemma DenialsNeverMatterIff(rpm: int, burst: int, start: Time, early: bool)
    requires 2 * rpm <= TOKEN
    ensures DenialsNeverMatter(rpm, burst, start, early) <==> RefillsWhileIdle(rpm, burst, early)
  {
    if RefillsWhileIdle(rpm, burst, early) {
      forall requests, i: nat | InOrder(start, requests) && i < |requests|
        ensures DenialDoesNotMatter(rpm, burst, start, early, requests, i)
      {
        EvictingLength(New(rpm, burst, start, early), requests);
        if !Evicting(New(rpm, burst, start, early), requests)[i] {
          DeniedRequestsDoNotMatter(rpm, burst, start, early, requests, i);
        }
      }
    } else {
      NoMiddleGround(rpm, burst, early);
      DenialKeepsTheBucket(rpm, burst, start, early, "k");
    }
  }
}
