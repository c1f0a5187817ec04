/** Retries: retry/retry.go and the HTTP wrapper of httpclient/client.go. */
module Retry {
  import opened Prelude

  // ----- backoff ----------------------------------------------------------

  const TWO_63 := 0x8000_0000_0000_0000

  /** `time.Duration` is an int64 and wraps around. */
  predicate Int64(x: int) { -TWO_63 <= x < TWO_63 }

  function Wrap(x: int): (w: int)
    ensures Int64(w) && (Int64(x) ==> w == x) && (x - w) % 0x1_0000_0000_0000_0000 == 0
  {
    (x + TWO_63) % (2 * TWO_63) - TWO_63
  }

  function Pow2(n: nat): nat { if n == 0 then 1 else 2 * Pow2(n - 1) }

  /** x * 2^n. */
  function Shift(x: int, n: nat): int { if n == 0 then x else 2 * Shift(x, n - 1) }

  lemma {:induction false} ShiftIsTimesPow2(x: int, n: nat)
    ensures Shift(x, n) == x * Pow2(n)
    decreases n
  {
    if n > 0 { ShiftIsTimesPow2(x, n - 1); }
  }

  function Doublings(attempt: int): nat { if attempt <= 1 then 0 else attempt - 1 }

  /** The ideal delay: doubling every attempt up to a cap. */
  function Delay(attempt: int, waitMin: int, waitMax: int): int { Min(Shift(waitMin, Doublings(attempt)), waitMax) }

  /** The formula as documented: the first delay, twice the one before at every further attempt,
      and never more than the cap. */
  lemma DelayDoublesUpToTheCap(attempt: int, waitMin: int, waitMax: int)
    requires 0 <= waitMin
    ensures Delay(1, waitMin, waitMax) == if waitMin < waitMax then waitMin else waitMax
    ensures 1 <= attempt ==>
      var twice := 2 * Delay(attempt, waitMin, waitMax);
      Delay(attempt + 1, waitMin, waitMax) == if waitMax < 0 || waitMax <= twice then waitMax else twice
  {
    if 1 <= attempt { ShiftGrows(waitMin, 0, Doublings(attempt)); }
  }

  lemma {:induction false} ShiftGrows(x: int, n: nat, m: nat)
    requires n <= m && 0 <= x
    ensures 0 <= Shift(x, n) <= Shift(x, m)
    decreases m
  {
    if n < m { ShiftGrows(x, n, m - 1); } else if n > 0 { ShiftGrows(x, n - 1, n - 1); }
  }

  /** Sixty-three doublings leave the int64 range, whatever is doubled. */
  lemma ShiftBy63(x: int)
    ensures Shift(x, 63) == x * TWO_63 && Shift(x, 64) == 2 * x * TWO_63
  {
    Pow2At64();
    ShiftIsTimesPow2(x, 63);
    ShiftIsTimesPow2(x, 64);
  }

  lemma Pow2At64()
    ensures Pow2(63) == TWO_63 && Pow2(64) == 2 * TWO_63
  {
    assert Pow2(4) == 16;
    Pow2Sum(4, 4);
    Pow2Sum(8, 8);
    Pow2Sum(16, 16);
    Pow2Sum(32, 32);
  }

  lemma {:induction false} Pow2Sum(n: nat, m: nat)
    ensures Pow2(n + m) == Pow2(n) * Pow2(m)
    decreases n
  {
    if n > 0 {
      Pow2Sum(n - 1, m);
      assert 2 * (Pow2(n - 1) * Pow2(m)) == Pow2(n) * Pow2(m);
    }
  }

  /** The state of the backoff loop after n doublings: it has returned, or goes on. */
  datatype Loop = Returned(d: int) | Running(d: int)

  function Doubled(n: nat, waitMin: int, waitMax: int): Loop {
    if n == 0 then Running(waitMin)
    else
      var before := Doubled(n - 1, waitMin, waitMax);
      if before.Returned? then before
      else if Wrap(before.d * 2) > waitMax then Returned(waitMax) else Running(Wrap(before.d * 2))
  }

  function BackoffOf(attempt: int, waitMin: int, waitMax: int): int { Doubled(Doublings(attempt), waitMin, waitMax).d }

  method Backoff(attempt: int, waitMin: int, waitMax: int) returns (d: int)
    ensures d == BackoffOf(attempt, waitMin, waitMax)
  {
    d := waitMin;
    var i := 1;
    while i < attempt
      invariant 1 <= i && (i <= attempt || i == 1)
      invariant Doubled(i - 1, waitMin, waitMax) == Running(d)
    {
      d := Wrap(d * 2);
      if d > waitMax {
        StaysReturned(i, attempt - 1, waitMin, waitMax);
        return waitMax;
      }
      i := i + 1;
    }
  }

  lemma {:induction false} StaysReturned(n: nat, m: nat, waitMin: int, waitMax: int)
    requires n <= m && Doubled(n, waitMin, waitMax).Returned?
    ensures Doubled(m, waitMin, waitMax) == Doubled(n, waitMin, waitMax)
    decreases m
  {
    if n < m { StaysReturned(n, m - 1, waitMin, waitMax); }
  }

  predicate InGap(n: nat, waitMin: int, waitMax: int) { TWO_63 / 2 <= Shift(waitMin, n) <= waitMax }

  /** The first delay is neither negative nor above the cap, and no doubling lies between
      2^62 and the cap. */
  ghost predicate Regular(waitMin: int, waitMax: int) {
    0 <= waitMin <= waitMax && forall n: nat :: !InGap(n, waitMin, waitMax)
  }

  lemma WrapTwice(x: int)
    requires 0 <= x < TWO_63
    ensures Wrap(x * 2) == if x < TWO_63 / 2 then x * 2 else x * 2 - 2 * TWO_63
  {
  }

  lemma {:induction false} RegularDoubling(n: nat, waitMin: int, waitMax: int)
    requires Int64(waitMax) && Regular(waitMin, waitMax)
    ensures Doubled(n, waitMin, waitMax) ==
              if Shift(waitMin, n) <= waitMax then Running(Shift(waitMin, n)) else Returned(waitMax)
    decreases n
  {
    if n > 0 {
      RegularDoubling(n - 1, waitMin, waitMax);
      assert !InGap(n - 1, waitMin, waitMax);
      ShiftGrows(waitMin, n - 1, n);
      if Shift(waitMin, n - 1) <= waitMax { WrapTwice(Shift(waitMin, n - 1)); }
    }
  }

  lemma {:induction false} BelowTheGap(n: nat, k: nat, waitMin: int, waitMax: int)
    requires 0 <= waitMin && Int64(waitMax) && k <= n && InGap(n, waitMin, waitMax)
    ensures Doubled(k, waitMin, waitMax) == Running(Shift(waitMin, k))
    decreases k
  {
    if k > 0 {
      ShiftGrows(waitMin, k, n);
      ShiftGrows(waitMin, k - 1, k);
      WrapTwice(Shift(waitMin, k - 1));
      BelowTheGap(n, k - 1, waitMin, waitMax);
    }
  }

  predicate IdealAt(attempt: int, waitMin: int, waitMax: int) {
    BackoffOf(attempt, waitMin, waitMax) == Delay(attempt, waitMin, waitMax)
  }

  ghost predicate IsIdeal(waitMin: int, waitMax: int) {
    forall attempt | Int64(attempt) :: IdealAt(attempt, waitMin, waitMax)
  }

  lemma {:induction false} StaysInt64(n: nat, waitMin: int, waitMax: int)
    requires Int64(waitMin) && Int64(waitMax)
    ensures Int64(Doubled(n, waitMin, waitMax).d)
    decreases n
  {
    if n > 0 { StaysInt64(n - 1, waitMin, waitMax); }
  }

  /** A negative delay doubles out of the int64 range. */
  lemma NegativeWaitsWrap(waitMin: int, waitMax: int)
    requires Int64(waitMin) && Int64(waitMax) && waitMin < 0
    ensures !IdealAt(65, waitMin, waitMax)
  {
    var n := Doublings(65);
    StaysInt64(n, waitMin, waitMax);
    ShiftBy63(waitMin);
    assert n == 64 && Shift(waitMin, n) <= -2 * TWO_63;
  }

  /** The documented formula, the first delay doubled every attempt and capped, holds at every
      attempt an int can count exactly when the bounds are regular; otherwise the first wait
      exceeds the cap or a doubling wraps around. */
  lemma IdealIffRegular(waitMin: int, waitMax: int)
    requires Int64(waitMin) && Int64(waitMax)
    ensures IsIdeal(waitMin, waitMax) <==> Regular(waitMin, waitMax)
  {
    if Regular(waitMin, waitMax) {
      forall attempt | Int64(attempt) ensures IdealAt(attempt, waitMin, waitMax) {
        RegularDoubling(Doublings(attempt), waitMin, waitMax);
      }
    } else if waitMin > waitMax {
      assert !IdealAt(1, waitMin, waitMax);
    } else if waitMin < 0 {
      NegativeWaitsWrap(waitMin, waitMax);
    } else {
      var n: nat :| InGap(n, waitMin, waitMax);
      WrapsInTheGap(n, waitMin, waitMax);
      assert !IdealAt(n + 2, waitMin, waitMax);
    }
  }

  lemma WrapsInTheGap(n: nat, waitMin: int, waitMax: int)
    requires 0 <= waitMin && Int64(waitMax) && InGap(n, waitMin, waitMax)
    ensures n < 63 && BackoffOf(n + 2, waitMin, waitMax) < 0 && Delay(n + 2, waitMin, waitMax) == waitMax
  {
    ShiftIsTimesPow2(waitMin, n);
    ShiftBy63(waitMin);
    if 63 <= n { ShiftGrows(waitMin, 63, n); }
    BelowTheGap(n, n, waitMin, waitMax);
    WrapTwice(Shift(waitMin, n));
  }

  /** Bounds below 2^62, about 146 years, are regular. */
  lemma SmallCapsAreRegular(waitMin: int, waitMax: int)
    requires Sane(waitMin, waitMax)
    ensures Regular(waitMin, waitMax) && IsIdeal(waitMin, waitMax)
  {
    IdealIffRegular(waitMin, waitMax);
  }

  predicate Sane(waitMin: int, waitMax: int) { 0 <= waitMin <= waitMax < TWO_63 / 2 }

  // ----- Do ---------------------------------------------------------------

  datatype Error = Canceled | DeadlineExceeded | Transient(status: int) | Other(id: int)

  /** What each attempt returns, whether its error is worth retrying, and which waits
      the context cuts short, with the error it then reports. */
  datatype Script = Script(result: nat -> Option<Error>, retryable: (nat, Error) -> bool, cut: nat -> Option<Error>)

  /** The attempts are exactly those up to the first that stops, the waits those between
      them, the last possibly cut short. */
  method Do(s: Script, maxAttempts: int, waitMin: int, waitMax: int)
    returns (err: Option<Error>, calls: nat, waits: seq<int>)
    ensures maxAttempts <= 0 ==> calls == 0 && err == None && waits == []
    ensures maxAttempts >= 1 ==> 1 <= calls <= maxAttempts
    ensures forall i | 1 <= i < calls ::
              s.result(i).Some? && s.retryable(i, s.result(i).value) && s.cut(i).None?
    ensures maxAttempts >= 1 ==>
      var result := s.result(calls);
      var last := calls == maxAttempts || (result.Some? && !s.retryable(calls, result.value));
      if result.None? || last then err == result && |waits| == calls - 1
      else s.cut(calls).Some? && err == s.cut(calls) && |waits| == calls
    ensures forall i | 0 <= i < |waits| :: waits[i] == BackoffOf(i + 1, waitMin, waitMax)
  {
    err, calls, waits := None, 0, [];
    var attempt := 1;
    while attempt <= maxAttempts
      invariant 1 <= attempt && calls == attempt - 1 && |waits| == calls
      invariant maxAttempts >= 1 ==> attempt <= maxAttempts
      invariant maxAttempts <= 0 ==> attempt == 1 && err == None
      invariant forall i | 1 <= i < attempt ::
                  s.result(i).Some? && s.retryable(i, s.result(i).value) && s.cut(i).None?
      invariant forall i | 0 <= i < |waits| :: waits[i] == BackoffOf(i + 1, waitMin, waitMax)
      decreases maxAttempts - attempt
    {
      err, calls := s.result(attempt), attempt;
      if err == None { return; }
      if attempt == maxAttempts { break; }
      if !s.retryable(attempt, err.value) { break; }
      var wait := Backoff(attempt, waitMin, waitMax);
      waits := waits + [wait];
      if s.cut(attempt).Some? {
        err := s.cut(attempt);
        return;
      }
      attempt := attempt + 1;
    }
  }

  // ----- WithRetry --------------------------------------------------------

  const RETRY_MAX_ATTEMPTS := 4
  const RETRY_WAIT_MIN := SECOND / 5
  const RETRY_WAIT_MAX := 5 * SECOND
  const RETRY_AFTER_CAP := 30 * SECOND

  predicate IsTransientStatus(status: int) { status == 429 || 500 <= status < 600 }

  /** What one call of `do` returns. */
  datatype Attempt = Attempt(body: int, status: int, retryAfter: Time, error: Option<Error>)

  /** How long the attempt itself sleeps when nothing cancels it. */
  function Asked(a: Attempt): (asked: Time)
    ensures a.error.Some? || (a.status != 429 && !(500 <= a.status < 600)) ==> asked == 0
    ensures a.error.None? && (a.status == 429 || 500 <= a.status < 600) ==>
      asked == if a.retryAfter <= 0 then 0 else if 30_000_000_000 < a.retryAfter then 30_000_000_000 else a.retryAfter
  {
    if a.error.None? && IsTransientStatus(a.status) && a.retryAfter > 0 then Min(a.retryAfter, RETRY_AFTER_CAP) else 0
  }

  function Outcome(a: Attempt): Option<Error> {
    if a.error.Some? then a.error else if IsTransientStatus(a.status) then Some(Transient(a.status)) else None
  }

  predicate Retryable(e: Error) { !e.Canceled? && !e.DeadlineExceeded? }

  function ScriptOf(attempts: nat -> Attempt, cut: nat -> Option<Error>): Script {
    Script((n: nat) => Outcome(attempts(n)), (n: nat, e: Error) => Retryable(e), cut)
  }

  function Sum(waits: seq<int>): int { if waits == [] then 0 else waits[0] + Sum(waits[1..]) }

  /** The first so many attempts' sleeps together. */
  function AskedBy(attempts: nat -> Attempt, calls: nat): Time {
    if calls == 0 then 0 else AskedBy(attempts, calls - 1) + Asked(attempts(calls))
  }

  lemma {:induction false} AskedIsCapped(attempts: nat -> Attempt, calls: nat)
    ensures 0 <= AskedBy(attempts, calls) <= calls * 30_000_000_000
    decreases calls
  {
    if calls > 0 { AskedIsCapped(attempts, calls - 1); }
  }

  lemma AskedInFull(attempts: nat -> Attempt)
    ensures AskedBy(attempts, 1) == Asked(attempts(1))
    ensures AskedBy(attempts, 2) == Asked(attempts(1)) + Asked(attempts(2))
    ensures AskedBy(attempts, 3) == Asked(attempts(1)) + Asked(attempts(2)) + Asked(attempts(3))
    ensures AskedBy(attempts, 4) == Asked(attempts(1)) + Asked(attempts(2)) + Asked(attempts(3)) + Asked(attempts(4))
  {
    assert AskedBy(attempts, 1) == AskedBy(attempts, 0) + Asked(attempts(1));
    assert AskedBy(attempts, 2) == AskedBy(attempts, 1) + Asked(attempts(2));
    assert AskedBy(attempts, 3) == AskedBy(attempts, 2) + Asked(attempts(3));
  }

  lemma FirstDelays()
    ensures Delay(1, RETRY_WAIT_MIN, RETRY_WAIT_MAX) == RETRY_WAIT_MIN
    ensures Delay(2, RETRY_WAIT_MIN, RETRY_WAIT_MAX) == 2 * RETRY_WAIT_MIN
    ensures Delay(3, RETRY_WAIT_MIN, RETRY_WAIT_MAX) == 4 * RETRY_WAIT_MIN
  {
    assert Shift(RETRY_WAIT_MIN, 2) == 2 * Shift(RETRY_WAIT_MIN, 1) == 4 * RETRY_WAIT_MIN;
  }

  lemma BackoffsAddUp(waits: seq<int>)
    requires |waits| < RETRY_MAX_ATTEMPTS
    requires forall i | 0 <= i < |waits| :: waits[i] == Delay(i + 1, RETRY_WAIT_MIN, RETRY_WAIT_MAX)
    ensures Sum(waits) == match |waits| case 0 => 0 case 1 => 200_000_000 case 2 => 600_000_000 case _ => 1_400_000_000
  {
    FirstDelays();
    if |waits| > 0 { assert Sum(waits) == waits[0] + Sum(waits[1..]); }
    if |waits| > 1 { assert Sum(waits[1..]) == waits[1] + Sum(waits[2..]) && waits[1..][1..] == waits[2..]; }
    if |waits| > 2 { assert Sum(waits[2..]) == waits[2] + Sum(waits[3..]) && waits[2..][1..] == waits[3..]; }
    assert waits[|waits|..] == [];
  }

  datatype Reply = Reply(body: Option<int>, status: int, error: Option<Error>)

  /** Attempts go on over statuses 429 and 500 to 599 and over errors that are not the context's,
      four at most. The answer is the last attempt's, unless an error other than a transient
      status ended the run. The sleep an attempt asks for, thirty seconds at most, happens even
      after the last one, and 200, 400 and 800 ms pass between them. */
  method WithRetry(attempts: nat -> Attempt, cut: nat -> Option<Error>)
    returns (reply: Reply, calls: nat, waited: Time)
    ensures 1 <= calls <= 4
    ensures forall i | 1 <= i < calls ::
      && cut(i).None?
      && if attempts(i).error.Some?
         then attempts(i).error.value != Canceled && attempts(i).error.value != DeadlineExceeded
         else attempts(i).status == 429 || 500 <= attempts(i).status < 600
    ensures var last := attempts(calls);
      var done := if last.error.Some? then last.error.value == Canceled || last.error.value == DeadlineExceeded
                  else last.status != 429 && !(500 <= last.status < 600);
      && (done || calls == 4 || cut(calls).Some?)
      && var error := if done || calls == 4 then last.error else cut(calls);
         reply == if error.Some? && !error.value.Transient? then Reply(None, 0, error)
                  else Reply(Some(last.body), last.status, None)
    ensures calls == 1 && cut(1).None? ==> waited == Asked(attempts(1))
    ensures calls == 2 && cut(2).None? ==> waited == Asked(attempts(1)) + Asked(attempts(2)) + 200_000_000
    ensures calls == 3 && cut(3).None? ==>
      waited == Asked(attempts(1)) + Asked(attempts(2)) + Asked(attempts(3)) + 600_000_000
    ensures calls == 4 ==>
      waited == Asked(attempts(1)) + Asked(attempts(2)) + Asked(attempts(3)) + Asked(attempts(4)) + 1_400_000_000
    ensures 0 <= waited <= 121_400_000_000
  {
    var s := ScriptOf(attempts, cut);
    var err, n, waits := Do(s, RETRY_MAX_ATTEMPTS, RETRY_WAIT_MIN, RETRY_WAIT_MAX);
    SmallCapsAreRegular(RETRY_WAIT_MIN, RETRY_WAIT_MAX);
    calls, waited := n, Sum(waits) + AskedBy(attempts, n);
    forall i | 0 <= i < |waits| ensures waits[i] == Delay(i + 1, RETRY_WAIT_MIN, RETRY_WAIT_MAX) {
      assert IdealAt(i + 1, RETRY_WAIT_MIN, RETRY_WAIT_MAX);
    }
    BackoffsAddUp(waits);
    AskedIsCapped(attempts, n);
    AskedInFull(attempts);
    forall i | 1 <= i < n ensures cut(i).None? && Outcome(attempts(i)).Some? && Retryable(Outcome(attempts(i)).value) {
      assert s.result(i).Some? && s.retryable(i, s.result(i).value) && s.cut(i).None?;
    }
    if err.Some? && !err.value.Transient? {
      reply := Reply(None, 0, err);
    } else {
      reply := Reply(Some(attempts(n).body), attempts(n).status, None);
    }
  }
}
