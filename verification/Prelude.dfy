/** Shared vocabulary: optional values, instants and durations. */
module Prelude {
  datatype Option<+T> = None | Some(value: T)

  /** Instants and durations are nanoseconds on an unbounded integer line. */
  type Time = int

  const SECOND: int := 1_000_000_000
  const MINUTE: int := 60 * SECOND

  /** The claims the caches and sessions read; `exp` is zero when absent. */
  datatype Claims = Claims(subject: string, exp: real, roles: set<string>)

  /** `time.Unix(int64(exp), 0)`, for a claim that is present: the last whole second that is
      not after it. */
  function Unix(exp: real): (t: Time)
    requires exp > 0.0
    ensures t % 1_000_000_000 == 0
    ensures t as real <= exp * 1000000000.0 < (t + 1_000_000_000) as real
  {
    exp.Floor * SECOND
  }

  function Min(a: int, b: int): int { if a < b then a else b }

  function Max(a: int, b: int): int { if a < b then b else a }

  lemma Scale(a: int, b: int, factor: int)
    requires a <= b && factor >= 0
    ensures a * factor <= b * factor
  {
  }
}
