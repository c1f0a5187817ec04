/** The page count as `NewResult` computes it, by a division in float64:
    pagination/paginator.go. */
module PaginatorRounding {
  import opened Prelude
  import opened Paginator

  const TWO_53 := 0x20_0000_0000_0000

  predicate OrderKept(x: real, rounded: real, n: int) {
    (x <= n as real ==> rounded <= n as real) && (n as real <= x ==> n as real <= rounded)
  }

  /** What rounding a quotient to the nearest float64 keeps: a relative error of at most half a
      unit in the last place, and the order to every integer up to 2^53, which is a float64. */
  ghost predicate RoundsTo(x: real, rounded: real) {
    && x - x / TWO_53 as real <= rounded <= x + x / TWO_53 as real
    && (forall n | 0 <= n <= TWO_53 :: OrderKept(x, rounded, n))
  }

  /** For every total below 2^53 the float64 division gives the exact page count. */
  lemma FloatPageCountIsExact(total: nat, perPage: int, rounded: real)
    requires perPage >= 1 && total < TWO_53 && RoundsTo(total as real / perPage as real, rounded)
    ensures Ceil(rounded) == Ceil(total as real / perPage as real)
  {
    var x := total as real / perPage as real;
    var n := Ceil(x);
    TotalPagesIsLeast(total, perPage);
    Divided(total as real, perPage as real);
    PageCountIsSmall(total, perPage, n);
    assert OrderKept(x, rounded, n);
    if n >= 1 {
      ErrorBelowGap(total, perPage, n, x);
    } else {
      assert OrderKept(x, rounded, 0);
    }
    SameCeiling(x, rounded, n, x / TWO_53 as real);
  }

  lemma SameCeiling(x: real, rounded: real, n: int, error: real)
    requires n == Ceil(x) && rounded <= n as real
    requires (n as real <= rounded) || (x - error <= rounded && error < x - (n - 1) as real)
    ensures Ceil(rounded) == n
  {
  }

  /** Rounding cannot reach the integer below. */
  lemma ErrorBelowGap(total: nat, perPage: int, n: int, x: real)
    requires perPage >= 1 && x * perPage as real == total as real
    requires total < TWO_53 && (n - 1) * perPage < total
    ensures x / TWO_53 as real < x - (n - 1) as real
  {
    GapIsWide(total, perPage, n, x);
    ErrorIsNarrow(total, perPage, x);
    var error, gap := x / TWO_53 as real, x - (n - 1) as real;
    if gap <= error { Monotone(gap, error, perPage as real); }
  }

  lemma Monotone(x: real, y: real, factor: real)
    requires x <= y && factor > 0.0
    ensures x * factor <= y * factor
  {
  }

  lemma PageCountIsSmall(total: nat, perPage: int, n: int)
    requires perPage >= 1 && total < TWO_53 && n >= 0 && (n - 1) * perPage < total
    ensures n <= TWO_53
  {
    if n >= 1 { Scale(1, perPage, n - 1); }
  }

  /** A quotient that is not an integer is at least 1 / perPage above the one below. */
  lemma GapIsWide(total: nat, perPage: int, n: int, x: real)
    requires perPage >= 1 && x * perPage as real == total as real && (n - 1) * perPage < total
    ensures (x - (n - 1) as real) * perPage as real >= 1.0
  {
    var below := (n - 1) * perPage;
    assert (n - 1) as real * perPage as real == below as real;
    assert (x - (n - 1) as real) * perPage as real == total as real - below as real;
    assert total as real - below as real == (total - below) as real;
  }

  lemma ErrorIsNarrow(total: nat, perPage: int, x: real)
    requires perPage >= 1 && x * perPage as real == total as real && total < TWO_53
    ensures x / TWO_53 as real * perPage as real < 1.0
  {
    assert x / TWO_53 as real * perPage as real == x * perPage as real / TWO_53 as real;
  }
}
