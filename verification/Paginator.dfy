/** Page arithmetic: pagination/paginator.go. */
module Paginator {
  import opened Prelude

  const DEF_PAGE := 1
  const DEF_PER_PAGE := 20
  const MAX_PER_PAGE := 100

  function NormalNumber(number: int): int { if number <= 0 then DEF_PAGE else number }

  function NormalPerPage(perPage: int): int {
    if perPage <= 0 then DEF_PER_PAGE else if perPage > MAX_PER_PAGE then MAX_PER_PAGE else perPage
  }

  predicate Normalized(number: int, perPage: int) { 1 <= number && 1 <= perPage <= 100 }

  /** A normal page is left alone and every page becomes normal, so normalizing twice is normalizing once. */
  lemma NormalizeIsIdempotent(number: int, perPage: int)
    ensures Normalized(NormalNumber(number), NormalPerPage(perPage))
    ensures Normalized(number, perPage) <==> NormalNumber(number) == number && NormalPerPage(perPage) == perPage
  {
  }

  class Page {
    var number: int
    var perPage: int

    constructor (number: int, perPage: int)
      ensures this.number == number && this.perPage == perPage
    {
      this.number, this.perPage := number, perPage;
    }

    method Normalize()
      modifies this
      ensures Normalized(number, perPage)
      ensures number == NormalNumber(old(number)) && perPage == NormalPerPage(old(perPage))
      ensures number == if old(number) <= 0 then 1 else old(number)
      ensures perPage == if old(perPage) <= 0 then 20 else if 100 < old(perPage) then 100 else old(perPage)
    {
      if number <= 0 { number := DEF_PAGE; }
      if perPage <= 0 { perPage := DEF_PER_PAGE; }
      if perPage > MAX_PER_PAGE { perPage := MAX_PER_PAGE; }
    }

    function Offset(): int
      reads this
    {
      OffsetOf(number, perPage)
    }
  }

  function OffsetOf(number: int, perPage: int): int { (number - 1) * perPage }

  // ----- results ----------------------------------------------------------

  datatype Result<T> =
    Result(data: seq<T>, total: int, page: int, perPage: int, totalPages: int, hasNext: bool, hasPrev: bool)

  function Ceil(x: real): int { -((-x).Floor) }

  function NewResult<T>(data: seq<T>, total: int, number: int, perPage: int): Result<T>
    requires perPage != 0
  {
    var totalPages := Ceil(total as real / perPage as real);
    Result(data, total, number, perPage, totalPages, number < totalPages, number > 1)
  }

  /** The rows a LIMIT and OFFSET select. */
  function Select<T>(rows: seq<T>, offset: int, limit: int): seq<T>
    requires offset >= 0 && limit >= 0
  {
    if offset >= |rows| then [] else if offset + limit >= |rows| then rows[offset..] else rows[offset..offset + limit]
  }

  function Window<T>(rows: seq<T>, number: int, perPage: int): seq<T>
    requires number >= 1 && perPage >= 1
  {
    Select(rows, (number - 1) * perPage, perPage)
  }

  /** Pages 1 to n, one after the other. */
  function Pages<T>(rows: seq<T>, n: nat, perPage: int): seq<T>
    requires perPage >= 1
  {
    if n == 0 then [] else Pages(rows, n - 1, perPage) + Window(rows, n, perPage)
  }

  /** The page count is the least number of pages that hold the total. */
  lemma TotalPagesIsLeast(total: nat, perPage: int)
    requires perPage >= 1
    ensures var n := Ceil(total as real / perPage as real); n >= 0 && (n - 1) * perPage < total <= n * perPage
  {
    var x := total as real / perPage as real;
    Divided(total as real, perPage as real);
    Bounds(x, Ceil(x), total, perPage);
  }

  lemma Divided(total: real, perPage: real)
    requires total >= 0.0 && perPage > 0.0
    ensures total / perPage * perPage == total && total / perPage >= 0.0
  {
  }

  lemma Bounds(x: real, n: int, total: nat, perPage: int)
    requires perPage >= 1 && x >= 0.0 && (n - 1) as real < x <= n as real
    requires x * perPage as real == total as real
    ensures n >= 0 && (n - 1) * perPage < total <= n * perPage
  {
    AtMost(x, n, perPage);
    MoreThan(x, n - 1, perPage);
    var most, least := n * perPage, (n - 1) * perPage;
    assert total as real <= most as real && least as real < total as real;
  }

  lemma AtMost(x: real, n: int, perPage: int)
    requires x <= n as real && perPage >= 1
    ensures x * perPage as real <= (n * perPage) as real
  {
    var factor := perPage as real;
    assert x * factor <= n as real * factor;
    assert (n * perPage) as real == n as real * factor;
  }

  lemma MoreThan(x: real, n: int, perPage: int)
    requires n as real < x && perPage >= 1
    ensures (n * perPage) as real < x * perPage as real
  {
    var factor := perPage as real;
    assert n as real * factor < x * factor;
    assert (n * perPage) as real == n as real * factor;
  }

  lemma {:induction false} PagesArePrefixes<T>(rows: seq<T>, n: nat, perPage: int)
    requires perPage >= 1
    ensures Pages(rows, n, perPage) == if n * perPage >= |rows| then rows else rows[..n * perPage]
    decreases n
  {
    if n > 0 {
      PagesArePrefixes(rows, n - 1, perPage);
      assert n * perPage == (n - 1) * perPage + perPage;
    }
  }

  /** Turning pages 1 to the last shows every row exactly once and in order. */
  lemma PagesCoverTheRows<T>(rows: seq<T>, perPage: int)
    requires perPage >= 1
    ensures var n := Ceil(|rows| as real / perPage as real); n >= 0 && Pages(rows, n, perPage) == rows
  {
    TotalPagesIsLeast(|rows|, perPage);
    PagesArePrefixes(rows, Ceil(|rows| as real / perPage as real), perPage);
  }

  /** HasNext says whether rows remain after the page, HasPrev whether rows come before it in the
      numbering. */
  lemma FlagsAreRight<T>(rows: seq<T>, number: int, perPage: int)
    requires Normalized(number, perPage)
    ensures var r := NewResult(Window(rows, number, perPage), |rows|, number, perPage);
            && (r.hasNext <==> OffsetOf(number, perPage) + perPage < |rows|)
            && (r.hasPrev <==> OffsetOf(number, perPage) > 0)
            && r.data == Window(rows, number, perPage)
            && r.total == |rows| && r.page == number && r.perPage == perPage
  {
    TotalPagesIsLeast(|rows|, perPage);
    var n := Ceil(|rows| as real / perPage as real);
    assert OffsetOf(number, perPage) + perPage == number * perPage;
    if number < n {
      assert number * perPage <= (n - 1) * perPage by { Scale(number, n - 1, perPage); }
    } else {
      assert n * perPage <= number * perPage by { Scale(n, number, perPage); }
    }
    if number > 1 { Scale(1, number - 1, perPage); }
  }

  /** A page with a next one is full, and the next one is not empty. */
  lemma PagesWithANextAreFull<T>(rows: seq<T>, number: int, perPage: int)
    requires Normalized(number, perPage)
    ensures var r := NewResult(Window(rows, number, perPage), |rows|, number, perPage);
            r.hasNext ==> |r.data| == perPage && Window(rows, number + 1, perPage) != []
  {
    FlagsAreRight(rows, number, perPage);
    assert OffsetOf(number, perPage) + perPage == number * perPage;
  }

  /** Only the counted pages have rows. */
  lemma OnlyCountedPagesHaveRows<T>(rows: seq<T>, number: int, perPage: int)
    requires Normalized(number, perPage)
    ensures var r := NewResult(Window(rows, number, perPage), |rows|, number, perPage);
            r.data != [] <==> number <= r.totalPages
  {
    TotalPagesIsLeast(|rows|, perPage);
    var n := Ceil(|rows| as real / perPage as real);
    if number <= n { Scale(number - 1, n - 1, perPage); } else { Scale(n, number - 1, perPage); }
  }
}
