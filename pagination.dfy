/** `getPagination` from the shared helper: page arithmetic for offset/limit listings. */
module Pagination {
  import opened Common

  datatype PaginationResult = PaginationResult(
    current_page: int,
    next_page: Option<int>,
    prev_page: Option<int>,
    total_pages: int,
    total_count: int,
    limit: int,
    offset: int)

  /** `Math.ceil(total / limit)` for a positive limit. Dafny's `/` with a positive divisor rounds
      down, so the ceiling is the negated floor of the negated quotient. */
  function CeilDiv(total: int, limit: int): (n: int)
    requires limit >= 1
    ensures n * limit >= total
    ensures (n - 1) * limit < total
  {
    var q := (-total) / limit;
    var r := (-total) % limit;
    assert -total == q * limit + r && 0 <= r < limit;
    assert (-q) * limit == total + r;
    -q
  }

  /** The ceiling is the only integer with those two properties. */
  lemma CeilDivIsLeast(total: int, limit: int, n: int)
    requires limit >= 1
    requires n * limit >= total && (n - 1) * limit < total
    ensures n == CeilDiv(total, limit)
  {
    var c := CeilDiv(total, limit);
    MulMonotone(n, c - 1, limit);
    MulMonotone(c, n - 1, limit);
  }

  lemma MulMonotone(a: int, b: int, k: int)
    requires k >= 0
    ensures a <= b ==> a * k <= b * k
  {
  }

  /** `getPagination(page, limit, total)`. The DTOs of every caller force `limit >= 1`. */
  function GetPagination(page: int, limit: int, total: int): (p: PaginationResult)
    requires limit >= 1
    ensures p.current_page >= 1 && p.current_page >= page
    ensures p.current_page == page || p.current_page == 1
    ensures p.total_pages * limit >= total && (p.total_pages - 1) * limit < total
    ensures p.offset >= 0 && p.offset == (p.current_page - 1) * limit
    ensures p.next_page.Some? <==> p.current_page < p.total_pages
    ensures p.next_page.Some? ==> p.next_page.value == p.current_page + 1
    ensures p.prev_page.Some? <==> p.current_page > 1
    ensures p.prev_page.Some? ==> p.prev_page.value == p.current_page - 1
    ensures p.total_count == total && p.limit == limit
  {
    var current := if page > 1 then page else 1;
    var pages := CeilDiv(total, limit);
    PaginationResult(
      current,
      if current < pages then Some(current + 1) else None,
      if current > 1 then Some(current - 1) else None,
      pages, total, limit, (current - 1) * limit)
  }

  /** `getPagination` with some arguments left `undefined`: the page defaults to 1, the limit to
      10 and the total to 0. */
  function GetPaginationOrDefaults(page: Option<int>, limit: Option<int>, total: Option<int>): (p: PaginationResult)
    requires limit.Some? ==> limit.value >= 1
    ensures p.limit == (if limit.Some? then limit.value else 10)
    ensures p.total_count == (if total.Some? then total.value else 0)
    ensures page.None? ==> p.current_page == 1 && p.offset == 0 && p.prev_page.None?
  {
    GetPagination(OrElse(page, 1), OrElse(limit, 10), OrElse(total, 0))
  }

  /** Called with no arguments, `getPagination` describes an empty listing: page 1 of none,
      ten rows per page, no next or previous page. */
  lemma NoArguments()
    ensures GetPaginationOrDefaults(None, None, None) ==
      PaginationResult(1, None, None, 0, 0, 10, 0)
  {
    CeilDivIsLeast(0, 10, 0);
  }

  /** A page inside the range starts before the last item, and a page without a next page
      reaches past the last item: the offset window `[offset, offset + limit)` meets the rows
      exactly when the page is one of the `total_pages`. */
  lemma PageWindow(page: int, limit: int, total: int)
    requires limit >= 1
    ensures var p := GetPagination(page, limit, total);
      && (p.current_page <= p.total_pages ==> p.offset < total)
      && (p.next_page.None? ==> p.offset + limit >= total)
  {
    var p := GetPagination(page, limit, total);
    if p.current_page <= p.total_pages {
      assert (p.current_page - 1) * limit <= (p.total_pages - 1) * limit;
    }
    if p.next_page.None? {
      assert p.current_page * limit >= p.total_pages * limit;
      assert p.offset + limit == p.current_page * limit;
    }
  }

  /** Page 2 of 15 rows at 10 per page is the last of two pages and starts at row 10. */
  lemma SecondOfTwoPages()
    ensures GetPagination(2, 10, 15) ==
      PaginationResult(2, None, Some(1), 2, 15, 10, 10)
  {
    CeilDivIsLeast(15, 10, 2);
  }
}
