/**
 * The pagination figures of `GET /api/lugares`: the row offset of a page and the number of
 * pages, for integer `page` and `limit`.
 */
module ApiPaging {
  import opened Wrappers

  /** `(page - 1) * limit`: the rows before the requested page. */
  function Offset(page: int, limit: int): int {
    (page - 1) * limit
  }

  /** `Math.ceil(total / limit)`. A zero limit divides to `Infinity` or `NaN`, which the JSON
      response writes as `null`: `None` here. */
  function Pages(total: nat, limit: int): (r: Option<int>)
    ensures r.None? <==> limit == 0
    ensures limit > 0 ==> r.Some? && r.value >= 0 && r.value * limit >= total && (r.value - 1) * limit < total
  {
    if limit == 0 then None
    else if limit > 0 then
      var pages := (total + limit - 1) / limit;
      CeilingDivision(total, limit, pages);
      Some(pages)
    else Some(-(total / -limit))
  }

  /** `(total + limit - 1) / limit` is the least multiple count covering `total`. */
  lemma CeilingDivision(total: nat, limit: int, pages: int)
    requires limit > 0 && pages == (total + limit - 1) / limit
    ensures pages >= 0 && pages * limit >= total && (pages - 1) * limit < total
  {
    var m := total + limit - 1;
    assert m == pages * limit + m % limit;
    assert 0 <= m % limit < limit;
  }

  /** With a positive limit, the pages numbered `1..pages` are exactly those that start before
      the last row: each of them shows at least one row and any later page shows none. */
  lemma PagesCoverRows(total: nat, limit: int, page: int)
    requires limit > 0 && page >= 1
    ensures Offset(page, limit) < total <==> page <= Pages(total, limit).value
  {
    var pages := Pages(total, limit).value;
    if page <= pages {
      assert (page - 1) * limit <= (pages - 1) * limit by {
        MultiplyMonotone(page - 1, pages - 1, limit);
      }
    } else {
      assert pages * limit <= (page - 1) * limit by {
        MultiplyMonotone(pages, page - 1, limit);
      }
    }
  }

  lemma MultiplyMonotone(a: int, b: int, c: int)
    requires a <= b && c >= 0
    ensures a * c <= b * c
  {
    assert b * c - a * c == (b - a) * c;
  }
}
