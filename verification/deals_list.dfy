/**
 * The list view's arithmetic (client/src/components/DealsList/DealsList.jsx):
 * the page count it displays and passes on, whether the pagination control
 * is rendered.
 */
module DealsList {

  /** `Math.ceil(a / b)` for a positive divisor, on integers. */
  function CeilDiv(a: int, b: int): (r: int)
    requires b > 0
    ensures (r - 1) * b < a <= r * b
  {
    var q := (-a) / b;
    assert -a == q * b + (-a) % b;
    -q
  }

  /** The page count: `Math.ceil(pagination.total / pagination.limit)`. */
  function TotalPages(total: int, limit: int): (r: int)
    requires limit > 0
    ensures total <= 0 ==> r <= 0
    ensures total > 0 ==> r >= 1 && (r - 1) * limit < total <= r * limit
  {
    CeilDiv(total, limit)
  }

  /** `pagination.total > pagination.limit`: the control is rendered. */
  predicate ShowPagination(total: int, limit: int)
  {
    total > limit
  }

  /** The control is rendered exactly when there are at least two pages to
      move between, so it is never shown for a single page. */
  lemma ShowPaginationIffSeveralPages(total: int, limit: int)
    requires limit > 0
    ensures ShowPagination(total, limit) <==> TotalPages(total, limit) >= 2
  {
    var r := TotalPages(total, limit);
    if r >= 2 {
      assert (r - 1) * limit >= limit by {
        assert (r - 1) * limit == (r - 2) * limit + limit;
        assert (r - 2) * limit >= 0;
      }
    }
  }
}
