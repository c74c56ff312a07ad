/** Page and limit normalisation and the paginated response
    (pagination.util.ts). Query values are integers; a missing value is
    `None`, and 0, being falsy, falls back to the default like a missing one. */
module PaginationUtil {
  import opened Common

  const DefaultPage: int := 1
  const DefaultLimit: int := 10
  const MaxLimit: int := 100

  datatype PaginationParams = PaginationParams(page: Option<int>, limit: Option<int>)

  datatype PageWindow = PageWindow(page: int, limit: int, skip: int)

  datatype PaginatedResponse<T> = PaginatedResponse(
    data: seq<T>,
    total: nat,
    page: int,
    limit: int,
    totalPages: int)

  /** JavaScript `v || d` on an optional number. */
  function OrDefault(v: Option<int>, d: int): int {
    if v.Some? && v.value != 0 then v.value else d
  }

  /** The page (at least 1), the limit (between 1 and 100) and the number
      of rows to skip before the page. */
  function GetPaginationParams(params: PaginationParams): (w: PageWindow)
    ensures w.page >= 1
    ensures params.page.Some? && params.page.value >= 1 ==> w.page == params.page.value
    ensures params.page.None? || params.page.value <= 1 ==> w.page == 1
    ensures 1 <= w.limit <= MaxLimit
    ensures params.limit.Some? && 1 <= params.limit.value <= MaxLimit ==> w.limit == params.limit.value
    ensures params.limit.None? || params.limit.value == 0 ==> w.limit == DefaultLimit
    ensures params.limit.Some? && params.limit.value < 0 ==> w.limit == 1
    ensures params.limit.Some? && params.limit.value > MaxLimit ==> w.limit == MaxLimit
    ensures w.skip == (w.page - 1) * w.limit
  {
    var page := Max(1, OrDefault(params.page, DefaultPage));
    var limit := Max(1, Min(OrDefault(params.limit, DefaultLimit), MaxLimit));
    PageWindow(page, limit, (page - 1) * limit)
  }

  function Max(a: int, b: int): int { if a >= b then a else b }
  function Min(a: int, b: int): int { if a <= b then a else b }

  /** The skip count is never negative, and it is zero exactly on the first page. */
  lemma SkipBounds(params: PaginationParams)
    ensures var w := GetPaginationParams(params);
      w.skip >= 0 && (w.skip == 0 <==> w.page == 1) && w.skip + w.limit == w.page * w.limit
  {
  }

  /** Normalising a window that is already normal gives it back. */
  lemma NormaliseIdempotent(params: PaginationParams)
    ensures var w := GetPaginationParams(params);
      GetPaginationParams(PaginationParams(Some(w.page), Some(w.limit))) == w
  {
  }

  /** `Math.ceil(total / limit)` for a positive limit. */
  function TotalPages(total: nat, limit: int): (n: nat)
    requires limit >= 1
    ensures total == 0 ==> n == 0
    ensures total > 0 ==> (n - 1) * limit < total <= n * limit
  {
    var n := (total + limit - 1) / limit;
    CeilingBounds(total, limit);
    n
  }

  lemma CeilingBounds(total: nat, limit: int)
    requires limit >= 1
    ensures var n := (total + limit - 1) / limit;
      n >= 0 && (total == 0 ==> n == 0) && (total > 0 ==> (n - 1) * limit < total <= n * limit)
  {
    var n := (total + limit - 1) / limit;
    var r := (total + limit - 1) % limit;
    assert total + limit - 1 == n * limit + r && 0 <= r < limit;
    assert (n - 1) * limit == n * limit - limit;
  }

  /** The response for one page of `data` out of `total` rows. */
  function CreatePaginatedResponse<T>(data: seq<T>, total: nat, params: PaginationParams): (r: PaginatedResponse<T>)
    ensures r.data == data && r.total == total
    ensures r.page == GetPaginationParams(params).page && r.limit == GetPaginationParams(params).limit
    ensures total == 0 ==> r.totalPages == 0
    ensures total > 0 ==> (r.totalPages - 1) * r.limit < total <= r.totalPages * r.limit
  {
    var w := GetPaginationParams(params);
    PaginatedResponse(data, total, w.page, w.limit, TotalPages(total, w.limit))
  }
}
