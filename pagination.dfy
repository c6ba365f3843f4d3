/** Pagination parameters, paginated results and list parameters (internal/domain/pagination.go). */
module Pagination {
  import opened Primitive

  datatype PaginationParams = PaginationParams(page: int, limit: int)

  datatype PaginationMetadata = PaginationMetadata(total: int, page: int, limit: int, totalPages: int)

  datatype PaginatedResult<T> = PaginatedResult(data: seq<T>, pagination: PaginationMetadata)

  datatype ListParams = ListParams(search: string, name: string, sort: string, order: string,
                                   pagination: PaginationParams)

  function DefaultPaginationParams(): (p: PaginationParams)
    ensures p.page == 1 && p.limit == 20
  {
    PaginationParams(1, 20)
  }

  /** The number of records before the first one of the requested page. */
  function Offset(p: PaginationParams): int {
    (p.page - 1) * p.limit
  }

  /** Page 1 starts at record 0, and each page starts `limit` records after the one before,
      so for positive page and limit the offset is never negative. */
  lemma OffsetPages(p: PaginationParams)
    requires p.page >= 1 && p.limit >= 1
    ensures Offset(p) >= 0
    ensures Offset(PaginationParams(1, p.limit)) == 0
    ensures Offset(PaginationParams(p.page + 1, p.limit)) == Offset(p) + p.limit
  {
  }

  function Min(a: int, b: int): int {
    if a < b then a else b
  }

  function Max(a: int, b: int): int {
    if a < b then b else a
  }

  /** The slice the mock repositories return: records `Offset` up to `Offset + Limit`, cut
      short at the end, or none when the offset is past the end. */
  function PageOf<T>(all: seq<T>, p: PaginationParams): (r: seq<T>)
    requires p.page >= 1 && p.limit >= 1
    ensures |r| == Min(p.limit, Max(0, |all| - Offset(p)))
    ensures forall i :: 0 <= i < |r| ==> Offset(p) + i < |all| && r[i] == all[Offset(p) + i]
  {
    OffsetPages(p);
    Window(all, Offset(p), p.limit)
  }

  /** Up to `count` records from index `start` on. */
  function Window<T>(all: seq<T>, start: nat, count: nat): (r: seq<T>)
    ensures |r| == Min(count, Max(0, |all| - start))
    ensures forall i :: 0 <= i < |r| ==> start + i < |all| && r[i] == all[start + i]
  {
    if start >= |all| then [] else all[start..if start + count > |all| then |all| else start + count]
  }

  /** Go's `int(total) / limit` with the `%` correction, on Go's truncating operators. The
      division by zero Go panics on is excluded. */
  function TotalPages(total: int, limit: int): int
    requires limit != 0
  {
    GoDiv(total, limit) + (if GoRem(total, limit) > 0 then 1 else 0)
  }

  function NewPaginatedResult<T>(data: seq<T>, total: int, params: PaginationParams): (r: PaginatedResult<T>)
    requires params.limit != 0
    ensures r.data == data
    ensures r.pagination.total == total
    ensures r.pagination.page == params.page && r.pagination.limit == params.limit
  {
    PaginatedResult(data, PaginationMetadata(total, params.page, params.limit, TotalPages(total, params.limit)))
  }

  /** For a non-negative total and positive limit, the page count is the ceiling of
      total / limit: the pages hold every record and the last page is not empty. */
  lemma TotalPagesIsCeiling(total: int, limit: int)
    requires total >= 0 && limit > 0
    ensures var n := TotalPages(total, limit);
      n >= 0 && n * limit >= total && (n - 1) * limit < total + (if total == 0 then limit else 0)
    ensures TotalPages(total, limit) == 0 <==> total == 0
  {
    GoDivNonNegative(total, limit);
    var q, r := total / limit, total % limit;
    assert total == q * limit + r;
    if r > 0 {
      assert TotalPages(total, limit) == q + 1;
      assert (q + 1) * limit == q * limit + limit;
    } else {
      assert TotalPages(total, limit) == q;
      if total > 0 {
        assert q > 0;
        assert (q - 1) * limit == q * limit - limit;
      }
    }
  }

  function DefaultListParams(): (p: ListParams)
    ensures p.sort == "created_at" && p.order == "desc" && p.pagination == DefaultPaginationParams()
    ensures p.search == "" && p.name == ""
  {
    ListParams("", "", "created_at", "desc", DefaultPaginationParams())
  }

  const ValidSortFields: seq<string> := ["name", "created_at", "updated_at"]

  /** A linear search of the valid sort fields. */
  method IsValidSortField(field: string) returns (b: bool)
    ensures b <==> field in ValidSortFields
    ensures b <==> field == "name" || field == "created_at" || field == "updated_at"
  {
    var i := 0;
    while i < |ValidSortFields|
      invariant 0 <= i <= |ValidSortFields|
      invariant forall j :: 0 <= j < i ==> ValidSortFields[j] != field
    {
      if ValidSortFields[i] == field {
        return true;
      }
      i := i + 1;
    }
    assert ValidSortFields[0] != field && ValidSortFields[1] != field && ValidSortFields[2] != field;
    return false;
  }
}
