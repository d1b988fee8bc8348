/**
 * The query DTOs of the listing endpoints (src/common/dto/pagination.dto.ts):
 * optional page and limit for every listing, and for the catalogue search the
 * text filters, the year and the sort order. An absent query parameter is
 * `None`; the class defaults fill it in before the handler runs.
 */
module Pagination {
  import opened Wrappers

  datatype PaginationDto = PaginationDto(page: Option<int>, limit: Option<int>)

  datatype MovieFilterDto = MovieFilterDto(
    page: Option<int>,
    limit: Option<int>,
    search: Option<string>,
    genre: Option<string>,
    director: Option<string>,
    year: Option<int>,
    sortBy: Option<string>,
    order: Option<string>)

  const DefaultPage := 1
  const DefaultLimit := 10
  const DefaultSortBy := "createdAt"
  const DefaultOrder := "DESC"
  /** The maximum the API documentation announces for `limit`; no validator enforces it. */
  const DocumentedMaxLimit := 100

  const SortFields := ["title", "releaseYear", "rating", "createdAt"]
  const Orders := ["ASC", "DESC"]

  /** The decorators IsInt, IsPositive and IsOptional: absent, or a positive integer. */
  predicate PositiveIfPresent(x: Option<int>) {
    x.Some? ==> x.value > 0
  }

  predicate ValidPagination(p: PaginationDto) {
    PositiveIfPresent(p.page) && PositiveIfPresent(p.limit)
  }

  /** The year is any integer; the text filters are any strings. */
  predicate ValidFilter(f: MovieFilterDto) {
    && PositiveIfPresent(f.page)
    && PositiveIfPresent(f.limit)
    && (f.sortBy.Some? ==> f.sortBy.value in SortFields)
    && (f.order.Some? ==> f.order.value in Orders)
  }

  /** The filter seen as the pagination it extends. */
  function AsPagination(f: MovieFilterDto): (r: PaginationDto)
    ensures ValidFilter(f) ==> ValidPagination(r)
  {
    PaginationDto(f.page, f.limit)
  }

  /** The field initialisers: page 1 and limit 10 unless given. */
  function PaginationWithDefaults(p: PaginationDto): (r: PaginationDto)
    ensures p.page.Some? ==> r.page == p.page
    ensures p.limit.Some? ==> r.limit == p.limit
    ensures p.page.None? ==> r.page == Some(DefaultPage)
    ensures p.limit.None? ==> r.limit == Some(DefaultLimit)
  {
    PaginationDto(Some(p.page.GetOr(DefaultPage)), Some(p.limit.GetOr(DefaultLimit)))
  }

  /** The field initialisers of the filter: sort by creation date, newest first, unless given. */
  function FilterWithDefaults(f: MovieFilterDto): (r: MovieFilterDto)
    ensures AsPagination(r) == PaginationWithDefaults(AsPagination(f))
    ensures f.sortBy.Some? ==> r.sortBy == f.sortBy
    ensures f.order.Some? ==> r.order == f.order
    ensures f.sortBy.None? ==> r.sortBy == Some(DefaultSortBy)
    ensures f.order.None? ==> r.order == Some(DefaultOrder)
    ensures r.search == f.search && r.genre == f.genre && r.director == f.director && r.year == f.year
  {
    f.(page := Some(f.page.GetOr(DefaultPage)),
       limit := Some(f.limit.GetOr(DefaultLimit)),
       sortBy := Some(f.sortBy.GetOr(DefaultSortBy)),
       order := Some(f.order.GetOr(DefaultOrder)))
  }

  /**
   * Filling in the defaults neither makes an invalid query valid nor a valid
   * one invalid: every default meets its own constraint, and a given value
   * is kept as it is.
   */
  lemma DefaultsKeepValidity(f: MovieFilterDto)
    ensures ValidFilter(FilterWithDefaults(f)) <==> ValidFilter(f)
  {
    assert DefaultSortBy == SortFields[3];
    assert DefaultOrder == Orders[1];
  }

  /** Filling in the defaults twice is filling them in once. */
  lemma DefaultsIdempotent(f: MovieFilterDto)
    ensures FilterWithDefaults(FilterWithDefaults(f)) == FilterWithDefaults(f)
    ensures PaginationWithDefaults(PaginationWithDefaults(AsPagination(f))) == PaginationWithDefaults(AsPagination(f))
  {
  }

  /** An empty query asks for the first ten movies, newest first. */
  lemma EmptyFilterDefaults()
    ensures var r := FilterWithDefaults(MovieFilterDto(None, None, None, None, None, None, None, None));
            r == MovieFilterDto(Some(1), Some(10), None, None, None, None, Some("createdAt"), Some("DESC"))
  {
  }

  /** The documented maximum page size is not enforced: a limit of 1000 passes. */
  lemma LimitNotCapped()
    ensures ValidPagination(PaginationDto(None, Some(10 * DocumentedMaxLimit)))
    ensures !ValidPagination(PaginationDto(Some(0), None))
  {
  }
}
