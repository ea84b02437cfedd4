/** Pages of a list: the LIMIT and OFFSET sent to the database, the page size and
    page count reported to the client, and how the pages tile the rows. */
module Pagination {
  import opened Wrappers

  const U64_LIMIT: nat := 0x1_0000_0000_0000_0000
  const I64_MAX: nat := 0x7FFF_FFFF_FFFF_FFFF

  datatype Config = Config(defaultPageSize: nat, maxPageSize: nat)

  /** The page and page size a client asks for; absent ones are defaulted. */
  datatype Request = Request(page: Option<nat>, pageSize: Option<nat>)

  function OrElse(o: Option<nat>, otherwise: nat): nat {
    if o.Some? then o.value else otherwise
  }

  function Min(a: nat, b: nat): nat {
    if a < b then a else b
  }

  function Max(a: nat, b: nat): nat {
    if a > b then a else b
  }

  // ---------------------------------------------------------------------------
  // What the query builder sends
  // ---------------------------------------------------------------------------

  function QueryPageSize(config: Config, request: Request): nat {
    Min(OrElse(request.pageSize, config.defaultPageSize), config.maxPageSize)
  }

  /** The 64-bit product, or nothing where it overflows. */
  function QueryOffset(config: Config, request: Request): Option<nat> {
    var offset := (Max(OrElse(request.page, 1), 1) - 1) * QueryPageSize(config, request);
    if offset < U64_LIMIT then Some(offset) else None
  }

  /** `i64::try_from(n).unwrap_or(i64::MAX)`. */
  function Clamp(n: nat): nat {
    Min(n, I64_MAX)
  }

  // ---------------------------------------------------------------------------
  // What the list handler reports
  // ---------------------------------------------------------------------------

  function ReportedPageSize(config: Config, request: Request): nat {
    Max(Min(OrElse(request.pageSize, config.defaultPageSize), config.maxPageSize), 1)
  }

  function ReportedPage(request: Request): nat {
    OrElse(request.page, 1)
  }

  function DivCeil(n: nat, d: nat): nat
    requires d > 0
  {
    if n % d == 0 then n / d else n / d + 1
  }

  function TotalPages(config: Config, request: Request, total: nat): nat {
    DivCeil(total, ReportedPageSize(config, request))
  }

  // ---------------------------------------------------------------------------
  // Rows
  // ---------------------------------------------------------------------------

  /** `LIMIT limit OFFSET offset` over the ordered rows. */
  function Window<T>(rows: seq<T>, limit: nat, offset: nat): seq<T> {
    rows[Min(offset, |rows|)..Min(offset + limit, |rows|)]
  }

  /** The rows of a page of the given size; pages are numbered from 1. */
  ghost function Page<T>(rows: seq<T>, size: nat, page: nat): seq<T>
    requires page > 0
  {
    Window(rows, size, (page - 1) * size)
  }

  /** The rows the database returns for a request whose offset does not overflow. */
  function Returned<T>(rows: seq<T>, config: Config, request: Request): seq<T>
    requires QueryOffset(config, request).Some?
  {
    Window(rows, Clamp(QueryPageSize(config, request)), Clamp(QueryOffset(config, request).value))
  }

  /** The clamp to 63 bits does not show, and a page numbered 0 is page 1. */
  lemma ReturnedIsPage<T>(rows: seq<T>, config: Config, request: Request)
    requires QueryOffset(config, request).Some? && |rows| <= I64_MAX
    ensures Returned(rows, config, request) == Page(rows, QueryPageSize(config, request), Max(ReportedPage(request), 1))
  {
    var size, offset := QueryPageSize(config, request), QueryOffset(config, request).value;
    assert Window(rows, Clamp(size), Clamp(offset)) == Window(rows, size, offset);
  }

  lemma WindowLength<T>(rows: seq<T>, limit: nat, offset: nat)
    ensures |Window(rows, limit, offset)| <= limit
    ensures offset == 0 ==> Window(rows, limit, offset) == if limit <= |rows| then rows[..limit] else rows
  {
    if offset == 0 && limit > |rows| {
      assert rows[0..|rows|] == rows;
    }
  }

  lemma FirstPageOffset(config: Config, request: Request)
    requires request.page.None? || request.page.value <= 1
    ensures QueryOffset(config, request) == Some(0)
  {
    assert (Max(OrElse(request.page, 1), 1) - 1) * QueryPageSize(config, request) == 0;
  }

  /** The page size is what was asked for, or the default, but never more than the maximum, and no
      more rows are returned; without a page number the rows are the first ones. */
  lemma SizeIsCapped<T>(rows: seq<T>, config: Config, request: Request)
    requires QueryOffset(config, request).Some? && |rows| <= I64_MAX
    ensures var asked := if request.pageSize.Some? then request.pageSize.value else config.defaultPageSize;
            var size := if asked <= config.maxPageSize then asked else config.maxPageSize;
            && QueryPageSize(config, request) == size
            && ReportedPageSize(config, request) == (if size == 0 then 1 else size)
            && |Returned(rows, config, request)| <= config.maxPageSize
            && (request.page.None? || request.page.value <= 1 ==>
                  Returned(rows, config, request) == if size <= |rows| then rows[..size] else rows)
  {
    WindowLength(rows, Clamp(QueryPageSize(config, request)), Clamp(QueryOffset(config, request).value));
    if request.page.None? || request.page.value <= 1 {
      FirstPageOffset(config, request);
    }
  }

  /** The reported page size is the one the database used exactly when that is at least 1. */
  lemma ReportAgreesWithQuery(config: Config, request: Request)
    ensures ReportedPageSize(config, request) == QueryPageSize(config, request)
       <==> OrElse(request.pageSize, config.defaultPageSize) >= 1 && config.maxPageSize >= 1
    ensures ReportedPage(request) == Max(ReportedPage(request), 1) <==> request.page != Some(0)
  {
  }

  /** With a page size of 0 the client is told of pages that all come back empty. */
  lemma ZeroPageSize<T>(rows: seq<T>, config: Config, request: Request)
    requires QueryPageSize(config, request) == 0 && rows != []
    ensures QueryOffset(config, request) == Some(0) && Returned(rows, config, request) == []
    ensures TotalPages(config, request, |rows|) == |rows|
  {
    assert |rows| % 1 == 0 && |rows| / 1 == |rows|;
  }

  lemma DivCeilBounds(n: nat, d: nat)
    requires d > 0
    ensures DivCeil(n, d) * d >= n
    ensures n > 0 ==> (DivCeil(n, d) - 1) * d < n && DivCeil(n, d) > 0
  {
    assert n == n / d * d + n % d;
    if n > 0 && n % d == 0 {
      assert n / d > 0;
      assert (n / d - 1) * d == n / d * d - d;
    }
  }

  lemma MulMonotone(a: nat, b: nat, c: nat)
    requires a <= b
    ensures a * c <= b * c
  {
  }

  /** Every page before the last is full, the last is not empty, and later ones are empty. */
  lemma PageLengths<T>(rows: seq<T>, size: nat, page: nat)
    requires size > 0 && page > 0
    ensures page < DivCeil(|rows|, size) ==> |Page(rows, size, page)| == size
    ensures page == DivCeil(|rows|, size) ==> 0 < |Page(rows, size, page)| <= size
    ensures page > DivCeil(|rows|, size) ==> Page(rows, size, page) == []
  {
    var pages := DivCeil(|rows|, size);
    DivCeilBounds(|rows|, size);
    assert (page - 1) * size + size == page * size;
    if page < pages {
      MulMonotone(page, pages - 1, size);
    } else if page > pages {
      MulMonotone(pages, page - 1, size);
    }
  }

  /** The first `n` pages, put together. */
  ghost function Pages<T>(rows: seq<T>, size: nat, n: nat): seq<T> {
    if n == 0 then [] else Pages(rows, size, n - 1) + Page(rows, size, n)
  }

  lemma {:induction false} PagesArePrefix<T>(rows: seq<T>, size: nat, n: nat)
    ensures Pages(rows, size, n) == rows[..Min(n * size, |rows|)]
  {
    if n > 0 {
      PagesArePrefix(rows, size, n - 1);
      assert (n - 1) * size + size == n * size;
    }
  }

  function PageRequest(request: Request, page: nat): Request {
    request.(page := Some(page))
  }

  /** Requesting pages 1, 2, … returns, put together: */
  ghost function Fetched<T>(rows: seq<T>, config: Config, request: Request, n: nat): seq<T>
    requires forall p :: 1 <= p <= n ==> QueryOffset(config, PageRequest(request, p)).Some?
  {
    if n == 0 then [] else Fetched(rows, config, request, n - 1) + Returned(rows, config, PageRequest(request, n))
  }

  /** No page up to the reported number of pages overflows. */
  lemma OffsetsInRange(config: Config, request: Request, total: nat, page: nat)
    requires QueryPageSize(config, request) >= 1 && total < U64_LIMIT
    requires 1 <= page <= TotalPages(config, request, total)
    ensures QueryOffset(config, PageRequest(request, page)).Some?
  {
    var size := QueryPageSize(config, request);
    DivCeilBounds(total, size);
    MulMonotone(page - 1, DivCeil(total, size) - 1, size);
  }

  /** Pages 1 to the reported number of pages tile the rows: put together they are all of
      them in order, each of the reported size but the last, and what follows is empty. */
  lemma PagesTile<T>(rows: seq<T>, config: Config, request: Request)
    requires QueryPageSize(config, request) >= 1 && |rows| <= I64_MAX
    ensures forall p :: 1 <= p <= TotalPages(config, request, |rows|) ==> QueryOffset(config, PageRequest(request, p)).Some?
    ensures Fetched(rows, config, request, TotalPages(config, request, |rows|)) == rows
    ensures forall p :: p >= 1 && QueryOffset(config, PageRequest(request, p)).Some? ==>
              PageFits(Returned(rows, config, PageRequest(request, p)), ReportedPageSize(config, request), p,
                       TotalPages(config, request, |rows|))
  {
    var pages := TotalPages(config, request, |rows|);
    forall p | 1 <= p <= pages
      ensures QueryOffset(config, PageRequest(request, p)).Some?
    {
      OffsetsInRange(config, request, |rows|, p);
    }
    FetchedIsPages(rows, config, request, pages);
    PagesArePrefix(rows, QueryPageSize(config, request), pages);
    DivCeilBounds(|rows|, QueryPageSize(config, request));
    forall p | p >= 1 && QueryOffset(config, PageRequest(request, p)).Some?
      ensures PageFits(Returned(rows, config, PageRequest(request, p)), ReportedPageSize(config, request), p, pages)
    {
      ReturnedIsPage(rows, config, PageRequest(request, p));
      PageLengths(rows, QueryPageSize(config, request), p);
    }
  }

  ghost predicate PageFits<T>(page: seq<T>, size: nat, number: nat, pages: nat) {
    && (number < pages ==> |page| == size)
    && (number == pages ==> 0 < |page| <= size)
    && (number > pages ==> page == [])
  }

  lemma {:induction false} FetchedIsPages<T>(rows: seq<T>, config: Config, request: Request, n: nat)
    requires forall p :: 1 <= p <= n ==> QueryOffset(config, PageRequest(request, p)).Some?
    requires |rows| <= I64_MAX
    ensures Fetched(rows, config, request, n) == Pages(rows, QueryPageSize(config, request), n)
  {
    if n > 0 {
      FetchedIsPages(rows, config, request, n - 1);
      ReturnedIsPage(rows, config, PageRequest(request, n));
    }
  }

  /** Which page a row is on, and where on it. */
  lemma RowOnPage<T>(rows: seq<T>, size: nat, k: nat)
    requires size > 0 && k < |rows|
    ensures k % size < |Page(rows, size, k / size + 1)|
    ensures Page(rows, size, k / size + 1)[k % size] == rows[k]
  {
    assert k == k / size * size + k % size;
  }
}
