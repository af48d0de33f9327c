/** frontend/src/hooks/useApi.js: the two pagination hooks. `usePaginatedApi` keeps the
    loaded rows, the pagination record and the query parameters; `useInfiniteScroll` keeps
    the rows, whether more pages exist, the next page and the parameters. Each hook is a
    class whose fields are its state variables and whose methods are its callbacks; the
    awaited API call is a parameter (the response it delivered). */
module UseApi {
  import opened Common
  import opened JsValues

  /** Query parameters, as the object passed to the API call. */
  type Params = map<string, JsValue>

  /** What the awaited API call delivered: a result object, whose absent fields are `None`,
      or a thrown error with `err.response?.data?.error` and `err.message`. */
  datatype Response<T> =
    | Loaded(data: Option<seq<T>>, items: Option<seq<T>>, total: Option<int>, count: Option<int>,
             totalPages: Option<int>, hasNext: Option<bool>)
    | Failed(serverError: Option<string>, message: Option<string>)

  /** `result.data || result.items || []`: an array, even an empty one, is truthy. */
  function Items<T>(r: Response<T>): seq<T>
    requires r.Loaded?
  {
    if r.data.Some? then r.data.value else if r.items.Some? then r.items.value else []
  }

  /** `a || b` on numbers: 0 (or a missing field) gives way to `b`. */
  function OrNum(a: Option<int>, b: int): int {
    if a.Some? && a.value != 0 then a.value else b
  }

  /** `err.response?.data?.error || err.message || 'An error occurred'` */
  function ErrorMessage<T>(r: Response<T>): (m: string)
    requires r.Failed?
    ensures m != ""
    ensures r.serverError.Some? && r.serverError.value != "" ==> m == r.serverError.value
    ensures (r.serverError.None? || r.serverError.value == "") && r.message.Some? && r.message.value != "" ==> m == r.message.value
  {
    if r.serverError.Some? && r.serverError.value != "" then r.serverError.value
    else if r.message.Some? && r.message.value != "" then r.message.value
    else "An error occurred"
  }

  /** `Math.ceil(a / b)` for a positive `b`: Dafny's `/` rounds down for a positive divisor. */
  function Ceil(a: int, b: int): (c: int)
    requires b > 0
    ensures (c - 1) * b < a <= c * b
  {
    -((-a) / b)
  }

  /* ------------------------------------------------------- usePaginatedApi */

  datatype Pagination = Pagination(page: int, limit: int, total: int, totalPages: int, hasNext: bool, hasPrev: bool)

  const InitialPagination := Pagination(1, 10, 0, 0, false, false)

  /** The pagination record after loading `page`: the total is `total || count || 0`, the
      page count the reported one or, wanting it, `ceil((total || 0) / limit)`. */
  function Paginate<T>(p: Pagination, page: int, r: Response<T>): Pagination
    requires r.Loaded? && p.limit > 0
  {
    var totalPages := OrNum(r.totalPages, Ceil(OrNum(r.total, 0), p.limit));
    Pagination(page, p.limit, OrNum(r.total, OrNum(r.count, 0)), totalPages, page < totalPages, page > 1)
  }

  /** The record states where the loaded page lies: the page and limit, a next page exactly
      below the page count, a previous page exactly past page 1; without a reported page
      count, just enough pages of `limit` rows to hold the reported total. */
  lemma PaginateCorrect<T>(p: Pagination, page: int, r: Response<T>)
    requires r.Loaded? && p.limit > 0
    ensures var q := Paginate(p, page, r);
      && q.page == page && q.limit == p.limit
      && (q.hasNext <==> page < q.totalPages)
      && (q.hasPrev <==> page > 1)
      && (r.totalPages.Some? && r.totalPages.value != 0 ==> q.totalPages == r.totalPages.value)
      && (r.total.Some? && r.total.value != 0 ==> q.total == r.total.value)
    ensures (r.totalPages.None? || r.totalPages.value == 0) && r.total.Some? && r.total.value > 0 ==>
      var q := Paginate(p, page, r);
      && (q.totalPages - 1) * p.limit < r.total.value <= q.totalPages * p.limit
      && q.totalPages >= 1
  {
    if (r.totalPages.None? || r.totalPages.value == 0) && r.total.Some? && r.total.value > 0 {
      var q := Paginate(p, page, r);
      assert q.totalPages == Ceil(r.total.value, p.limit);
    }
  }

  /** Without a reported page count or total, there is no next page past page 0. */
  lemma EmptyResultNoNext<T>(p: Pagination, page: int, r: Response<T>)
    requires r.Loaded? && p.limit > 0 && page >= 1
    requires r.totalPages.None? && r.total.None?
    ensures !Paginate(p, page, r).hasNext && Paginate(p, page, r).totalPages == 0
  {
  }

  class PaginatedApi<T> {
    var data: seq<T>
    var pagination: Pagination
    var loading: bool
    var error: Option<string>
    var params: Params
    const initialParams: Params

    /** A page holds a positive number of rows. */
    ghost predicate Valid()
      reads this
    {
      pagination.limit > 0
    }

    constructor(initialParams: Params)
      ensures Valid()
      ensures data == [] && pagination == InitialPagination && !loading && error == None
      ensures params == initialParams && this.initialParams == initialParams
    {
      data := [];
      pagination := InitialPagination;
      loading := false;
      error := None;
      params := initialParams;
      this.initialParams := initialParams;
    }

    /** `loadData(page, newParams)` once the call has answered: the request carries the
        parameters, the new ones over them, with the page and the limit; page 1 replaces the
        rows and any other page appends its rows after them; the parameters take in the new
        ones. A failure records its message and changes nothing else. */
    method LoadData(page: int, newParams: Params, response: Response<T>) returns (sent: Params)
      requires Valid()
      modifies this
      ensures Valid() && !loading
      ensures sent == (old(params) + newParams)["page" := Number(Int(page))]["limit" := Number(Int(old(pagination.limit)))]
      ensures response.Loaded? ==>
        && data == (if page == 1 then Items(response) else old(data) + Items(response))
        && pagination == Paginate(old(pagination), page, response)
        && params == old(params) + newParams
        && error == None
      ensures response.Failed? ==>
        && data == old(data) && pagination == old(pagination) && params == old(params)
        && error == Some(ErrorMessage(response))
    {
      loading := true;
      error := None;
      sent := (params + newParams)["page" := Number(Int(page))]["limit" := Number(Int(pagination.limit))];
      if response.Loaded? {
        var newItems := Items(response);
        if page == 1 {
          data := newItems;
        } else {
          data := data + newItems;
        }
        pagination := Paginate(pagination, page, response);
        params := params + newParams;
      } else {
        error := Some(ErrorMessage(response));
      }
      loading := false;
    }

    /** `nextPage`: loads the following page only when there is one. */
    method NextPage(response: Response<T>) returns (sent: Option<Params>)
      requires Valid()
      modifies this
      ensures Valid()
      ensures !old(pagination.hasNext) ==> sent == None && unchanged(this)
      ensures old(pagination.hasNext) ==> sent.Some? && "page" in sent.value && sent.value["page"] == Number(Int(old(pagination.page) + 1))
      ensures old(pagination.hasNext) && response.Loaded? ==>
        && pagination == Paginate(old(pagination), old(pagination.page) + 1, response)
        && data == (if old(pagination.page) + 1 == 1 then Items(response) else old(data) + Items(response))
    {
      if pagination.hasNext {
        var s := LoadData(pagination.page + 1, map[], response);
        sent := Some(s);
      } else {
        sent := None;
      }
    }

    /** `prevPage`: loads the preceding page only when there is one. A previous page other
        than page 1 is appended after the rows shown, like any page but the first. */
    method PrevPage(response: Response<T>) returns (sent: Option<Params>)
      requires Valid()
      modifies this
      ensures Valid()
      ensures !old(pagination.hasPrev) ==> sent == None && unchanged(this)
      ensures old(pagination.hasPrev) ==> sent.Some? && "page" in sent.value && sent.value["page"] == Number(Int(old(pagination.page) - 1))
      ensures old(pagination.hasPrev) && response.Loaded? ==>
        && pagination == Paginate(old(pagination), old(pagination.page) - 1, response)
        && data == (if old(pagination.page) - 1 == 1 then Items(response) else old(data) + Items(response))
    {
      if pagination.hasPrev {
        var s := LoadData(pagination.page - 1, map[], response);
        sent := Some(s);
      } else {
        sent := None;
      }
    }

    /** `setLimit(newLimit)`: the new limit, back on page 1; nothing else changes. */
    method SetLimit(newLimit: int)
      requires newLimit > 0
      modifies this
      ensures Valid()
      ensures pagination == old(pagination).(limit := newLimit, page := 1)
      ensures data == old(data) && params == old(params) && error == old(error) && loading == old(loading)
    {
      pagination := pagination.(limit := newLimit, page := 1);
    }

    /** `reset`: no rows, the initial pagination and parameters, no error. */
    method Reset()
      modifies this
      ensures Valid()
      ensures data == [] && pagination == InitialPagination && params == initialParams && error == None
      ensures loading == old(loading)
    {
      data := [];
      pagination := InitialPagination;
      params := initialParams;
      error := None;
    }
  }

  /* ----------------------------------------------------- useInfiniteScroll */

  /** A `loadMore` call under way: whether it resets, the page it asked for, and the
      parameters it sent. */
  datatype ScrollRequest = ScrollRequest(reset: bool, currentPage: int, sent: Params)

  /** `newItems.length > 0 && (result.hasNext !== undefined ? result.hasNext
      : currentPage < (result.totalPages || 10))` */
  function HasMore<T>(currentPage: int, r: Response<T>): bool
    requires r.Loaded?
  {
    |Items(r)| > 0 && (if r.hasNext.Some? then r.hasNext.value else currentPage < OrNum(r.totalPages, 10))
  }

  /** An empty page ends the scroll; otherwise a reported `hasNext` decides, and wanting it
      the page is compared with the reported page count, or with 10. */
  lemma HasMoreCorrect<T>(currentPage: int, r: Response<T>)
    requires r.Loaded?
    ensures |Items(r)| == 0 ==> !HasMore(currentPage, r)
    ensures |Items(r)| > 0 && r.hasNext.Some? ==> HasMore(currentPage, r) == r.hasNext.value
    ensures |Items(r)| > 0 && r.hasNext.None? && r.totalPages.Some? && r.totalPages.value != 0 ==>
      (HasMore(currentPage, r) <==> currentPage < r.totalPages.value)
    ensures |Items(r)| > 0 && r.hasNext.None? && (r.totalPages.None? || r.totalPages.value == 0) ==>
      (HasMore(currentPage, r) <==> currentPage < 10)
  {
  }

  class InfiniteScroll<T> {
    var data: seq<T>
    var loading: bool
    var error: Option<string>
    var hasMore: bool
    var page: int
    var params: Params
    const initialParams: Params

    constructor(initialParams: Params)
      ensures data == [] && !loading && error == None && hasMore && page == 1
      ensures params == initialParams && this.initialParams == initialParams
    {
      data := [];
      loading := false;
      error := None;
      hasMore := true;
      page := 1;
      params := initialParams;
      this.initialParams := initialParams;
    }

    /** `loadMore(reset)` up to its await: nothing while a load is under way, nor when no
        more pages exist and this is no reset; otherwise it marks the load as under way and
        asks for page 1 on a reset, else for the next page, with the current parameters. */
    method StartLoadMore(reset: bool) returns (request: Option<ScrollRequest>)
      modifies this
      ensures old(loading) || (!old(hasMore) && !reset) ==> request == None && unchanged(this)
      ensures !(old(loading) || (!old(hasMore) && !reset)) ==>
        var currentPage := if reset then 1 else old(page);
        && request == Some(ScrollRequest(reset, currentPage, old(params)["page" := Number(Int(currentPage))]))
        && loading && error == None
        && data == old(data) && hasMore == old(hasMore) && page == old(page) && params == old(params)
    {
      if loading || (!hasMore && !reset) {
        request := None;
        return;
      }
      loading := true;
      error := None;
      var currentPage := if reset then 1 else page;
      request := Some(ScrollRequest(reset, currentPage, params["page" := Number(Int(currentPage))]));
    }

    /** `loadMore` after its await: a reset replaces the rows and any other load appends
        them; whether more exist comes from `HasMore`; the next page is 2 after a reset and
        the page after the one loaded otherwise. A failure records its message. Either way
        the load is over. */
    method FinishLoadMore(request: ScrollRequest, response: Response<T>)
      modifies this
      ensures !loading && params == old(params)
      ensures response.Loaded? ==>
        && data == (if request.reset then Items(response) else old(data) + Items(response))
        && hasMore == HasMore(request.currentPage, response)
        && page == (if request.reset then 2 else request.currentPage + 1)
        && error == old(error)
      ensures response.Failed? ==>
        && data == old(data) && hasMore == old(hasMore) && page == old(page)
        && error == Some(ErrorMessage(response))
    {
      if response.Loaded? {
        var newItems := Items(response);
        if request.reset {
          data := newItems;
        } else {
          data := data + newItems;
        }
        hasMore := HasMore(request.currentPage, response);
        page := if request.reset then 2 else request.currentPage + 1;
      } else {
        error := Some(ErrorMessage(response));
      }
      loading := false;
    }

    /** `reset`: no rows, page 1, more to come, the initial parameters, no error. */
    method Reset()
      modifies this
      ensures data == [] && page == 1 && hasMore && params == initialParams && error == None
      ensures loading == old(loading)
    {
      data := [];
      page := 1;
      hasMore := true;
      params := initialParams;
      error := None;
    }

    /** `updateParams(newParams)` as written: the parameters take in the new ones and the
        scroll restarts, but `loadMore` is the callback of the render before, which still
        sees the old parameters, so the first page is requested without the new ones. */
    method UpdateParamsAsWritten(newParams: Params) returns (request: Option<ScrollRequest>)
      modifies this
      ensures params == old(params) + newParams && page == 1 && hasMore
      ensures !old(loading) ==> request == Some(ScrollRequest(true, 1, old(params)["page" := Number(Int(1))]))
      ensures old(loading) ==> request == None
    {
      var staleParams, staleLoading := params, loading;
      params := params + newParams;
      page := 1;
      hasMore := true;
      if staleLoading {
        request := None;
      } else {
        loading := true;
        error := None;
        request := Some(ScrollRequest(true, 1, staleParams["page" := Number(Int(1))]));
      }
    }

    /** `updateParams(newParams)` with the request built from the merged parameters. */
    method UpdateParams(newParams: Params) returns (request: Option<ScrollRequest>)
      modifies this
      ensures params == old(params) + newParams && page == 1 && hasMore
      ensures !old(loading) ==> request == Some(ScrollRequest(true, 1, params["page" := Number(Int(1))]))
      ensures old(loading) ==> request == None
    {
      params := params + newParams;
      page := 1;
      hasMore := true;
      request := StartLoadMore(true);
    }
  }

  /** A search typed into a fresh scroll: the hook now holds the new name, but the request
      the written `updateParams` sends carries no name at all. */
  method StaleParamsExample() returns (sent: Params, held: Params)
    ensures "name" !in sent && sent == map["page" := Number(Int(1))]
    ensures held == map["name" := Str("pizza")]
  {
    var scroll := new InfiniteScroll<int>(map[]);
    var request := scroll.UpdateParamsAsWritten(map["name" := Str("pizza")]);
    sent := request.value.sent;
    held := scroll.params;
  }

  /** The corrected `updateParams`: from a fresh scroll the request carries the new name. */
  method UpdatedParamsExample() returns (sent: Params, held: Params)
    ensures sent == map["name" := Str("pizza"), "page" := Number(Int(1))]
    ensures held == map["name" := Str("pizza")]
  {
    var scroll := new InfiniteScroll<int>(map[]);
    var request := scroll.UpdateParams(map["name" := Str("pizza")]);
    sent := request.value.sent;
    held := scroll.params;
  }

  /** The scroll guard: a second `loadMore` started before the first has answered does not
      send a request. */
  method NoOverlappingLoads<T>(scroll: InfiniteScroll<T>, reset: bool) returns (first: Option<ScrollRequest>, second: Option<ScrollRequest>)
    modifies scroll
    ensures !old(scroll.loading) && (old(scroll.hasMore) || reset) ==> first.Some?
    ensures first.Some? ==> second == None
  {
    first := scroll.StartLoadMore(reset);
    second := scroll.StartLoadMore(true);
  }
}
