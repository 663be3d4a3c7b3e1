/**
 * The deals page (client/src/pages/DealsPage.jsx): the state it holds, the
 * request it sends, how it decodes the answer and cuts one page out of the
 * full result, the failure path, and the handlers that move between pages,
 * change the page size, search, filter and clear.
 */
module DealsPage {
  import opened JsValues
  import FilterPanel
  import DealsList
  import Pagination
  import Api

  /** The page size the page starts with. */
  const InitialLimit: int := 10

  /** The error the page shows when a fetch fails. */
  const FetchErrorMessage: string := "Failed to fetch deals. Please try again."

  /** The request parameter each filter is sent under. */
  function FilterParamName(k: FilterPanel.FilterKey): string
  {
    match k
    case StageKey => "stage"
    case MinValueKey => "minValue"
    case MaxValueKey => "maxValue"
    case StartDateKey => "startDate"
    case EndDateKey => "endDate"
  }

  /** Every key the uncleaned request carries. */
  const ParamKeys: set<string> :=
    {"search", "stage", "minValue", "maxValue", "startDate", "endDate", "page", "limit"}

  /** `{ search: searchQuery, ...filters, page, limit }` */
  function BuildParams(search: string, filters: FilterPanel.FilterState, page: int, limit: int): (params: map<string, JsValue>)
    ensures params.Keys == ParamKeys
    ensures params["search"] == Str(search)
    ensures forall k :: params[FilterParamName(k)] == Str(FilterPanel.Get(filters, k))
    ensures params["page"] == Num(page) && params["limit"] == Num(limit)
  {
    map["search" := Str(search),
        "stage" := Str(filters.stage),
        "minValue" := Str(filters.minValue),
        "maxValue" := Str(filters.maxValue),
        "startDate" := Str(filters.startDate),
        "endDate" := Str(filters.endDate),
        "page" := Num(page),
        "limit" := Num(limit)]
  }

  /** `params[key] || params[key] === 0`: the values cleaning keeps. */
  predicate Kept(v: JsValue)
  {
    Truthy(v) || v == Num(0)
  }

  /** The request with every falsy value other than `0` removed. */
  function CleanedParams(params: map<string, JsValue>): (cleaned: map<string, JsValue>)
    ensures forall k :: k in cleaned <==> k in params && Kept(params[k])
    ensures forall k :: k in cleaned ==> cleaned[k] == params[k]
  {
    map k | k in params && Kept(params[k]) :: params[k]
  }

  /** Cleaning a cleaned request changes nothing. */
  lemma CleanedParamsIdempotent(params: map<string, JsValue>)
    ensures CleanedParams(CleanedParams(params)) == CleanedParams(params)
  {
    var once := CleanedParams(params);
    assert CleanedParams(once).Keys == once.Keys;
  }

  /** The `forEach` / `delete` loop over `Object.keys(params)`. */
  method RemoveEmptyParams(params: map<string, JsValue>) returns (cleaned: map<string, JsValue>)
    ensures cleaned == CleanedParams(params)
  {
    cleaned := params;
    var keys := params.Keys;
    while keys != {}
      invariant keys <= params.Keys
      invariant forall k :: k in cleaned <==> k in params && (k in keys || Kept(params[k]))
      invariant forall k :: k in cleaned ==> cleaned[k] == params[k]
      decreases keys
    {
      var key :| key in keys;
      if !Kept(cleaned[key]) {
        cleaned := cleaned - {key};
      }
      keys := keys - {key};
    }
    assert cleaned.Keys == CleanedParams(params).Keys;
  }

  /** The request a page in a valid state sends: page and limit always,
      the search and each filter exactly when they are not ''. */
  lemma RequestKeys(search: string, filters: FilterPanel.FilterState, page: int, limit: int)
    requires page >= 1 && limit > 0
    ensures var sent := CleanedParams(BuildParams(search, filters, page, limit));
      "page" in sent && sent["page"] == Num(page)
      && "limit" in sent && sent["limit"] == Num(limit)
      && ("search" in sent <==> search != "")
      && (forall k :: FilterParamName(k) in sent <==> FilterPanel.Get(filters, k) != "")
      && (forall key :: key in sent ==> key in ParamKeys)
  {
    var params := BuildParams(search, filters, page, limit);
    assert params["page"] == Num(page);
    assert params["limit"] == Num(limit);
    forall k ensures FilterParamName(k) in params {
      assert FilterParamName(k) in ParamKeys;
    }
  }

  /** The response shape the page settles on: the deal list and the count
      field it found, if any. */
  datatype Decoded = Decoded(allDeals: seq<JsValue>, totalCount: JsValue)

  /** `Array.isArray(v) ? v : []` */
  function AsArray(v: JsValue): (items: seq<JsValue>)
    ensures v.Arr? ==> items == v.items
    ensures !v.Arr? ==> items == []
  {
    if v.Arr? then v.items else []
  }

  /** The decoding of the resolved response. A nullish response makes the
      first property read throw, which lands in the failure path: `None`. */
  function Decode(response: JsValue): (r: Option<Decoded>)
    ensures r.None? <==> Nullish(response)
  {
    if Nullish(response) then None
    else
      var data := Get(response, "data");
      if Truthy(data) then
        Some(Decoded(
          AsArray(Or(Or(Get(data, "deals"), Get(data, "data")), data)),
          Or(Or(Get(data, "total"), Get(data, "totalCount")), Get(response, "total"))))
      else
        Some(Decoded(
          AsArray(Or(Get(response, "deals"), response)),
          Or(Get(response, "total"), Get(response, "totalCount"))))
  }

  /** `totalCount || allDeals.length`, for a count that is a number. */
  function ActualTotal(d: Decoded): (total: int)
    ensures d.totalCount.Num? && d.totalCount.n != 0 ==> total == d.totalCount.n
    ensures !Truthy(d.totalCount) ==> total == |d.allDeals|
  {
    if d.totalCount.Num? && d.totalCount.n != 0 then d.totalCount.n else |d.allDeals|
  }

  /** An axios response whose body is the bare array the server sends
      decodes to that array, and with no count field the total is its
      length. */
  lemma DecodeServerArray(fields: map<string, JsValue>, rows: seq<JsValue>)
    requires "data" in fields && fields["data"] == Arr(rows)
    requires "total" !in fields
    ensures Decode(Obj(fields)) == Some(Decoded(rows, Undefined))
    ensures ActualTotal(Decode(Obj(fields)).value) == |rows|
  {
  }

  /** A body `{ deals, total }` decodes to its list and its count. */
  lemma DecodeNestedDeals(fields: map<string, JsValue>, rows: seq<JsValue>, count: int)
    requires count != 0
    requires "data" in fields
    requires fields["data"] == Obj(map["deals" := Arr(rows), "total" := Num(count)])
    ensures Decode(Obj(fields)) == Some(Decoded(rows, Num(count)))
    ensures ActualTotal(Decode(Obj(fields)).value) == count
  {
    var data := fields["data"];
    assert Get(data, "deals") == Arr(rows);
    assert Get(data, "total") == Num(count);
  }

  /** A bare array in place of an axios response is taken as the list. */
  lemma DecodeBareArray(rows: seq<JsValue>)
    ensures Decode(Arr(rows)) == Some(Decoded(rows, Undefined))
  {
  }

  /** `a || b || ...`: the first truthy candidate, or the last one when
      none is truthy. */
  function FirstTruthy(candidates: seq<JsValue>): (r: JsValue)
    requires candidates != []
    ensures Truthy(r) <==> exists i :: 0 <= i < |candidates| && Truthy(candidates[i])
    ensures Truthy(r) ==> exists i :: 0 <= i < |candidates| && candidates[i] == r
                                    && forall j :: 0 <= j < i ==> !Truthy(candidates[j])
    ensures !Truthy(r) ==> r == candidates[|candidates| - 1]
  {
    if |candidates| == 1 || Truthy(candidates[0]) then candidates[0]
    else
      var r := FirstTruthy(candidates[1..]);
      if Truthy(r) then
        ghost var i :| 0 <= i < |candidates[1..]| && candidates[1..][i] == r
                       && forall j :: 0 <= j < i ==> !Truthy(candidates[1..][j]);
        assert candidates[i + 1] == r;
        r
      else r
  }

  /** Where the page looks for the list: `data.deals`, `data.data`, `data`
      when the response has a truthy `data`; `deals`, then the response
      itself, otherwise. */
  function ListCandidates(response: JsValue): (cs: seq<JsValue>)
    requires !Nullish(response)
    ensures cs != []
  {
    var data := Get(response, "data");
    if Truthy(data) then [Get(data, "deals"), Get(data, "data"), data]
    else [Get(response, "deals"), response]
  }

  /** Where the page looks for the count: `data.total`, `data.totalCount`,
      then the response's `total` when `data` is truthy; `total`, then
      `totalCount`, otherwise. */
  function CountCandidates(response: JsValue): (cs: seq<JsValue>)
    requires !Nullish(response)
    ensures cs != []
  {
    var data := Get(response, "data");
    if Truthy(data) then [Get(data, "total"), Get(data, "totalCount"), Get(response, "total")]
    else [Get(response, "total"), Get(response, "totalCount")]
  }

  /** The decoded list is the first truthy list candidate when it is an
      array (the last candidate when none is truthy), and the decoded count
      is the first truthy count candidate (the last when none is). */
  lemma DecodeChains(response: JsValue)
    requires !Nullish(response)
    ensures Decode(response).value.allDeals == AsArray(FirstTruthy(ListCandidates(response)))
    ensures Decode(response).value.totalCount == FirstTruthy(CountCandidates(response))
  {
    var ls, cs := ListCandidates(response), CountCandidates(response);
    assert ls[1..][1..] == ls[2..];
    assert cs[1..][1..] == cs[2..];
  }

  /** A response whose chosen list candidate is not an array yields no
      deals, whatever its count says. */
  lemma DecodeNoArray(response: JsValue)
    requires !Nullish(response)
    requires !FirstTruthy(ListCandidates(response)).Arr?
    ensures Decode(response).value.allDeals == []
  {
    DecodeChains(response);
  }

  /** The list and the count are looked up independently: a body that
      nests `{deals}` one level too deep under `data` beside a `total`
      yields no deals but keeps the count, so the page announces `count`
      deals and shows none. */
  lemma CountWithoutList(rows: seq<JsValue>, count: int)
    requires count != 0
    ensures var body := Obj(map["data" := Obj(map["deals" := Arr(rows)]), "total" := Num(count)]);
      var d := Decode(Obj(map["data" := body])).value;
      d.allDeals == [] && ActualTotal(d) == count
  {
    var body := Obj(map["data" := Obj(map["deals" := Arr(rows)]), "total" := Num(count)]);
    var response := Obj(map["data" := body]);
    assert Get(response, "data") == body;
    assert Get(body, "deals") == Undefined;
    assert Get(body, "total") == Num(count);
  }

  /** `startIndex = (pagination.page - 1) * pagination.limit` */
  function PageStart(page: int, limit: int): (start: int)
    requires page >= 1 && limit > 0
    ensures start >= 0
  {
    (page - 1) * limit
  }

  /** Each page starts where the one before it ends. */
  lemma NextPageStart(page: int, limit: int)
    requires page >= 1 && limit > 0
    ensures PageStart(page + 1, limit) == PageStart(page, limit) + limit
  {
  }

  /** `allDeals.slice(startIndex, startIndex + limit)`: the deals at
      positions `[startIndex, startIndex + limit)` that exist, in order. */
  function PageOf(all: seq<JsValue>, page: int, limit: int): (visible: seq<JsValue>)
    requires page >= 1 && limit > 0
    ensures |visible| <= limit
    ensures visible == all[Pagination.Min(PageStart(page, limit), |all|)..Pagination.Min(PageStart(page, limit) + limit, |all|)]
  {
    var startIndex := PageStart(page, limit);
    var endIndex := startIndex + limit;
    Slice(all, startIndex, endIndex)
  }

  /** The first `n` pages one after another. */
  function PagesUpTo(all: seq<JsValue>, limit: int, n: nat): seq<JsValue>
    requires limit > 0
  {
    if n == 0 then [] else PagesUpTo(all, limit, n - 1) + PageOf(all, n, limit)
  }

  /** The first `n` pages are the deals before the start of page `n + 1`. */
  lemma {:induction false} PagesUpToPrefix(all: seq<JsValue>, limit: int, n: nat)
    requires limit > 0
    ensures PagesUpTo(all, limit, n) == all[..Pagination.Min(PageStart(n + 1, limit), |all|)]
  {
    if n > 0 {
      PagesUpToPrefix(all, limit, n - 1);
      NextPageStart(n, limit);
      var a, b := Pagination.Min(PageStart(n, limit), |all|), Pagination.Min(PageStart(n + 1, limit), |all|);
      assert all[..a] + all[a..b] == all[..b];
    }
  }

  /** Paging through every page the count announces shows every deal
      exactly once, in order. */
  lemma PagesCoverAll(all: seq<JsValue>, limit: int)
    requires limit > 0
    ensures DealsList.TotalPages(|all|, limit) >= 0
    ensures PagesUpTo(all, limit, DealsList.TotalPages(|all|, limit)) == all
  {
    var n := DealsList.TotalPages(|all|, limit);
    PagesUpToPrefix(all, limit, n);
  }

  /** The result of one fetch: the visible deals, the error, the total and
      the page count. */
  datatype Fetched = Fetched(deals: seq<JsValue>, error: Option<string>, total: int, totalPages: int)

  /** What a fetch leaves behind: on an answer that decodes, the requested
      page of the list with the total and its page count and no error; on a
      rejection or an answer that cannot be decoded, no deals, a zero total
      and page count and the fixed error message. */
  function AfterFetch(outcome: Api.Outcome, page: int, limit: int): (r: Fetched)
    requires page >= 1 && limit > 0
    ensures r.error.None? <==> outcome.Resolved? && !Nullish(outcome.response)
    ensures r.error.Some? ==> r == Fetched([], Some(FetchErrorMessage), 0, 0)
  {
    var decoded := if outcome.Resolved? then Decode(outcome.response) else None;
    if decoded.Some? then
      var total := ActualTotal(decoded.value);
      Fetched(PageOf(decoded.value.allDeals, page, limit), None, total, DealsList.TotalPages(total, limit))
    else
      Fetched([], Some(FetchErrorMessage), 0, DealsList.TotalPages(0, limit))
  }

  /** After any fetch at most one page of deals is shown, and the stored
      page count is the one the list displays for the stored total; on
      success the deals shown are the requested page of the decoded list. */
  lemma FetchedConsistent(outcome: Api.Outcome, page: int, limit: int)
    requires page >= 1 && limit > 0
    ensures var r := AfterFetch(outcome, page, limit);
      |r.deals| <= limit
      && r.totalPages == DealsList.TotalPages(r.total, limit)
      && (r.error.None? ==>
            var d := Decode(outcome.response).value;
            r.deals == PageOf(d.allDeals, page, limit) && r.total == ActualTotal(d))
  {
  }

  /** The request the page sends for its state. */
  function RequestFor(search: string, filters: FilterPanel.FilterState, page: int, limit: int): map<string, JsValue>
  {
    Api.GetDealsParams(Some(CleanedParams(BuildParams(search, filters, page, limit))))
  }

  /** The request `fetchDeals` builds and cleans in place before handing it
      to `getDeals`. */
  method CleanRequest(search: string, filters: FilterPanel.FilterState, page: int, limit: int)
    returns (sent: map<string, JsValue>)
    ensures sent == RequestFor(search, filters, page, limit)
  {
    var params := BuildParams(search, filters, page, limit);
    params := RemoveEmptyParams(params);
    sent := Api.GetDealsParams(Some(params));
  }

  /** `handlePageChange`'s guard: the new page when it is one of the known
      pages, the current one otherwise. */
  function PageAfterChange(page: int, totalPages: int, newPage: int): (p: int)
    ensures 1 <= newPage <= totalPages ==> p == newPage
    ensures !(1 <= newPage <= totalPages) ==> p == page
  {
    if newPage >= 1 && newPage <= totalPages then newPage else page
  }

  /** The `pagination` state object. */
  datatype PaginationState = PaginationState(page: int, limit: int, total: int, totalPages: int)

  /** The page's state: one field per `useState` hook. */
  class DealsPageState {
    var deals: seq<JsValue>
    var loading: bool
    var error: Option<string>
    var searchQuery: string
    var filters: FilterPanel.FilterState
    var showFilters: bool
    var pagination: PaginationState

    /** Pages count from 1 and the page size is positive. */
    predicate Valid()
      reads this
    {
      pagination.page >= 1 && pagination.limit > 0
    }

    /** The initial state. */
    constructor()
      ensures Valid()
      ensures deals == [] && loading && error.None?
      ensures searchQuery == "" && filters == FilterPanel.Cleared && !showFilters
      ensures pagination == PaginationState(1, InitialLimit, 0, 0)
    {
      deals := [];
      loading := true;
      error := None;
      searchQuery := "";
      filters := FilterPanel.Cleared;
      showFilters := false;
      pagination := PaginationState(1, InitialLimit, 0, 0);
    }

    /** `searchQuery || Object.values(filters).some(f => f)` */
    predicate HasActiveFilters()
      reads this
      ensures HasActiveFilters() <==> searchQuery != "" || exists k :: FilterPanel.Get(filters, k) != ""
    {
      searchQuery != "" || FilterPanel.HasActiveFilters(filters)
    }

    /** `fetchDeals`: send the cleaned request through `getDeals` (the
        transport and the interceptor) and record what came back. */
    method FetchDeals(getDeals: map<string, JsValue> -> Api.Outcome)
      requires Valid()
      modifies this
      ensures Valid() && !loading
      ensures searchQuery == old(searchQuery) && filters == old(filters) && showFilters == old(showFilters)
      ensures var r := AfterFetch(getDeals(RequestFor(searchQuery, filters, pagination.page, pagination.limit)),
                                  pagination.page, pagination.limit);
        deals == r.deals && error == r.error
        && pagination == old(pagination).(total := r.total, totalPages := r.totalPages)
    {
      loading := true;
      var sent := CleanRequest(searchQuery, filters, pagination.page, pagination.limit);
      var outcome := getDeals(sent);
      var fetched := AfterFetch(outcome, pagination.page, pagination.limit);
      deals, error := fetched.deals, fetched.error;
      pagination := pagination.(total := fetched.total, totalPages := fetched.totalPages);
      loading := false;
    }

    /** `handlePageChange`: only a page between 1 and the known page count
        is taken. */
    method HandlePageChange(newPage: int)
      requires Valid()
      modifies this
      ensures Valid()
      ensures pagination == old(pagination).(page := PageAfterChange(old(pagination.page), old(pagination.totalPages), newPage))
      ensures deals == old(deals) && loading == old(loading) && error == old(error)
      ensures searchQuery == old(searchQuery) && filters == old(filters) && showFilters == old(showFilters)
    {
      if newPage >= 1 && newPage <= pagination.totalPages {
        pagination := pagination.(page := newPage);
      }
    }

    /** `handleLimitChange`: the new page size, back to the first page. */
    method HandleLimitChange(newLimit: int)
      requires Valid() && newLimit > 0
      modifies this
      ensures Valid()
      ensures pagination == old(pagination).(limit := newLimit, page := 1)
      ensures deals == old(deals) && loading == old(loading) && error == old(error)
      ensures searchQuery == old(searchQuery) && filters == old(filters) && showFilters == old(showFilters)
    {
      pagination := pagination.(limit := newLimit, page := 1);
    }

    /** `handleSearchChange` followed by the reset effect, which fires when
        the query string differs from the previous one. */
    method HandleSearchChange(query: string)
      requires Valid()
      modifies this
      ensures Valid()
      ensures searchQuery == query
      ensures pagination == if query != old(searchQuery) then old(pagination).(page := 1) else old(pagination)
      ensures deals == old(deals) && loading == old(loading) && error == old(error)
      ensures filters == old(filters) && showFilters == old(showFilters)
    {
      var previous := searchQuery;
      searchQuery := query;
      if searchQuery != previous {
        pagination := pagination.(page := 1);
      }
    }

    /** `handleFilterChange` followed by the reset effect: the panel always
        hands over a fresh record, so the page always goes back to 1. */
    method HandleFilterChange(newFilters: FilterPanel.FilterState)
      requires Valid()
      modifies this
      ensures Valid()
      ensures filters == newFilters && pagination == old(pagination).(page := 1)
      ensures deals == old(deals) && loading == old(loading) && error == old(error)
      ensures searchQuery == old(searchQuery) && showFilters == old(showFilters)
    {
      filters := newFilters;
      pagination := pagination.(page := 1);
    }

    /** `clearAllFilters`: empty search, every filter unset, the panel
        closed, the first page. */
    method ClearAllFilters()
      requires Valid()
      modifies this
      ensures Valid()
      ensures searchQuery == "" && filters == FilterPanel.Cleared && !showFilters
      ensures pagination == old(pagination).(page := 1)
      ensures !HasActiveFilters()
      ensures deals == old(deals) && loading == old(loading) && error == old(error)
    {
      searchQuery := "";
      filters := FilterPanel.Cleared;
      showFilters := false;
      pagination := pagination.(page := 1);
      FilterPanel.ChipsMatchActive(filters);
    }
  }
}
