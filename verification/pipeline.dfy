/**
 * The search, filter and paginate round trip across the components: the
 * page's request reaches the controller's filter record, the server's answer
 * comes back as the visible page, and every button the pagination control
 * renders is one the page's guard accepts.
 */
module Pipeline {
  import opened JsValues
  import opened JsStrings
  import DealsModel
  import DealController
  import FilterPanel
  import DealsPage
  import DealsList
  import Pagination
  import Api

  /** A request parameter as it travels in the query string: a string as
      itself, a number as its decimal text. */
  function ParamText(v: JsValue): (t: string)
    requires v.Str? || v.Num?
    ensures v.Str? ==> t == v.s
    ensures v.Num? ==> t == IntToString(v.n) && ParseInt(t) == v.n
  {
    if v.Str? then v.s
    else
      IntToStringRoundTrip(v.n);
      IntToString(v.n)
  }

  /** The query string the server parses from the page's parameters. */
  function QueryString(params: map<string, JsValue>): (q: DealController.QueryParams)
    requires forall key :: key in params ==> params[key].Str? || params[key].Num?
    ensures q.Keys == params.Keys
    ensures forall key :: key in params ==> q[key] == ParamText(params[key])
  {
    map key | key in params :: ParamText(params[key])
  }

  /** The page's own value for each of the server's filters. */
  function ClientValue(search: string, filters: FilterPanel.FilterState, k: DealsModel.Field): string
  {
    match k
    case Search => search
    case Stage => filters.stage
    case MinValue => filters.minValue
    case MaxValue => filters.maxValue
    case StartDate => filters.startDate
    case EndDate => filters.endDate
  }

  /** What the page asks for is what the server filters by: each filter the
      page holds a non-empty value for arrives with that value, every other
      filter arrives as null. */
  lemma RequestReachesServer(search: string, filters: FilterPanel.FilterState, page: int, limit: int)
    requires page >= 1 && limit > 0
    ensures var sent := DealsPage.RequestFor(search, filters, page, limit);
      (forall key :: key in sent ==> sent[key].Str? || sent[key].Num?)
      && var f := DealController.FilterFromQuery(QueryString(sent));
      forall k :: DealsModel.ValueOf(f, k)
                  == if ClientValue(search, filters, k) != "" then Some(ClientValue(search, filters, k)) else None
  {
    var sent := DealsPage.RequestFor(search, filters, page, limit);
    var q := QueryString(sent);
    DealsPage.RequestKeys(search, filters, page, limit);
    var params := DealsPage.BuildParams(search, filters, page, limit);
    forall k
      ensures DealController.QueryValue(q, DealController.KeyOf(k))
              == if ClientValue(search, filters, k) != "" then Some(ClientValue(search, filters, k)) else None
    {
      var key := DealController.KeyOf(k);
      assert params[key] == Str(ClientValue(search, filters, k)) by {
        match k
        case Search =>
        case Stage => assert key == DealsPage.FilterParamName(FilterPanel.StageKey);
        case MinValue => assert key == DealsPage.FilterParamName(FilterPanel.MinValueKey);
        case MaxValue => assert key == DealsPage.FilterParamName(FilterPanel.MaxValueKey);
        case StartDate => assert key == DealsPage.FilterParamName(FilterPanel.StartDateKey);
        case EndDate => assert key == DealsPage.FilterParamName(FilterPanel.EndDateKey);
      }
      if key in sent {
        assert sent[key] == params[key];
      }
    }
  }

  /** Hence the SQL the server runs has a clause exactly for the filters the
      page holds a non-empty value for. */
  lemma RequestClauses(search: string, filters: FilterPanel.FilterState, page: int, limit: int)
    requires page >= 1 && limit > 0
    ensures var sent := DealsPage.RequestFor(search, filters, page, limit);
      (forall key :: key in sent ==> sent[key].Str? || sent[key].Num?)
      && var f := DealController.FilterFromQuery(QueryString(sent));
      forall k :: k in DealsModel.PresentFields(f) <==> ClientValue(search, filters, k) != ""
  {
    RequestReachesServer(search, filters, page, limit);
  }

  /** The axios response around an answer the server sent. */
  function AxiosResponse(status: int, body: JsValue): (response: JsValue)
    ensures response.Obj? && "data" in response.fields && response.fields["data"] == body
    ensures "total" !in response.fields
  {
    Obj(map["data" := body, "status" := Num(status)])
  }

  /** The server's rows come back as the requested page of those rows, with
      their number as the total and the matching page count. */
  lemma ServerRowsShown(rows: seq<JsValue>, page: int, limit: int)
    requires page >= 1 && limit > 0
    ensures var r := DealsPage.AfterFetch(Api.Resolved(AxiosResponse(DealController.Ok, Arr(rows))), page, limit);
      r.error.None?
      && r.deals == DealsPage.PageOf(rows, page, limit)
      && r.total == |rows|
      && r.totalPages == DealsList.TotalPages(|rows|, limit)
  {
    var response := AxiosResponse(DealController.Ok, Arr(rows));
    DealsPage.DecodeServerArray(response.fields, rows);
    DealsPage.FetchedConsistent(Api.Resolved(response), page, limit);
  }

  /** Every button the pagination control renders for the page's state is
      taken by `handlePageChange`: the window, the two shortcuts and the
      enabled Previous and Next; the disabled ones would be ignored. */
  lemma RenderedButtonsAccepted(page: int, total: int, limit: int)
    requires limit > 0
    requires DealsList.ShowPagination(total, limit)
    ensures var totalPages := DealsList.TotalPages(total, limit);
      var pages := Pagination.PageNumbers(page, totalPages);
      (forall p :: p in pages ==> DealsPage.PageAfterChange(page, totalPages, p) == p)
      && (Pagination.LeadingShortcut(pages) ==> DealsPage.PageAfterChange(page, totalPages, 1) == 1)
      && (Pagination.TrailingShortcut(pages, totalPages) ==>
            DealsPage.PageAfterChange(page, totalPages, totalPages) == totalPages)
      && (1 <= page <= totalPages && !Pagination.PrevDisabled(page) ==>
            DealsPage.PageAfterChange(page, totalPages, page - 1) == page - 1)
      && (1 <= page <= totalPages && !Pagination.NextDisabled(page, totalPages) ==>
            DealsPage.PageAfterChange(page, totalPages, page + 1) == page + 1)
      && (Pagination.PrevDisabled(page) ==> DealsPage.PageAfterChange(page, totalPages, page - 1) == page)
      && (Pagination.NextDisabled(page, totalPages) ==> DealsPage.PageAfterChange(page, totalPages, page + 1) == page)
  {
    DealsList.ShowPaginationIffSeveralPages(total, limit);
    var totalPages := DealsList.TotalPages(total, limit);
    var pages := Pagination.PageNumbers(page, totalPages);
    forall p | p in pages
      ensures 1 <= p <= totalPages
    {
      var i :| 0 <= i < |pages| && pages[i] == p;
      assert pages[i] == pages[0] + i;
    }
  }

  /** Twenty-five deals at ten per page: three pages, the control shown
      with all three buttons, and five deals on the last page. */
  lemma TwentyFiveDeals(rows: seq<JsValue>)
    requires |rows| == 25
    ensures DealsList.TotalPages(|rows|, 10) == 3
    ensures DealsList.ShowPagination(|rows|, 10)
    ensures Pagination.PageNumbers(1, 3) == [1, 2, 3]
    ensures DealsPage.PageOf(rows, 3, 10) == rows[20..25]
    ensures DealsPage.PageOf(rows, 4, 10) == []
  {
    var pages := Pagination.PageNumbers(1, 3);
    assert pages[0] == 1 && pages[1] == 2 && pages[2] == 3;
  }
}
