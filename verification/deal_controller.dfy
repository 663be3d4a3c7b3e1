/**
 * The deals controller (server/controllers/dealController.js): the filter
 * record `fetchDeals` builds from the query string and hands to the model,
 * and the answer `getDealById` gives for a lookup. The store is cut away:
 * each handler receives what awaiting the database yields as a parameter.
 */
module DealController {
  import opened JsValues
  import DealsModel

  /** `req.query`: the parsed query string, one string per key. */
  type QueryParams = map<string, string>

  /** The query-string key each filter is read from. */
  function KeyOf(k: DealsModel.Field): string
  {
    match k
    case Search => "search"
    case Stage => "stage"
    case MinValue => "minValue"
    case MaxValue => "maxValue"
    case StartDate => "startDate"
    case EndDate => "endDate"
  }

  /** Different filters are read from different keys. */
  lemma KeysDistinct(j: DealsModel.Field, k: DealsModel.Field)
    ensures KeyOf(j) == KeyOf(k) <==> j == k
  {
    if KeyOf(j) == KeyOf(k) {
      assert KeyOf(j)[0] == KeyOf(k)[0];
      assert |KeyOf(j)| == |KeyOf(k)|;
    }
  }

  /** `req.query.<key> || null`: a missing or empty value becomes null. */
  function QueryValue(q: QueryParams, key: string): (r: Option<string>)
    ensures r.Some? <==> key in q && q[key] != ""
    ensures r.Some? ==> r.value == q[key]
  {
    if key in q && q[key] != "" then Some(q[key]) else None
  }

  /** The filter record `fetchDeals` passes to the model: six keys, each the
      query-string value when it is truthy and null otherwise. */
  function FilterFromQuery(q: QueryParams): (f: DealsModel.Filters)
    ensures forall k :: DealsModel.ValueOf(f, k) == QueryValue(q, KeyOf(k))
  {
    DealsModel.Filters(
      QueryValue(q, "search"),
      QueryValue(q, "stage"),
      QueryValue(q, "minValue"),
      QueryValue(q, "maxValue"),
      QueryValue(q, "startDate"),
      QueryValue(q, "endDate"))
  }

  /** The model appends a filter's clause exactly when the request carries a
      non-empty value for its key, and the model never sees an empty string. */
  lemma FilterPresence(q: QueryParams, k: DealsModel.Field)
    ensures k in DealsModel.PresentFields(FilterFromQuery(q)) <==> KeyOf(k) in q && q[KeyOf(k)] != ""
    ensures DealsModel.ValueOf(FilterFromQuery(q), k) != Some("")
  {
  }

  /** Keys other than the six filter keys (`page`, `limit`, anything else)
      do not reach the model. */
  lemma UnrelatedKeysIgnored(q: QueryParams, key: string, v: string)
    requires forall k :: KeyOf(k) != key
    ensures FilterFromQuery(q[key := v]) == FilterFromQuery(q)
  {
    var f, g := FilterFromQuery(q[key := v]), FilterFromQuery(q);
    forall k ensures DealsModel.ValueOf(f, k) == DealsModel.ValueOf(g, k) {
      assert KeyOf(k) != key;
    }
    assert DealsModel.ValueOf(f, DealsModel.Search) == DealsModel.ValueOf(g, DealsModel.Search);
    assert DealsModel.ValueOf(f, DealsModel.Stage) == DealsModel.ValueOf(g, DealsModel.Stage);
    assert DealsModel.ValueOf(f, DealsModel.MinValue) == DealsModel.ValueOf(g, DealsModel.MinValue);
    assert DealsModel.ValueOf(f, DealsModel.MaxValue) == DealsModel.ValueOf(g, DealsModel.MaxValue);
    assert DealsModel.ValueOf(f, DealsModel.StartDate) == DealsModel.ValueOf(g, DealsModel.StartDate);
    assert DealsModel.ValueOf(f, DealsModel.EndDate) == DealsModel.ValueOf(g, DealsModel.EndDate);
  }

  /** What awaiting the store yields: the result rows, or the error thrown. */
  datatype DbResult = Rows(rows: seq<JsValue>) | DbError(error: JsValue)

  /** What a handler does: answer with a status and a JSON body, or pass the
      error on with `next(err)`. */
  datatype Reply = Sent(status: int, body: JsValue) | Forwarded(error: JsValue)

  /** `res.json(...)` answers with status 200. */
  const Ok: int := 200
  const NotFound: int := 404

  /** `fetchDeals`: normalise the filters, build the query, answer with the
      rows unchanged or forward the store's error. `execute` stands for the
      database call. */
  method FetchDeals(q: QueryParams, execute: (string, seq<string>) -> DbResult) returns (reply: Reply)
    ensures var f := FilterFromQuery(q);
      var result := execute(DealsModel.QueryText(DealsModel.PresentFields(f)), DealsModel.Bindings(f));
      (result.Rows? ==> reply == Sent(Ok, Arr(result.rows)))
      && (result.DbError? ==> reply == Forwarded(result.error))
  {
    var filters := FilterFromQuery(q);
    var query, values := DealsModel.BuildQuery(filters);
    var result := execute(query, values);
    match result
    case Rows(rows) =>
      reply := Sent(Ok, Arr(rows));
    case DbError(err) =>
      reply := Forwarded(err);
  }

  /** The lookup `getDealById` sends for an id. */
  const ByIdQuery: string := "SELECT * FROM deals WHERE id = ?"

  /** The body of the 404 answer. */
  const NotFoundBody: JsValue := Obj(map["message" := Str("Deal not found")])

  /** `getDealById` with the store in scope: no row is a 404, otherwise the
      first row; a store error is forwarded. */
  function GetDealById(id: string, lookup: (string, seq<string>) -> DbResult): (reply: Reply)
    ensures lookup(ByIdQuery, [id]).DbError? ==> reply == Forwarded(lookup(ByIdQuery, [id]).error)
    ensures lookup(ByIdQuery, [id]).Rows? && |lookup(ByIdQuery, [id]).rows| == 0 ==>
      reply == Sent(NotFound, NotFoundBody)
    ensures lookup(ByIdQuery, [id]).Rows? && |lookup(ByIdQuery, [id]).rows| > 0 ==>
      reply == Sent(Ok, lookup(ByIdQuery, [id]).rows[0])
  {
    match lookup(ByIdQuery, [id])
    case DbError(err) => Forwarded(err)
    case Rows(rows) => if |rows| == 0 then Sent(NotFound, NotFoundBody) else Sent(Ok, rows[0])
  }

  /** The error evaluating an identifier that is not in scope throws. */
  const PoolNotDefined: JsValue :=
    Obj(map["name" := Str("ReferenceError"), "message" := Str("pool is not defined")])

  /** `getDealById` as written: `pool` is not imported in the controller, so
      the first statement that touches it throws and every request is
      forwarded to the error handler, whatever the store holds. */
  function GetDealByIdAsWritten(id: string, lookup: (string, seq<string>) -> DbResult): (reply: Reply)
    ensures reply == Forwarded(PoolNotDefined)
  {
    Forwarded(PoolNotDefined)
  }

  /** A stored deal that the handler as written never returns, while the
      handler with the store in scope answers 200 with it. */
  lemma PoolImportMissing()
    ensures var row := Obj(map["id" := Str("1")]);
      var lookup := (query: string, binds: seq<string>) => Rows([row]);
      GetDealById("1", lookup) == Sent(Ok, row)
      && GetDealByIdAsWritten("1", lookup) != GetDealById("1", lookup)
  {
    var row := Obj(map["id" := Str("1")]);
    var lookup := (query: string, binds: seq<string>) => Rows([row]);
    assert lookup(ByIdQuery, ["1"]).rows == [row];
  }

  /** With the store in scope, a found deal and a missing one are told apart
      by the status, and only a store failure reaches the error handler. */
  lemma ByIdStatuses(id: string, lookup: (string, seq<string>) -> DbResult)
    ensures GetDealById(id, lookup).Sent? <==> lookup(ByIdQuery, [id]).Rows?
    ensures GetDealById(id, lookup).Sent? ==>
      (GetDealById(id, lookup).status == NotFound <==> lookup(ByIdQuery, [id]).rows == [])
  {
  }
}
