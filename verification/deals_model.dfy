/**
 * The server's filtered read (server/models/Deals.js): the SQL text and the
 * positional bind list built from six optional filters. The query is cut at
 * the database boundary: what the store does with the text is not modelled.
 */
module DealsModel {
  import opened JsValues
  import opened JsStrings

  /** The filter record handed to the model: each field is `null` or a
      query-string value. */
  datatype Filters = Filters(
    search: Option<string>,
    stage: Option<string>,
    minValue: Option<string>,
    maxValue: Option<string>,
    startDate: Option<string>,
    endDate: Option<string>)

  /** The six filters, by name. */
  datatype Field = Search | Stage | MinValue | MaxValue | StartDate | EndDate

  /** The order in which the clauses are tested and appended. */
  const FieldOrder: seq<Field> := [Search, Stage, MinValue, MaxValue, StartDate, EndDate]

  /** The positional placeholder; each clause below is its fixed text with
      this spliced in, e.g. StageClause is " AND stage = ?". */
  const Placeholder: string := "?"

  const Base: string := "SELECT * FROM deals WHERE 1=1"
  const SearchClause: string :=
    " AND (name LIKE " + Placeholder + " OR contact_name LIKE " + Placeholder
    + " OR company LIKE " + Placeholder + ")"
  const StageClause: string := " AND stage = " + Placeholder
  const MinValueClause: string := " AND value >= " + Placeholder
  const MaxValueClause: string := " AND value <= " + Placeholder
  /** The start date bounds `created_at` ... */
  const StartDateClause: string := " AND created_at >= " + Placeholder
  /** ... while the end date bounds `close_date`. */
  const EndDateClause: string := " AND close_date <= " + Placeholder
  const OrderBy: string := " ORDER BY created_at DESC"

  function ValueOf(f: Filters, k: Field): Option<string>
  {
    match k
    case Search => f.search
    case Stage => f.stage
    case MinValue => f.minValue
    case MaxValue => f.maxValue
    case StartDate => f.startDate
    case EndDate => f.endDate
  }

  /** `if (filters.x)`: null and '' are falsy. */
  predicate IsTruthy(v: Option<string>)
  {
    v.Some? && v.value != ""
  }

  /** The filters whose clause is appended. */
  function PresentFields(f: Filters): (present: set<Field>)
    ensures forall k :: k in present <==> IsTruthy(ValueOf(f, k))
  {
    set k: Field | IsTruthy(ValueOf(f, k))
  }

  function ClauseOf(k: Field): string
  {
    match k
    case Search => SearchClause
    case Stage => StageClause
    case MinValue => MinValueClause
    case MaxValue => MaxValueClause
    case StartDate => StartDateClause
    case EndDate => EndDateClause
  }

  /** The `%value%` pattern bound to each of the three LIKE placeholders. */
  function LikePattern(v: string): string
  {
    "%" + v + "%"
  }

  /** The values a present filter pushes: three copies of the LIKE pattern
      for the search, the raw value for the others. */
  function BindsOf(k: Field, v: string): seq<string>
  {
    if k == Search then [LikePattern(v), LikePattern(v), LikePattern(v)] else [v]
  }

  /** The query text after testing the filters of `ks` in turn: the base
      followed by the clause of each present one, in the order of `ks`. */
  function QueryPrefix(ks: seq<Field>, present: set<Field>): string
  {
    if ks == [] then Base
    else
      var k := ks[|ks| - 1];
      var before := QueryPrefix(ks[..|ks| - 1], present);
      if k in present then before + ClauseOf(k) else before
  }

  /** The values pushed for the filters of `ks`, in the order of `ks`. */
  function BindList(ks: seq<Field>, f: Filters): seq<string>
  {
    if ks == [] then []
    else
      var k := ks[|ks| - 1];
      var v := ValueOf(f, k);
      var before := BindList(ks[..|ks| - 1], f);
      if IsTruthy(v) then before + BindsOf(k, v.value) else before
  }

  /** The query text: a function of WHICH filters are present only; no
      filter value is an argument, so none can reach the text. */
  function QueryText(present: set<Field>): string
  {
    QueryPrefix(FieldOrder, present) + OrderBy
  }

  /** The bind list. */
  function Bindings(f: Filters): seq<string>
  {
    BindList(FieldOrder, f)
  }

  /** Number of `?` placeholders in a text. */
  function Placeholders(s: string): nat
  {
    Count(s, '?')
  }

  /** Builds the query with six sequential tests, appending a clause to the
      text and its values to the bind list for each truthy filter, then the
      ordering. */
  method BuildQuery(filters: Filters) returns (query: string, values: seq<string>)
    ensures query == QueryText(PresentFields(filters))
    ensures values == Bindings(filters)
    ensures Placeholders(query) == |values|
  {
    ghost var query0: string, values0: seq<string>;
    query := Base;
    values := [];

    query0, values0 := query, values;
    if IsTruthy(filters.search) {
      query := query + SearchClause;
      var pattern := LikePattern(filters.search.value);
      values := values + [pattern, pattern, pattern];
    }
    Step(0, 1, filters, query0, values0, query, values);

    query0, values0 := query, values;
    if IsTruthy(filters.stage) {
      query := query + StageClause;
      values := values + [filters.stage.value];
    }
    Step(1, 2, filters, query0, values0, query, values);

    query0, values0 := query, values;
    if IsTruthy(filters.minValue) {
      query := query + MinValueClause;
      values := values + [filters.minValue.value];
    }
    Step(2, 3, filters, query0, values0, query, values);

    query0, values0 := query, values;
    if IsTruthy(filters.maxValue) {
      query := query + MaxValueClause;
      values := values + [filters.maxValue.value];
    }
    Step(3, 4, filters, query0, values0, query, values);

    query0, values0 := query, values;
    if IsTruthy(filters.startDate) {
      query := query + StartDateClause;
      values := values + [filters.startDate.value];
    }
    Step(4, 5, filters, query0, values0, query, values);

    query0, values0 := query, values;
    if IsTruthy(filters.endDate) {
      query := query + EndDateClause;
      values := values + [filters.endDate.value];
    }
    Step(5, 6, filters, query0, values0, query, values);

    assert FieldOrder[..6] == FieldOrder;
    query := query + OrderBy;
    PlaceholdersMatchBindings(filters);
  }

  /** The filter at position `i` tested: if the text and the bind list were
      those of the filters before it, then growing them by its part when it
      is truthy (and leaving them alone otherwise) gives those of the filters
      up to and including it. */
  lemma Step(i: nat, next: nat, f: Filters, query0: string, values0: seq<string>, query: string, values: seq<string>)
    requires next == i + 1 <= |FieldOrder|
    requires query0 == QueryPrefix(FieldOrder[..i], PresentFields(f))
    requires values0 == BindList(FieldOrder[..i], f)
    requires IsTruthy(ValueOf(f, FieldOrder[i])) ==> query == query0 + ClauseOf(FieldOrder[i])
    requires IsTruthy(ValueOf(f, FieldOrder[i])) ==> values == values0 + BindsOf(FieldOrder[i], ValueOf(f, FieldOrder[i]).value)
    requires !IsTruthy(ValueOf(f, FieldOrder[i])) ==> query == query0 && values == values0
    ensures query == QueryPrefix(FieldOrder[..next], PresentFields(f))
    ensures values == BindList(FieldOrder[..next], f)
  {
    assert FieldOrder[..next][..i] == FieldOrder[..i];
  }

  /** Text, one placeholder, more text: one placeholder more than the rest. */
  lemma OnePlaceholder(piece: string, rest: string)
    requires '?' !in piece
    ensures Placeholders(piece + Placeholder + rest) == 1 + Placeholders(rest)
  {
    CountAbsent(piece, '?');
    CountAppend(piece, Placeholder, '?');
    CountAppend(piece + Placeholder, rest, '?');
  }

  /** Appending placeholder-free text adds no placeholder. */
  lemma AppendPlaceholderFree(text: string, tail: string)
    requires '?' !in tail
    ensures Placeholders(text + tail) == Placeholders(text)
  {
    CountAbsent(tail, '?');
    CountAppend(text, tail, '?');
  }

  /** Each clause carries as many placeholders as its filter pushes values. */
  lemma ClausePlaceholders(k: Field, v: string)
    ensures Placeholders(ClauseOf(k)) == |BindsOf(k, v)|
  {
    assert Placeholders("") == 0;
    match k
    case Search =>
      var tail := " OR company LIKE " + Placeholder + ")";
      var middle := " OR contact_name LIKE " + Placeholder + tail;
      CountAbsent(")", '?');
      OnePlaceholder(" OR company LIKE ", ")");
      OnePlaceholder(" OR contact_name LIKE ", tail);
      OnePlaceholder(" AND (name LIKE ", middle);
      assert SearchClause == " AND (name LIKE " + Placeholder + middle;
    case Stage =>
      OnePlaceholder(" AND stage = ", "");
      assert StageClause == " AND stage = " + Placeholder + "";
    case MinValue =>
      OnePlaceholder(" AND value >= ", "");
      assert MinValueClause == " AND value >= " + Placeholder + "";
    case MaxValue =>
      OnePlaceholder(" AND value <= ", "");
      assert MaxValueClause == " AND value <= " + Placeholder + "";
    case StartDate =>
      OnePlaceholder(" AND created_at >= ", "");
      assert StartDateClause == " AND created_at >= " + Placeholder + "";
    case EndDate =>
      OnePlaceholder(" AND close_date <= ", "");
      assert EndDateClause == " AND close_date <= " + Placeholder + "";
  }

  /** Placeholders and bind values stay aligned clause by clause: after any
      prefix of the filters the two counts agree, so the n-th `?` is bound to
      the n-th value and both belong to the same filter. */
  lemma {:induction false} PlaceholdersAligned(ks: seq<Field>, f: Filters)
    ensures Placeholders(QueryPrefix(ks, PresentFields(f))) == |BindList(ks, f)|
  {
    if ks == [] {
      CountAbsent(Base, '?');
    } else {
      var k := ks[|ks| - 1];
      var init := ks[..|ks| - 1];
      PlaceholdersAligned(init, f);
      if IsTruthy(ValueOf(f, k)) {
        CountAppend(QueryPrefix(init, PresentFields(f)), ClauseOf(k), '?');
        ClausePlaceholders(k, ValueOf(f, k).value);
      }
    }
  }

  /** The placeholder count of the whole query equals the bind count. */
  lemma PlaceholdersMatchBindings(f: Filters)
    ensures Placeholders(QueryText(PresentFields(f))) == |Bindings(f)|
  {
    PlaceholdersAligned(FieldOrder, f);
    AppendPlaceholderFree(QueryPrefix(FieldOrder, PresentFields(f)), OrderBy);
  }

  /** The query text cannot tell apart two filter records that agree on
      which filters are truthy. */
  lemma QueryIgnoresValues(f: Filters, g: Filters)
    requires forall k :: IsTruthy(ValueOf(f, k)) <==> IsTruthy(ValueOf(g, k))
    ensures QueryText(PresentFields(f)) == QueryText(PresentFields(g))
  {
    assert PresentFields(f) == PresentFields(g);
  }

  /** With no truthy filter the query is the bare select with its ordering
      and nothing is bound. */
  lemma NoFilters(f: Filters)
    requires forall k :: !IsTruthy(ValueOf(f, k))
    ensures QueryText(PresentFields(f)) == Base + OrderBy
    ensures Bindings(f) == []
  {
    assert PresentFields(f) == {};
    NoneTested(FieldOrder, f);
  }

  lemma {:induction false} NoneTested(ks: seq<Field>, f: Filters)
    requires forall k :: !IsTruthy(ValueOf(f, k))
    ensures QueryPrefix(ks, PresentFields(f)) == Base
    ensures BindList(ks, f) == []
  {
    if ks != [] {
      NoneTested(ks[..|ks| - 1], f);
    }
  }

  /** Testing more filters only appends: the text and the bind list after a
      prefix of the filters are prefixes of the final ones. */
  lemma {:induction false} PrefixGrows(ks: seq<Field>, i: nat, f: Filters)
    requires i <= |ks|
    ensures QueryPrefix(ks[..i], PresentFields(f)) <= QueryPrefix(ks, PresentFields(f))
    ensures BindList(ks[..i], f) <= BindList(ks, f)
  {
    if i < |ks| {
      var init := ks[..|ks| - 1];
      assert init[..i] == ks[..i];
      PrefixGrows(init, i, f);
    } else {
      assert ks[..i] == ks;
    }
  }

  /** A truthy search contributes the first clause after the base and the
      first three bind values, all three the same `%search%` pattern. */
  lemma SearchFirst(f: Filters)
    requires IsTruthy(f.search)
    ensures Base + SearchClause <= QueryText(PresentFields(f))
    ensures |Bindings(f)| >= 3
    ensures Bindings(f)[..3] == [LikePattern(f.search.value), LikePattern(f.search.value), LikePattern(f.search.value)]
  {
    PrefixGrows(FieldOrder, 1, f);
    var one := FieldOrder[..1];
    assert one[..0] == [];
    assert QueryPrefix(one, PresentFields(f)) == Base + SearchClause;
    assert BindList(one, f) == [LikePattern(f.search.value), LikePattern(f.search.value), LikePattern(f.search.value)];
  }
}
