# Deals: search, filter and paginate

This is a Dafny model of the deal list of a small deals CRM. It follows one request from start to finish:

- The deals page (`DealsPage.jsx`) holds the search text, five filters and a pagination record.
- It builds a request from them and drops the empty parameters.
- It sends the request through an axios client whose response interceptor rewrites error messages (`api.js`).
- On the server, the controller reads the query string into a filter record (`dealController.js`).
- The model layer turns that record into a parameterised SQL query (`Deals.js`).
- The rows come back, and the page decodes the answer.
- The page cuts the requested page out of the full list and stores the total and the page count.
- The list (`DealsList.jsx`) decides whether to show the pagination control. That control (`Pagination.jsx`) renders a window of page buttons, with shortcuts and ellipses.
- The filter panel (`FilterPanel.jsx`) edits the filters and shows removable chips.
- The card (`DealCard.jsx`) and the shared formatters (`formatters.js`) render values.

Modules, one per source file, plus two shared ones and one cross-component module:

- `JsValues`: the JavaScript values the code handles (`undefined`, `null`, booleans, integers, strings, arrays, objects), truthiness, `||`, property reads and `Array.prototype.slice` index clamping.
- `JsStrings`: character classes, ASCII case mapping, `split`/`join`, `trim`, whitespace collapsing, digit extraction and decimal integer text.
- `DealsModel`: `getFilteredDeals`. `BuildQuery` has the six sequential `if` blocks. It is proved against `QueryText`, a function of the *set* of present filters only, and against `Bindings`.
- `DealController`: `fetchDeals` and `getDealById`. The database is a function parameter.
- `DealsPage`: the page as a class with one field per state hook. The request, decoding, slicing and failure logic are functions. Each handler is a method.
- `Pagination`, `DealsList`, `DealCard`, `FilterPanel`, `Formatters`, `Api`: the component logic named above.
- `Pipeline`: the properties that span components. What the page sends is what the server filters by. The server's rows come back as the requested page. Every rendered page button is accepted by the page's guard.

## Model

| member | source | states |
|---|---|---|
| DealsModel.PresentFields | server/models/Deals.js:7-30 | a filter contributes a clause exactly when its value is truthy (not null, not '') |
| DealsModel.BuildQuery | server/models/Deals.js:3-32 | the built text is the base, then the clause of each truthy filter in the fixed order search, stage, min, max, start date, end date, then the ordering; the binds are the matching values; the number of `?` placeholders equals the number of binds |
| DealsModel.Step | server/models/Deals.js:7-30 | each `if` block extends the text and the bind list by the next filter's clause and values exactly when that filter is truthy |
| DealsModel.ClausePlaceholders | server/models/Deals.js:8-9 | each clause has as many placeholders as its filter pushes values (three for the search, one for the others) |
| DealsModel.PlaceholdersAligned | server/models/Deals.js:7-30 | after every prefix of the filters, placeholder count and bind count agree, so each `?` is bound to its own filter's value |
| DealsModel.PlaceholdersMatchBindings | server/models/Deals.js:4-34 | the query handed to `execute` has exactly as many placeholders as values |
| DealsModel.QueryIgnoresValues | server/models/Deals.js:7-30 | the SQL text depends only on which filters are truthy, never on their values, so no filter value reaches the text |
| DealsModel.NoFilters | server/models/Deals.js:4-32 | with no truthy filter the query is `SELECT * FROM deals WHERE 1=1 ORDER BY created_at DESC` with no binds |
| DealsModel.NoneTested | server/models/Deals.js:4-30 | when no filter is truthy, no `if` block changes the text or the binds |
| DealsModel.PrefixGrows | server/models/Deals.js:7-30 | the blocks only append: the text and binds after any prefix of the filters are prefixes of the final ones |
| DealsModel.SearchFirst | server/models/Deals.js:7-10 | a truthy search gives the first clause after the base and the first three binds, each `%search%` |
| DealController.KeysDistinct | server/controllers/dealController.js:6-13 | the six filters are read from six distinct query keys |
| DealController.QueryValue | server/controllers/dealController.js:7-12 | `req.query.<key> or null` is the value when present and non-empty, null otherwise |
| DealController.FilterFromQuery | server/controllers/dealController.js:6-13 | each filter of the record is the value of its own query key, or null when it is missing or empty |
| DealController.FilterPresence | server/controllers/dealController.js:6-15 | the model adds a clause exactly for the keys the request carries non-empty, and never receives '' |
| DealController.UnrelatedKeysIgnored | server/controllers/dealController.js:6-13 | keys other than the six filter keys (`page`, `limit`, ...) do not change the filter record |
| DealController.FetchDeals | server/controllers/dealController.js:4-20 | the store runs the query and binds of the filter record; rows are answered with status 200 unchanged; a store error is passed to `next` |
| DealController.GetDealById | server/controllers/dealController.js:24-33 | with the store in scope: no row gives 404 `{message: "Deal not found"}`, otherwise 200 with the first row; a store error is passed to `next` |
| DealController.GetDealByIdAsWritten | server/controllers/dealController.js:27 | as written, every request is passed to `next` with a ReferenceError, because `pool` is not imported |
| DealController.PoolImportMissing | server/controllers/dealController.js:27 | a stored deal that the handler with the store in scope returns with 200, while the handler as written does not |
| DealController.ByIdStatuses | server/controllers/dealController.js:27-32 | with the store in scope, a reply is sent exactly when the store answers, and it is 404 exactly when no row matched |
| DealsPage.BuildParams | client/src/pages/DealsPage.jsx:34-39 | the request has exactly the keys search, the five filters, page and limit, holding the state's values |
| DealsPage.CleanedParams | client/src/pages/DealsPage.jsx:41-46 | a key survives cleaning exactly when its value is truthy or the number 0, and keeps its value |
| DealsPage.RemoveEmptyParams | client/src/pages/DealsPage.jsx:42-46 | the delete loop over the keys leaves exactly the cleaned parameters |
| DealsPage.CleanedParamsIdempotent | client/src/pages/DealsPage.jsx:41-46 | cleaning a cleaned request changes nothing |
| DealsPage.RequestKeys | client/src/pages/DealsPage.jsx:34-46 | in a valid state the request always carries page and limit; it carries the search and each filter exactly when not ''; it carries no other key |
| DealsPage.AsArray | client/src/pages/DealsPage.jsx:64-67 | a non-array list is replaced by the empty array |
| DealsPage.Decode | client/src/pages/DealsPage.jsx:51-67 | decoding fails (lands in `catch`) exactly when the response is null or undefined |
| DealsPage.ActualTotal | client/src/pages/DealsPage.jsx:75 | a non-zero numeric count is the total; a falsy count falls back to the list length |
| DealsPage.DecodeServerArray | client/src/pages/DealsPage.jsx:53-75 | an axios response around the server's bare array decodes to that array, with its length as the total |
| DealsPage.DecodeNestedDeals | client/src/pages/DealsPage.jsx:53-56 | a body `{deals, total}` decodes to its list and its count |
| DealsPage.DecodeBareArray | client/src/pages/DealsPage.jsx:58-60 | a bare array with no `data` field is taken as the list |
| DealsPage.FirstTruthy | client/src/pages/DealsPage.jsx:55-60 | a chain of JavaScript or-operators, as a reference definition: the first truthy candidate, or the last one when none is truthy |
| DealsPage.DecodeChains | client/src/pages/DealsPage.jsx:53-67 | for every non-nullish response: the list is the first truthy of `data.deals`, `data.data`, `data` (truthy `data`) or of `deals`, the response (otherwise), kept only when it is an array; the count is the first truthy of `data.total`, `data.totalCount`, `total` (truthy `data`) or of `total`, `totalCount` (otherwise) |
| DealsPage.DecodeNoArray | client/src/pages/DealsPage.jsx:53-67 | for every non-nullish response whose chosen list candidate is not an array, the list is empty |
| DealsPage.CountWithoutList | client/src/pages/DealsPage.jsx:53-75 | list and count are looked up independently: a body `{data: {deals: rows}, total: n}` yields no deals but a total of n |
| DealsPage.PageStart | client/src/pages/DealsPage.jsx:70 | the start index of a page is never negative |
| DealsPage.NextPageStart | client/src/pages/DealsPage.jsx:70-71 | each page starts where the previous one ends |
| DealsPage.PageOf | client/src/pages/DealsPage.jsx:70-72 | the visible deals are the existing entries at positions `[(page-1)*limit, page*limit)` in order, at most `limit` of them |
| DealsPage.PagesUpToPrefix | client/src/pages/DealsPage.jsx:70-72 | the first n pages, one after another, are the list up to the start of page n+1 |
| DealsPage.PagesCoverAll | client/src/pages/DealsPage.jsx:70-86 | paging through all `ceil(length/limit)` pages shows every deal exactly once, in order |
| DealsPage.AfterFetch | client/src/pages/DealsPage.jsx:53-98 | the error is unset exactly when the request resolved with a non-nullish response; on failure the result is no deals, the fixed message, total 0 and page count 0 |
| DealsPage.FetchedConsistent | client/src/pages/DealsPage.jsx:70-98 | after any fetch at most `limit` deals are shown and the page count is `ceil(total/limit)`; on success the deals are the requested page of the decoded list and the total is its actual total |
| DealsPage.CleanRequest | client/src/pages/DealsPage.jsx:34-48 | the request handed to `getDeals` is the built, cleaned parameter map |
| DealsPage.PageAfterChange | client/src/pages/DealsPage.jsx:128-133 | a page between 1 and the page count is taken, any other leaves the page unchanged |
| DealsPage.DealsPageState.constructor | client/src/pages/DealsPage.jsx:12-29 | the initial state: no deals, loading, no error, empty search and filters, panel closed, page 1 of size 10 with total and page count 0 |
| DealsPage.DealsPageState.HasActiveFilters | client/src/pages/DealsPage.jsx:156 | filters count as active exactly when the search or some filter is not '' |
| DealsPage.DealsPageState.FetchDeals | client/src/pages/DealsPage.jsx:31-102 | deals, error, total and page count become those of `AfterFetch` on the outcome of the cleaned request; page, limit, search, filters and panel are unchanged; loading ends false |
| DealsPage.DealsPageState.HandlePageChange | client/src/pages/DealsPage.jsx:128-133 | only the page changes, and only to a page between 1 and the page count |
| DealsPage.DealsPageState.HandleLimitChange | client/src/pages/DealsPage.jsx:135-141 | the page size changes and the page returns to 1; nothing else changes |
| DealsPage.DealsPageState.HandleSearchChange | client/src/pages/DealsPage.jsx:105-107 | the search is replaced; the reset effect returns to page 1 exactly when the search text changed |
| DealsPage.DealsPageState.HandleFilterChange | client/src/pages/DealsPage.jsx:123-126 | the filters are replaced; the page always returns to 1, because the panel hands over a fresh object |
| DealsPage.DealsPageState.ClearAllFilters | client/src/pages/DealsPage.jsx:143-154 | search and filters are emptied, the panel closes and the page returns to 1, after which no filter is active |
| Pagination.Range | client/src/components/DealsList/Pagination.jsx:26-28 | the consecutive pages from lo to hi |
| Pagination.PageNumbers | client/src/components/DealsList/Pagination.jsx:5-32 | every page when there are at most five; otherwise five consecutive valid pages around the current one (from 1 near the start, ending at the last page near the end); the current page is listed exactly when it is valid |
| Pagination.GetPageNumbers | client/src/components/DealsList/Pagination.jsx:5-32 | the two loops produce `PageNumbers` |
| Pagination.PrevDisabled | client/src/components/DealsList/Pagination.jsx:41 | Previous is disabled exactly on page 1 |
| Pagination.NextDisabled | client/src/components/DealsList/Pagination.jsx:99 | Next is disabled exactly on the last page |
| Pagination.LeadingShortcut | client/src/components/DealsList/Pagination.jsx:50 | the "1" button is shown when the window starts after page 1 |
| Pagination.LeadingEllipsis | client/src/components/DealsList/Pagination.jsx:58 | the leading ellipsis is shown when the window starts after page 2 |
| Pagination.TrailingShortcut | client/src/components/DealsList/Pagination.jsx:79 | the last-page button is shown when the window ends before the last page |
| Pagination.TrailingEllipsis | client/src/components/DealsList/Pagination.jsx:81 | the trailing ellipsis is shown when the window ends before the page next to the last |
| Pagination.ShortcutsAndEllipses | client/src/components/DealsList/Pagination.jsx:50-87 | the first and last page shortcuts appear exactly when the window leaves those pages out; every page without a button sits behind a shown ellipsis; an ellipsis never hides a page that has a button |
| DealsList.CeilDiv | client/src/components/DealsList/DealsList.jsx:36 | `Math.ceil(a/b)` on integers: the least r with a <= r*b |
| DealsList.TotalPages | client/src/components/DealsList/DealsList.jsx:36 | a positive total gives at least one page, and the smallest number of pages of size `limit` that holds it |
| DealsList.ShowPagination | client/src/components/DealsList/DealsList.jsx:55 | the control is rendered when the total exceeds the page size |
| DealsList.ShowPaginationIffSeveralPages | client/src/components/DealsList/DealsList.jsx:55-59 | the control is shown exactly when there are at least two pages |
| DealCard.GetStageColor | client/src/components/DealsList/DealCard.jsx:7-16 | a known stage gets `badge-` plus its name with `_` as `-`; any other stage gets `badge-new` |
| DealCard.StageSlug | client/src/components/DealsList/DealCard.jsx:10 | underscores become hyphens, and every other character stays in place |
| DealCard.StageColorsDistinct | client/src/components/DealsList/DealCard.jsx:8-14 | different known stages get different badges |
| DealCard.GetStageLabel | client/src/components/DealsList/DealCard.jsx:32-41 | an unknown stage is shown as it is |
| DealCard.FormatDate | client/src/components/DealsList/DealCard.jsx:27-30 | a missing or empty date shows 'Not set'; any other goes to the date renderer |
| DealCard.StageLabelsAgree | client/src/components/DealsList/DealCard.jsx:32-41 | for each known stage, the card's label equals the shared formatter's and the filter chip's |
| DealCard.StageLabelsDiverge | client/src/utils/formatters.js:178-190 | for an unknown stage the card shows the raw value and the formatter capitalises it; an empty stage is '' on the card and 'Unknown' in the formatter |
| FilterPanel.WithFilter | client/src/components/FilterPanel/FilterPanel.jsx:20-25 | the changed key takes the new value and every other key keeps its value |
| FilterPanel.Extensional | client/src/components/FilterPanel/FilterPanel.jsx:16-22 | a filter record is determined by its five values |
| FilterPanel.WithFilterOverrides | client/src/components/FilterPanel/FilterPanel.jsx:20-25 | a second change of the same control overrides the first |
| FilterPanel.WithFilterCommutes | client/src/components/FilterPanel/FilterPanel.jsx:20-25 | changes to two different controls commute |
| FilterPanel.SomeNonEmpty | client/src/components/FilterPanel/FilterPanel.jsx:27 | `some(filter => filter !== '')` holds exactly when some entry is not '' |
| FilterPanel.HasActiveFilters | client/src/components/FilterPanel/FilterPanel.jsx:27 | a filter is active exactly when some key's value is not '' |
| FilterPanel.ChipVisible | client/src/components/FilterPanel/FilterPanel.jsx:154 | a filter's chip is rendered when its value is not '' |
| FilterPanel.RemoveChip | client/src/components/FilterPanel/FilterPanel.jsx:158 | a chip's close button hides that chip and keeps every other filter |
| FilterPanel.ChipsMatchActive | client/src/components/FilterPanel/FilterPanel.jsx:154-206 | the panel counts as active exactly when some chip is shown; the cleared record is inactive |
| FilterPanel.RemoveLastChip | client/src/components/FilterPanel/FilterPanel.jsx:154-206 | removing the only shown chip clears every filter |
| FilterPanel.FindLabel | client/src/components/FilterPanel/FilterPanel.jsx:156 | `find(...)?.label` is defined exactly when some option has the value, and then it is the label of the first such option |
| FilterPanel.StageChipLabel | client/src/components/FilterPanel/FilterPanel.jsx:156 | the stage chip's label is the label of the first stage option with that value |
| FilterPanel.DealStagesAreKnown | client/src/components/FilterPanel/FilterPanel.jsx:5-11 | the stage options are the five known stages, each exactly once |
| FilterPanel.StageChipLabelDefined | client/src/components/FilterPanel/FilterPanel.jsx:156 | the stage chip has a label exactly for the five known stages |
| Formatters.FormatPhoneNumber | client/src/utils/formatters.js:119-137 | '' stays ''. Ten digits d give 14 characters: '(' at 0, d[0..3] at 1-3, ") " at 4-5, d[3..6] at 6-8, '-' at 9, d[6..10] at 10-13. Eleven digits starting with 1 give 17 characters: "+1 (" at 0-3, d[1..4] at 4-6, ") " at 7-8, d[4..7] at 9-11, '-' at 12, d[7..11] at 13-16. Any other digit count returns the input unchanged |
| Formatters.PhoneDigitsPreserved | client/src/utils/formatters.js:119-137 | formatting keeps the digits of the number, in order |
| Formatters.PhoneIdempotent | client/src/utils/formatters.js:119-137 | formatting a formatted number changes nothing |
| Formatters.TruncateText | client/src/utils/formatters.js:142-146 | text within the limit is returned unchanged; longer text becomes a prefix of itself followed by the suffix, `maxLength` characters in all when the limit leaves room for the suffix |
| Formatters.TruncateShortLimit | client/src/utils/formatters.js:142-146 | with a limit shorter than the suffix, the result is longer than the limit |
| Formatters.Capitalize | client/src/utils/formatters.js:156 | a word keeps its length, its first character upper-cased and the rest lower-cased |
| Formatters.CapitalizeAll | client/src/utils/formatters.js:154-157 | every word is capitalised, in place |
| Formatters.FormatName | client/src/utils/formatters.js:151-158 | '' stays ''; otherwise the space-separated words, each capitalised, joined by single spaces (properties in FormatNameWords and FormatNameIdempotent) |
| Formatters.FormatNameWords | client/src/utils/formatters.js:151-158 | the formatted name has the same length and the same space-separated words, each capitalised |
| Formatters.FormatNameIdempotent | client/src/utils/formatters.js:151-158 | formatting a formatted name changes nothing |
| Formatters.InitialsOf | client/src/utils/formatters.js:168-170 | one upper-cased first character per word |
| Formatters.GetInitials | client/src/utils/formatters.js:163-173 | '' gives ''; otherwise the initials of the first `maxInitials` words of the trimmed name (properties in InitialsBound) |
| Formatters.InitialsBound | client/src/utils/formatters.js:163-173 | at most `maxInitials` initials. The initials are exactly one per non-empty leading word: as many characters as there are non-empty words among the first `maxInitials` pieces, the i-th being the upper-cased first letter of the i-th such word. When no leading piece is empty, there is one initial per piece |
| Formatters.NonEmptyWords | client/src/utils/formatters.js:166-170 | keeps only non-empty pieces, in order, and keeps all pieces when none is empty |
| Formatters.NonEmptyWordsAppend | client/src/utils/formatters.js:166-170 | the filter goes piece by piece: filtering a concatenation concatenates the filtered parts, an empty piece is dropped and any other piece is kept |
| Formatters.DefaultLimits | client/src/utils/formatters.js:142-146 | with the default arguments `maxLength = 50, suffix = '...'`, `truncateText(text)` is at most 50 characters long, and with `maxInitials = 2`, `getInitials(name)` is at most two characters (line 163) |
| Formatters.JoinDropEmpty | client/src/utils/formatters.js:170 | empty pieces contribute nothing to `join('')` |
| Formatters.NonEmptyInitials | client/src/utils/formatters.js:169 | `charAt(0)` of a piece is empty exactly when the piece is, so dropping empty pieces commutes with taking initials |
| Formatters.FormatStageLabel | client/src/utils/formatters.js:178-190 | never empty; 'Unknown' for ''; an unmapped stage keeps its length and has its first character upper-cased |
| Formatters.FormatSearchQuery | client/src/utils/formatters.js:195-199 | '' stays ''; otherwise the trimmed query with every whitespace run replaced by one space (properties in SearchQueryWords, SearchQueryNormal and SearchQueryIdempotent) |
| Formatters.SearchQueryNormal | client/src/utils/formatters.js:195-199 | the result has no whitespace at either end and only single spaces inside, and keeps the same non-whitespace characters in order |
| Formatters.SearchQueryIdempotent | client/src/utils/formatters.js:195-199 | normalising a normalised query changes nothing |
| Formatters.SearchQueryWords | client/src/utils/formatters.js:195-199 | the normalised query is exactly the query's words (its maximal runs of non-whitespace characters) joined with single spaces |
| Formatters.LeadingWord | client/src/utils/formatters.js:198 | the longest prefix without whitespace: a prefix, free of whitespace, followed by whitespace or the end |
| Formatters.WordsAppendSpaces | client/src/utils/formatters.js:198 | trailing whitespace adds no word |
| Formatters.WordsTrim | client/src/utils/formatters.js:198 | trimming keeps the words |
| Formatters.CollapseTrimmed | client/src/utils/formatters.js:198 | collapsing whitespace runs in a string without whitespace at its ends yields its words joined with single spaces |
| Formatters.FormatUrlParams | client/src/utils/formatters.js:204-215 | a parameter is kept, with its value, exactly when it is not null, undefined or '' (0 and false are kept) |
| Api.StatusMessage | client/src/services/api.js:20 | the prefix `Request failed with status `, followed by the status in decimal |
| Api.DataMessage | client/src/services/api.js:20 | `data?.message`: undefined for a null or non-object body, the field otherwise |
| Api.ErrorMessage | client/src/services/api.js:17-25 | the message is always truthy: the server's truthy message, else the status message, for an answered request; the network message when nothing came back; the generic message otherwise |
| Api.ErrorMessagesDistinguishable | client/src/services/api.js:18-25 | the three kinds of message never coincide, and different statuses give different messages |
| Api.HttpError.Classify | client/src/services/api.js:17-25 | only `message` is rewritten, to `ErrorMessage` of the error's response and request |
| Api.Intercept | client/src/services/api.js:15-28 | an answer passes through unchanged; a failure is rejected with the same error object, its message rewritten |
| Api.GetDealsParams | client/src/services/api.js:32 | no parameters means `{}`; given parameters are sent as they are |
| JsStrings.IntToStringRoundTrip | client/src/services/api.js:20 | the decimal text of an integer reads back as that integer |
| Pipeline.ParamText | client/src/services/api.js:32 | a string parameter travels as itself, a number as its decimal text, which reads back as the number |
| Pipeline.QueryString | client/src/services/api.js:32 | the query string has the same keys as the parameters, each with the parameter's text |
| Pipeline.RequestReachesServer | client/src/pages/DealsPage.jsx:34-48 | every server filter is the page's own value when that value is non-empty, and null otherwise |
| Pipeline.RequestClauses | server/models/Deals.js:7-30 | the server's SQL has a clause exactly for each filter the page holds a non-empty value for |
| Pipeline.AxiosResponse | client/src/services/api.js:32 | the axios response carries the server's body under `data` and no `total` |
| Pipeline.ServerRowsShown | client/src/pages/DealsPage.jsx:53-87 | the server's rows come back with no error, as the requested page of those rows, with their count as the total and `ceil(count/limit)` pages |
| Pipeline.RenderedButtonsAccepted | client/src/pages/DealsPage.jsx:128-133 | every page button, shortcut and enabled Previous/Next the control renders is accepted by the page's guard; the disabled buttons would leave the page unchanged |
| Pipeline.TwentyFiveDeals | client/src/components/DealsList/DealsList.jsx:55-59 | 25 deals at 10 per page make 3 pages: the control is shown with buttons 1, 2 and 3, page 3 holds the last five deals, and page 4 is empty |

## Left out

- Timers. The 300 ms debounce of the fetch effect (client/src/pages/DealsPage.jsx:110-116) is left out. So is the order in which React runs effects and batches state updates. `FetchDeals` is a method the caller invokes, and the reset effect is folded into the search and filter handlers.
- Concurrency. Overlapping fetches that resolve out of order are not modelled: one fetch runs to completion at a time.
- Transport. Axios, its base URL, its timeout, URL encoding and the HTTP transport are left out. `getDeals` is a function parameter from the request to its outcome. `getDeal(id)` (api.js:33) is a plain pass-through and has no member.
- Database. The store and SQL `LIKE` matching are left out. The store is a function parameter from query text and binds to rows or an error. The model proves which query is sent, not which rows match it.
- Logging. `console.log`, `console.warn` and `console.error` calls have no effect on state and are left out.
- Numbers. JavaScript numbers are modelled as integers, so floating point, NaN and Infinity are not modelled.
- `formatFileSize` (formatters.js:106-114) is left out because it is floating-point arithmetic.
- `formatCurrency` and date rendering (`Intl.NumberFormat`, `date-fns`) are left out. `DealCard.FormatDate` takes the renderer as a parameter.
- DealsPage.ActualTotal: a truthy count that is not a number (a numeric string, say) falls back to the list length, whereas JavaScript would keep the string and coerce it later.
- DealsPage.DealsPageState.HandleLimitChange: requires a positive page size. With 0, JavaScript divides by zero and gets Infinity/NaN pages, which the integer model cannot express. The page passes `onLimitChange` (DealsPage.jsx:218), but `DealsList` never uses it, so no caller can supply 0.
- Formatters.TruncateText: lengths and slice positions count Unicode code points, whereas JavaScript's `length` and `slice` count UTF-16 code units. Text with characters outside the Basic Multilingual Plane (emoji, say) is therefore cut at different places, and may not be cut at all.
- Formatters.GetInitials: `charAt(0)` is modelled as the first code point. JavaScript takes the first UTF-16 code unit, which for a word starting with an emoji is a lone surrogate. `Formatters.InitialsOf`, `Formatters.Capitalize`, `Formatters.FormatStageLabel` (which takes `JsStrings.CharAt0` and `JsValues.Slice` of the stage) and `JsValues.Slice` itself count code points in the same way.
- Formatters.FormatPhoneNumber: its argument is a string, so a null or undefined phone number is not modelled. JavaScript's `!phoneNumber` guard returns `''` for it (formatters.js:120).
- Formatters.TruncateText: its argument is a string, so a null or undefined text is not modelled. JavaScript's `!text` guard returns that argument itself, which is not a string (formatters.js:143).
- Formatters.FormatName: its argument is a string, so a null or undefined name is not modelled. JavaScript's `!name` guard returns `''` for it (formatters.js:152).
- Formatters.GetInitials: its argument is a string, so a null or undefined name is not modelled. JavaScript's `!name` guard returns `''` for it (formatters.js:164).
- Formatters.FormatStageLabel: its argument is a string, so a null or undefined stage is not modelled. JavaScript's `!stage` guard returns `'Unknown'` for it (formatters.js:179).
- Formatters.FormatSearchQuery: its argument is a string, so a null or undefined query is not modelled. JavaScript's `!query` guard returns `''` for it (formatters.js:196).
- Case mapping. It is ASCII only (`toUpperCase`/`toLowerCase` on other letters are not modelled), and whitespace is the JavaScript `\s` set.
- Lookup tables. Keys inherited from `Object.prototype` (`constructor`, `toString`, ...) are not modelled in the stage lookup tables of `DealCard.jsx` and `formatters.js`.
- Array-valued query parameters (`?stage=a&stage=b`) are not modelled: every query value is a single string.
- Markup. The list summary line (DealsList.jsx:33) only displays two state fields. The markup of ErrorAlert, SearchBar, EmptyState, LoadingState and App is not part of this model.
- `showFilters` toggles. The filter-panel toggle and close buttons only flip the `showFilters` field and are not separate methods. `ClearAllFilters` models the one place that sets it as part of a larger change.
- Page size constant. The page size of 20 in `constants.js` is not used by this flow: the page starts at 10 (DealsPage.jsx:26).

## Findings

| source | as written | input that shows it | evidently intended | confidence | as-written member | corrected member |
|---|---|---|---|---|---|---|
| server/controllers/dealController.js:27 | `getDealById` calls `pool.query`, but the controller imports only `getFilteredDeals`. Evaluating `pool` throws a ReferenceError, so every request goes to `next(err)` | `GET /deals/1` with a stored deal whose id is "1" | look the deal up: 404 when no row matches, otherwise the first row | high (not executed) | DealController.GetDealByIdAsWritten (exhibited by DealController.PoolImportMissing) | DealController.GetDealById |
