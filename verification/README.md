# Learning-analytics dashboard: a Dafny model of its data logic

The system is a small web dashboard. An Express backend does two things:
- it turns an uploaded CSV file into activity records (student, course, date, activity type, score, minutes spent);
- it generates random sample records.

A React front end then filters the current batch of records, shows four summary cards and three charts (average score per course, activity per day, activity types), and lists the batch in a sortable, paged table.

This project models that data logic as pure functions over sequences of records and proves what each step promises. The modules follow the program's files:

| module | file | what it holds |
|---|---|---|
| `JsValues` | (shared) | JavaScript values in record fields: truthiness, `String(v)`, `toLowerCase`, the string order |
| `JsParseInt` | (shared) | `parseInt` without a radix, as section 19.2.5 of ECMAScript 2024 defines it |
| `Seqs`, `Sorting`, `Wrappers` | (shared) | distinct elements, counts, a stable insertion sort, Option/Result |
| `Server` | backend/server.js | row normalisation, the upload decision, the sample generator |
| `App` | frontend/src/App.jsx | the filter effect, the facet lists, batch replacement |
| `Filters` | frontend/src/components/Filters.jsx | the filter-state handlers and the reset link |
| `TableSort`, `DataTable` | frontend/src/components/DataTable.jsx | the comparator, paging, header clicks, the page window |
| `Dashboard` | frontend/src/components/Dashboard.jsx | the accumulators behind the bar, line and pie charts |
| `Metrics` | frontend/src/components/MetricsCards.jsx | the four cards |
| `Pipeline` | backend and front end together | what the client sees of server records |

A record is a map from field name to `Value = Num(int) | NaN | Str(string) | Null | Undefined`. A missing field reads as `Undefined`. Every component is stated over this one type.

The front-end filters and table columns use financial field names: `category`, `transaction_type`, `amount`. The backend emits `student`, `course`, `score` and `time_min`. Both kinds of record are plain maps here.

Behaviours worth knowing, all taken from the code:
- A present but non-numeric score or time becomes NaN, not 0 (backend/server.js:105-106). `res.json` writes NaN as `null`, so the client receives `null` (`Pipeline.UnparsableScoreArrivesNull`).
- Changing a filter does not send the table back to page 1. DataTable keeps its page state when its data changes (see Findings).
- A row without a usable id takes the running count as its id, so ids can repeat (`Server.FallbackIdCanCollide`).
- Server records carry neither `category` nor `transaction_type`. So for them the filter drop-downs offer nothing beyond "all" (`Pipeline.ServerRecordsOfferNoFilters`).

An object used as an accumulator (`acc[key] = (acc[key] || 0) + 1`) is modelled as a sequence of groups in insertion order. Each group holds a key, a running sum and a count. `Dashboard.GroupByMatchesReference` ties this fold to an independent reference:
- the keys are the distinct keys in order of first appearance;
- each count is the number of occurrences of the key;
- each sum is the sum of the amounts entered under the key.

## Model

| member | source | states |
|---|---|---|
| JsValues.OrZero | frontend/src/components/MetricsCards.jsx:6 | the "value or 0" of a field is the number itself when it is truthy and 0 for every falsy value |
| JsValues.LocaleCompare | frontend/src/components/DataTable.jsx:26-30 | the comparison is negative exactly when a comes before b in the string order, and zero exactly when the strings are equal |
| JsValues.LocaleCompareAntisymmetric | frontend/src/components/DataTable.jsx:26-30 | comparing b with a gives the opposite sign of comparing a with b, so the Desc branch reverses the Asc order |
| JsParseInt.ParseIntDecimalRoundTrip | backend/server.js:100 | `parseInt` reads the decimal notation of any integer back as that integer |
| JsParseInt.ParseIntStopsAtNonDigit | backend/server.js:105-106 | a cell such as "85abc" parses as its leading digits; what follows the numeral is ignored |
| JsParseInt.ParseIntNoDigits | backend/server.js:78 | a string that does not start with a digit, a sign or white space (for example "undefined" for a missing query parameter) is NaN |
| Server.FirstFilled | backend/server.js:101-106 | the chain of "or" over aliases yields the value of the first alias whose cell is present and non-empty, and nothing exactly when no alias is filled |
| Server.RecordId | backend/server.js:100 | the id is the parsed id cell when that is a nonzero number; when the cell is missing, NaN or 0 it is the number of records already accepted plus one |
| Server.TextField | backend/server.js:101-104 | a text field is the first filled alias, or "" when no alias is filled |
| Server.NumberField | backend/server.js:105-106 | a numeric field is always a number or NaN: 0 when no alias is filled, otherwise `parseInt` of the first filled alias (NaN for a non-numeric cell) |
| Server.NormalizeRow | backend/server.js:99-107 | any row, the empty one included, yields a record: the id rule, the first filled alias of each text field, and each numeric field as `parseInt` of its first filled alias or 0 |
| Server.ToRecordFields | backend/server.js:99-107 | the record has exactly the fields id, student, course, date, activity_type, score and time_min, each carrying its value |
| Server.NormalizeRows | backend/server.js:97-109 | one record per parsed row, in row order; row k (from 0) falls back to id k + 1 |
| Server.FallbackIdCanCollide | backend/server.js:100 | an explicit id "2" followed by a row without id gives two records with id 2 |
| Server.CsvExtension | backend/server.js:36 | `path.extname(name) === '.csv'` holds exactly when the last path component ends in ".csv" with at least one character before it |
| Server.Upload | backend/server.js:87-127 | no file gives the "no file" failure; a rejected file type never reaches the parser; an accepted file over 10 MB is the "too large" failure; within the limit a parser error is the parse failure with the parser's message; the batch is accepted exactly when the file passes the filter and the size limit and the parser produced at least one row, and then it is the normalised rows; zero rows is the "empty file" failure |
| Server.Status | backend/server.js:88-126 | status 200 exactly for an accepted batch, 500 exactly for a parser error, 400 for every other failure |
| Server.ErrorText | backend/server.js:39-149 | the error text of each failure; a rejected type gets the message of the file filter's Error as the error middleware passes it on, and an oversize file the middleware's text for multer's size limit, whatever multer's own message |
| Server.ErrorTextsDistinguish | backend/server.js:88-149 | two failures with the same error text are the same failure, except that all parse failures share one text |
| Server.RejectedBeforeParsing | backend/server.js:35-41 | for a file that is neither text/csv nor named *.csv the outcome is the same 400 rejection whatever the file contains |
| Server.RequestedCount | backend/server.js:78 | the count is the parsed query parameter when that is a nonzero number, and 100 when it is missing, NaN or 0 |
| Server.RandomBelow | backend/server.js:57-68 | `Math.floor(Math.random() * n)` is an index below n |
| Server.TwoDigits | backend/server.js:65 | a number below 100 is written as two decimal digits that read back as the number |
| Server.IsoDate | backend/server.js:54-65 | a day offset from 2024-12-28 renders as ten characters, digits with dashes at positions 4 and 7, in year 2024 for the first four offsets and 2025 after |
| Server.IsoDateOrdered | backend/server.js:54-65 | a later offset gives a later date string in string order, so distinct offsets give distinct dates and the line chart's sort puts generated dates in calendar order |
| Server.MonthOfMonotone | backend/server.js:57-59 | a later day of 2025 never falls in an earlier month |
| Server.SampleRecord | backend/server.js:61-69 | a generated record has the given id, a student, course and activity type from the fixed lists, a date within a year of the start date, a score in [60, 99] and a time in [30, 149] |
| Server.GenerateSampleData | backend/server.js:46-73 | the generator returns max(count, 0) records, the k-th with id k and every one a valid sample record |
| Server.SampleData | backend/server.js:76-84 | the endpoint returns as many records as the requested count when that is positive and none otherwise, so 100 without a count parameter; every one is a valid sample record with id k |
| Sorting.InsertionSort | frontend/src/components/DataTable.jsx:12 | the sorted copy is a permutation of the input |
| Sorting.SortSameElements | frontend/src/components/Dashboard.jsx:78 | sorting neither adds nor drops a value |
| Sorting.SortPartitions | frontend/src/components/DataTable.jsx:16-17 | when the comparator never puts a record of a class first and always puts a record outside the class before one inside it, the sorted copy has the whole class at the end |
| Sorting.SortKeepsSorted | frontend/src/components/DataTable.jsx:12 | a sequence the comparator finds no inversion in comes back from the sort unchanged |
| TableSort.SortedData | frontend/src/components/DataTable.jsx:9-32 | with no sort key the view is the data itself; with a key it is a permutation of the data |
| TableSort.PairConsistent | frontend/src/components/DataTable.jsx:16-30 | on two values of the same kind the comparator puts a first exactly when b does not belong before a, and any two such records are ordered one way or the other |
| TableSort.TripleTransitive | frontend/src/components/DataTable.jsx:16-30 | on values of one kind the order the comparator implements is transitive |
| TableSort.ColumnConsistent | frontend/src/components/DataTable.jsx:12-31 | on a column of numbers or a column of strings the comparator is a consistent one |
| TableSort.SortOrdersColumn | frontend/src/components/DataTable.jsx:12-31 | sorting a column of numbers or of strings orders it: numbers ascending for Asc and descending for Desc, strings by their lower-cased form likewise, missing values last |
| TableSort.NullsLast | frontend/src/components/DataTable.jsx:16-17 | records whose key is null or undefined come after all others, in both directions and for any column |
| TableSort.SortIsIdempotent | frontend/src/components/DataTable.jsx:9-32 | on a column of numbers or of strings (nulls allowed), or with no sort key, sorting the sorted view again with the same settings changes nothing |
| DataTable.TotalPages | frontend/src/components/DataTable.jsx:35 | the page count is the least number of 10-row pages that holds all rows, and 0 exactly for no rows |
| DataTable.PageItems | frontend/src/components/DataTable.jsx:36-38 | a page holds at most 10 rows, exactly 10 before the last page, and none past the last page |
| DataTable.PagesCoverData | frontend/src/components/DataTable.jsx:35-38 | pages 1 to totalPages, concatenated, are exactly the sorted rows |
| DataTable.PagesUpToPrefix | frontend/src/components/DataTable.jsx:36-38 | pages 1 to k, concatenated, are the first 10·k sorted rows (all of them when there are fewer) |
| DataTable.ShownRange | frontend/src/components/DataTable.jsx:82 | the "shown a-b of n" line starts at the page's first row number and ends at the page's last row number or at n, whichever is smaller |
| DataTable.ShownRangeMatchesPage | frontend/src/components/DataTable.jsx:36-38 | for a page that exists the line names exactly the rows on that page |
| DataTable.HandleSort | frontend/src/components/DataTable.jsx:40-51 | a click sets the column and page 1; the same column flips its direction, another column starts ascending |
| DataTable.SortTwiceRestores | frontend/src/components/DataTable.jsx:40-49 | two clicks on the sorted column restore the sort it started from |
| DataTable.HandlePageChange | frontend/src/components/DataTable.jsx:53-57 | a page change is applied exactly when the new page is between 1 and totalPages; otherwise nothing changes; the sort never changes |
| DataTable.TransitionsKeepPageInRange | frontend/src/components/DataTable.jsx:40-57 | sorting and page changes keep the current page within the data |
| DataTable.PageWindow | frontend/src/components/DataTable.jsx:165-175 | the window has min(5, totalPages) consecutive page numbers, all within [1, totalPages], and holds the current page when it exists; with more than 5 pages it starts at 1 near the start, ends at totalPages near the end, and otherwise has the current page in the middle |
| DataTable.ViewWellFormed | frontend/src/components/DataTable.jsx:35-82 | while the current page exists, the table shows a non-empty page, a range within the data whose size is the number of rows shown, and a page window holding the current page |
| DataTable.OnDataChangeAsWritten | frontend/src/components/DataTable.jsx:3-5 | the component keeps its page and sort state when its data changes |
| DataTable.StalePageInvertsRange | frontend/src/components/DataTable.jsx:36-38 | page 5 of 50 rows, narrowed to 12 rows, shows an empty page and the range 41-12 |
| DataTable.OnDataChange | frontend/src/components/DataTable.jsx:50 | corrected: a data change goes back to page 1 and keeps the sort |
| DataTable.DataChangeKeepsViewWellFormed | frontend/src/components/DataTable.jsx:35-82 | with the reset, every change of a non-empty data prop shows a non-empty page and a range within the data |
| App.KeepEqualCounts | frontend/src/App.jsx:31-37 | one filter step keeps each matching record as often as it occurs and drops every other record |
| App.FilteredIsSubsequence | frontend/src/App.jsx:28-40 | the filtered view keeps records in their original order |
| App.KeepEqualIsSubsequence | frontend/src/App.jsx:32 | one filter step keeps the surviving records in their original order |
| App.FilterExact | frontend/src/App.jsx:28-40 | sound and complete: every kept record matches every set filter, and every record that matches them is kept, as often as it occurs |
| App.UnfilteredIsIdentity | frontend/src/App.jsx:15-40 | with both filters empty, as initially, the view is the whole batch |
| App.FilterIdempotent | frontend/src/App.jsx:28-40 | filtering the view again with the same filters changes nothing |
| App.FilterKeepsAllMatching | frontend/src/App.jsx:28-40 | when every record matches, filtering returns the batch unchanged |
| App.Column | frontend/src/App.jsx:73-74 | the column has one value per record, each that record's field |
| App.KeepTruthy | frontend/src/App.jsx:73-74 | `.filter(Boolean)` keeps exactly the truthy values, in order, without creating duplicates |
| App.Facet | frontend/src/App.jsx:73-74 | an option list has no duplicates and no falsy value; each option occurs in some record, and every truthy value of the field is offered |
| App.FacetFirstAppearance | frontend/src/App.jsx:73-74 | the options come in the order of their first appearance in the batch |
| Seqs.DistinctFirstAppearance | frontend/src/App.jsx:73 | the distinct values of a column keep the order of their first appearance |
| App.LoadSampleData | frontend/src/App.jsx:42-54 | a response replaces the batch wholesale and clears the error; a failure keeps the batch and shows an error |
| App.HandleFileUpload | frontend/src/App.jsx:56-67 | an uploaded batch replaces the current one and keeps the filters |
| App.HandleFilterChange | frontend/src/App.jsx:69-71 | new filters replace the old ones; the batch stays |
| Filters.HandleCategoryChange | frontend/src/components/Filters.jsx:2-7 | the category is set and the transaction type kept |
| Filters.HandleTransactionTypeChange | frontend/src/components/Filters.jsx:9-14 | the transaction type is set and the category kept |
| Filters.HandleReset | frontend/src/components/Filters.jsx:16-21 | both filters are cleared, whatever they were |
| Filters.ResetRestoresBatch | frontend/src/components/Filters.jsx:16-34 | after a reset the link is hidden and the view is the whole batch; while the link is hidden the filters restrict nothing |
| Filters.ShowsResetIffRestricting | frontend/src/components/Filters.jsx:27 | the reset link is shown exactly when the filters can remove some record |
| Filters.ChoosingOfferedCategory | frontend/src/components/Filters.jsx:42-55 | choosing an offered text category shows only records of that category, whatever the type filter; with no type filter it shows at least one record |
| Dashboard.AddTo | frontend/src/components/Dashboard.jsx:100 | adding to an accumulator grows an existing key in place or appends a new key last; keys stay distinct; the totals grow by one entry and its amount |
| Dashboard.GroupBy | frontend/src/components/Dashboard.jsx:98-101 | the accumulator has distinct keys; its counts add up to the number of entries and its sums to the total amount |
| Dashboard.GroupByMatchesReference | frontend/src/components/Dashboard.jsx:96-104 | the keys are the distinct entry keys in order of first appearance; each count is the number of entries with that key and each sum their total |
| Dashboard.GroupByLabels | frontend/src/components/Dashboard.jsx:103 | the accumulator's keys are the distinct entry keys in order of first appearance |
| Dashboard.GroupByTallies | frontend/src/components/Dashboard.jsx:98-101 | each key's count is the number of entries with that key and its sum their total amount |
| Dashboard.CountOfExact | frontend/src/components/Dashboard.jsx:79 | looking up a key that was entered gives the number of its entries, at least one |
| Dashboard.CountOf | frontend/src/components/Dashboard.jsx:79 | looking a key up gives that key's count, and 0 for an absent key |
| Dashboard.GroupCountsPositive | frontend/src/components/Dashboard.jsx:50-53 | corrected: every key of the corrected fold has at least one entry, so no average divides by zero |
| Dashboard.AsWrittenCountsPositive | frontend/src/components/Dashboard.jsx:50-53 | as written: every bar the page draws has at least one record, so no drawn average divides by zero |
| Dashboard.CourseEntries | frontend/src/components/Dashboard.jsx:40-46 | each record contributes its course, or "Не указано" when falsy, with its score, or 0 when falsy |
| Dashboard.CourseScoresExact | frontend/src/components/Dashboard.jsx:37-53 | corrected: every record lands in exactly one course bar; each bar averages exactly the scores of that course's records; the counts add up to the batch size |
| Dashboard.AddToAsWritten | frontend/src/components/Dashboard.jsx:42-47 | the accumulation step as written keeps the keys of the corrected one, leaves other keys' groups alone, and leaves its key's count between 1 and one more than before |
| Dashboard.GroupByAsWritten | frontend/src/components/Dashboard.jsx:40-48 | the course fold as written has the distinct course keys in order of first appearance, and each count lies between 1 and the number of entries under its key |
| Dashboard.CourseScoresAsWritten | frontend/src/components/Dashboard.jsx:37-50 | the bars as written name the same courses as the corrected ones, each averaging over at least one and at most all of its course's records |
| Dashboard.ZeroScoreRestartsCourse | frontend/src/components/Dashboard.jsx:42-45 | scores 0 and 80 for one course give 80 over one record as written and 80 over two records corrected |
| Dashboard.DateEntries | frontend/src/components/Dashboard.jsx:69-76 | one step of 1 per record with a truthy date; each date is entered as many times as records carry it, and exactly when some record carries it |
| Dashboard.DatesStrictlyIncreasing | frontend/src/components/Dashboard.jsx:78 | the sorted dates are distinct and strictly increasing |
| Dashboard.DatesAreRecordDates | frontend/src/components/Dashboard.jsx:69-78 | a date is on the axis exactly when some record carries it |
| Dashboard.DateCountsExact | frontend/src/components/Dashboard.jsx:69-79 | each date is paired with the number of records of the batch whose truthy date reads as it, at least one |
| Dashboard.DateCountsTotal | frontend/src/components/Dashboard.jsx:69-76 | the daily counts, and the daily sums, add up to the number of records with a truthy date |
| Dashboard.LastN | frontend/src/components/Dashboard.jsx:82 | `slice(-n)` is the last n elements, all of them when there are fewer, and all of them for n = 0 since `-0` is 0 |
| Dashboard.LineChart | frontend/src/components/Dashboard.jsx:69-93 | the line shows the last min(30, #dates) sorted dates, each with the number of records on that date, and the two series have equal length |
| Dashboard.TypeEntries | frontend/src/components/Dashboard.jsx:98-100 | each record contributes its activity type, or "Не указано" when falsy |
| Dashboard.SliceColors | frontend/src/components/Dashboard.jsx:106-121 | the pie uses the first min(6, #types) palette colours |
| Dashboard.PieChart | frontend/src/components/Dashboard.jsx:95-126 | the slices are the distinct activity types in order of first appearance, each with its number of records; the slices add up to the batch; min(6, #types) colours |
| Dashboard.Render | frontend/src/components/Dashboard.jsx:27-126 | as written: the placeholder is shown exactly for an empty batch; otherwise the bars, from the as-written fold, name the distinct courses in order of first appearance, the line has at most 30 dates and the pie slices add up to the batch |
| Dashboard.RenderCorrected | frontend/src/components/Dashboard.jsx:27-126 | corrected: as `Dashboard.Render`, and the bars' record counts add up to the batch |
| Metrics.AverageOf | frontend/src/components/MetricsCards.jsx:5-12 | no average exactly for an empty batch; otherwise the field's sum (falsy values as 0) over the record count |
| Metrics.UniqueStudents | frontend/src/components/MetricsCards.jsx:14 | the number of distinct student values, a missing student counting as one value; at most the record count and at least 1 for a non-empty batch |
| Metrics.ComputeCards | frontend/src/components/MetricsCards.jsx:3-14 | the cards: record count, score average, time average, total time, distinct students |
| Metrics.SumFieldBounds | frontend/src/components/MetricsCards.jsx:6-9 | when every value lies in [lo, hi] the sum lies between n·lo and n·hi |
| Metrics.AverageWithinBounds | frontend/src/components/MetricsCards.jsx:5-12 | when every value lies in [lo, hi] so does the average |
| Metrics.SumFieldMatchesEntries | frontend/src/components/Dashboard.jsx:46 | the course chart adds up the same scores as the score card |
| Metrics.CardsAgreeWithCourseChart | frontend/src/components/MetricsCards.jsx:3-7 | corrected: the course bars split the records and their scores between them without loss: their counts add up to the record card and their sums to the score card's sum |
| Metrics.CardsDisagreeWithCourseChartAsWritten | frontend/src/components/Dashboard.jsx:42-45 | as written, scores 0 and 80 for course "A" give a bar of one record while the record card counts two |
| Metrics.FilterNeverAddsStudents | frontend/src/components/MetricsCards.jsx:3-14 | narrowing the filters never raises the record count or the number of distinct students |
| Pipeline.JsonRoundTrip | backend/server.js:118 | through JSON a NaN field arrives as null, an undefined field is dropped, and numbers, strings and null arrive unchanged; nothing else is added |
| Pipeline.AsRecords | backend/server.js:118 | the client receives one plain object per server record, in order, each the JSON form of the record: a NaN score arrives as null, and a record with numeric score and time keeps exactly its seven fields |
| Pipeline.UnparsableScoreArrivesNull | backend/server.js:105 | a score cell "abc" is NaN on the server and null on the client, which the cards read as 0 and the table treats as missing |
| Pipeline.ServerRecordsOfferNoFilters | frontend/src/App.jsx:73-74 | for server records both option lists are empty |
| Pipeline.SampleCardsInRange | backend/server.js:67-68 | for generated data the score average lies in [60, 99] and the time average in [30, 149] |

## Left out

- Multer errors other than the size limit (an unexpected field name, say) are not outcomes of `Server.Upload`; `Server.MiddlewareText` gives the text the middleware would send for them.
- HTTP plumbing is not modelled: Express routing, CORS, JSON bodies, `app.listen` and the `/api/health` endpoint. The upload outcome and its status and error text stand for them.
- multer's disk storage, file naming and directory creation, and the `fs.unlink` cleanup are not modelled. They are file-system side effects. The uploaded file is given as its mimetype, name and size.
- The csv-parser stream is not part of this model. Its output (all rows, or an error) is a parameter of `Server.Upload`.
- `Math.random` is not modelled. The six random numbers each generated record draws are a parameter. Each is any real in [0, 1).
- `Date` arithmetic is replaced by a day offset from 2024-12-28 rendered as an ISO date. This assumes the server runs in UTC; in another time zone `toISOString` can shift the date by a day.
- `toFixed` and `toLocaleString` are not modelled. Averages are kept as exact (sum, count) pairs rather than rounded decimals.
- `localeCompare` is stood in for by a code-point lexicographic order. `toLowerCase` is modelled for the Latin and basic Cyrillic letters only. Default `sort()` compares UTF-16 code units, which agrees with code-point order except around surrogate pairs.
- Object key order is modelled as insertion order. JavaScript lists integer-like keys (a course named "2024", say) first, in numeric order.
- `Array.prototype.sort` is modelled by a stable insertion sort. For a comparator that is consistent in the sense of ECMAScript (a column of numbers, or of strings, with no null or undefined) any stable sort gives the same result. For a mixed column, or one containing NaN, the engine's order is implementation-defined.
- TableSort.SortOrdersColumn: ordering is proved only for columns holding numbers or strings, with nulls. On a mixed column the comparator is not consistent.
- TableSort.NullsLast: the comparator returns 1 for two nullish values in either order, so a column with two or more null or undefined values is not consistent in the sense of ECMAScript, and the language then leaves the order implementation-defined. Nulls-last (and the ordering of `TableSort.SortOrdersColumn` on such a column) holds for the insertion sort modelled here and for engines that move an element only on a negative result; it is not guaranteed by the language.
- Accumulator objects are modelled as sequences of groups. They are plain `{}` objects in the program: a course, date or activity type named "constructor" or "toString" starts from the inherited function, which is truthy, so `acc[key] + 1` concatenates text; a key "__proto__" changes the prototype instead of adding a group. The model treats every key as a fresh own property.
- JsValues.OrZero: a non-empty string score counts as 0 here. In JavaScript `sum + '85'` concatenates strings, which turns the card into text. Backend records always carry numbers or NaN.
- JsParseInt.ParseIntDecimalRoundTrip: JavaScript numbers are doubles, so integers beyond 2^53 would be rounded; here they stay exact. `String(n)` switches to exponent notation from 1e21, which is not modelled either.
- React's state scheduling, `useEffect`/`useMemo` timing and the `loading` flag are not modelled. A transition is modelled as the state after the update has settled.
- The request for `?count=100` on start-up is not modelled; only the response it yields is.
- frontend/src/components/FileUploader.jsx is not part of this model: it is DOM and network handling around the same CSV check as backend/server.js:36.
- JSX rendering, Chart.js registration and options, and styling are not modelled.
- Query parameters that arrive as arrays (`?count=1&count=2`) are not modelled; the parameter is a single string or absent.

## Findings

| source | as written | input that shows it | evidently intended | confidence | as-written member | corrected member |
|---|---|---|---|---|---|---|
| frontend/src/components/Dashboard.jsx:42 | `if (!courseScores[course])` restarts the sum and the count of a course that is already present whenever its running score sum is 0 | two records of course "A" with scores 0 and 80: the bar shows 80 over 1 record | start a course only the first time it is seen, giving 80 over 2 records (average 40) | high (not executed) | Dashboard.CourseScoresAsWritten (`Dashboard.ZeroScoreRestartsCourse`, `Metrics.CardsDisagreeWithCourseChartAsWritten`, used by `Dashboard.Render`) | Dashboard.CourseScores (`Dashboard.CourseScoresExact`, `Metrics.CardsAgreeWithCourseChart`, used by `Dashboard.RenderCorrected`) |
| frontend/src/components/DataTable.jsx:4 | `currentPage` survives a change of the `data` prop, e.g. after a filter narrows the batch | on page 5 of 50 rows, choose a filter leaving 12 rows: an empty page and "Показано 41-12 из 12" | go back to page 1 when the data changes, as `handleSort` does | medium (not executed) | DataTable.OnDataChangeAsWritten (`DataTable.StalePageInvertsRange`) | DataTable.OnDataChange (`DataTable.DataChangeKeepsViewWellFormed`) |
