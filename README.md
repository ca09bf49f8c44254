# E-learning analytics: record-processing core

A Dafny model of the record logic in a small e-learning dashboard: a React
client (`src/App.js`) that shows student rows in sortable tables and exports
filtered reports as spreadsheets, and a Flask back end (`app.py`) that labels
each student's predicted engagement and selects the rows each endpoint
returns.

The model covers:

- **Sortable tables** (`Sorting`): the `useSortableData` hook. The sort
  configuration is the state of a `SortableData` object. `RequestSort`
  toggles it. `SortedItems` copies the caller's array into a fresh array and
  sorts the copy in place with the source's comparator. The contract is that
  the result is a permutation of the input, no neighbour pair is out of
  order, and with no configuration the input order is kept. A lemma lifts
  neighbour order to order between every pair when all records store the key
  with the same kind of value.
- **Table chrome** (`Views`): the header sort arrow, the engagement badge
  style, the sidebar link targets, and the search box's submit guard
  (`Header.HandleSearch`).
- **Reports** (`Reports`): `ReportsPage.HandleDownload`. It reports "not
  ready" when the spreadsheet writer is missing and refuses an empty
  selection. Otherwise it hands exactly the filtered students, in their
  original order, to the writer under `Student_Report_<course>_<engagement>.xlsx`.
- **Back-end selection rules** (`Backend`): the High/Medium/Low buckets, one
  label per row, the column rename map and its inverse, the course-detail
  selection with its 404 error, the case-insensitive search, the colour
  cycle of the course list, and the completion counts.
- **Glue** (`Pipeline`): the table's columns are the served columns, and the
  report's engagement filter selects exactly the students whose probability
  lies in that bucket.

Shared modules: `Wrappers` (Option), `Text` (JavaScript `trim`, ASCII case
folding, string order, substring search, decimal text), `Seqs`
(order-preserving selection and counting), `Records` (a row is a map from
column name to an integer, real or string; `Less` is JavaScript's `<` on two
field reads).

The code has no session, login, token or route-guard logic, so none is
modelled.

## Model

| member | source | states |
|---|---|---|
| `Text.LexLess` | src/App.js:21-22 | JavaScript's `<` on two strings: lexicographic by character. It never holds between equal strings or against the empty string, and the empty string is less than every other string. |
| `Records.Less` | src/App.js:21-22 | `a[key] < b[key]` holds only between two present values of the same kind: two strings in lexicographic order or two numbers in numeric order. A missing value is never less or greater. |
| `Sorting.Compare` | src/App.js:18-24 | The comparator is -1, 0 or 1. It is 0 exactly when neither value is less than the other, and at most 0 exactly when the pair is in order for the direction. |
| `Sorting.SortInPlace` | src/App.js:16-24 | The sort leaves the array a permutation of its old contents with every neighbour pair in order. |
| `Sorting.AdjacentInOrderIsOrdered` | src/App.js:18-24 | When every record stores the key with one kind of value, neighbour order implies order between every pair, in either direction. |
| `Sorting.AscendingMeansNonDecreasing` | src/App.js:21-22 | Ascending with a shared schema: no later value of the key is less than an earlier one. |
| `Sorting.DescendingMeansNonIncreasing` | src/App.js:21-22 | Descending with a shared schema: no later value of the key is greater than an earlier one. |
| `Records.NotLessTransitive` | src/App.js:21-22 | JavaScript's "not greater" on two strings or two numbers is transitive. This is the order fact the sort relies on. |
| `Sorting.NextConfig` | src/App.js:29-35 | The new key is the requested key. The direction is descending exactly when the previous state was this key, ascending. From null it is ascending. |
| `Sorting.RequestSortCycles` | src/App.js:29-35 | Clicking the same header repeatedly alternates the direction with period two. |
| `Sorting.SortableData.constructor` | src/App.js:11-12 | The initial state is the given configuration (null by default). |
| `Sorting.SortableData.RequestSort` | src/App.js:29-35 | The state becomes `NextConfig` of the old state and the key. |
| `Sorting.SortableData.SortedItems` | src/App.js:14-27 | A null array gives the empty sequence. Otherwise the result is a permutation of the array. With no configuration it equals the array in order. With a configuration its neighbours are in order. The caller's array is never modified. |
| `Views.SortIndicator` | src/App.js:110-115 | Neutral exactly when no sort is active or another column is sorted. Up exactly for this column ascending. Down exactly for this column descending. |
| `Views.IndicatorAfterRequest` | src/App.js:110-115 | After a click on a header, that header shows down if it was ascending and up otherwise. Every other header shows neutral. |
| `Views.GlyphsDistinct` | src/App.js:110-115 | The three rendered glyphs (↕, 🔼, 🔽) are pairwise different. |
| `Views.BadgeStyle` | src/App.js:151-155 | "High" gets the emerald style and "Medium" the amber one. Every other string gets the red one. |
| `Views.NavPath` | src/App.js:92 | Dashboard links to "/". Any other entry links to "/" followed by its lower-cased name. |
| `Views.SidebarLinksAreRoutes` | src/App.js:90-97 | The five sidebar entries link to "/", "/students", "/courses", "/reports" and "/settings". All five are declared routes. |
| `Views.Header.constructor` | src/App.js:50 | The search box starts empty. |
| `Views.Header.Type` | src/App.js:69 | Typing replaces the box's contents. |
| `Views.Header.HandleSearch` | src/App.js:53-59 | A term that trims to non-empty navigates with the trimmed term and clears the box. A blank term does nothing and leaves the box unchanged. |
| `Views.SubmittedQueryIsTrimmed` | src/App.js:55-56 | A submitted query has no white space at either end and is already trimmed. The typed term held a non-space character. |
| `Text.Trim` | src/App.js:55 | `trim()` returns the slice of the string between its leading and trailing white space. The slice neither starts nor ends with white space, and every dropped character is ECMAScript white space or a line terminator. |
| `Text.TrimEmptyIff` | src/App.js:55 | `trim()` is empty exactly when every character is white space. |
| `Text.TrimIdempotent` | src/App.js:55-56 | Trimming twice is trimming once. |
| `Text.Lower` | app.py:103 | `lower()` keeps the length and lower-cases each character. Only ASCII letters are folded. |
| `Text.LowerIdempotent` | app.py:103 | A lowered string has no upper-case ASCII letter, and lowering it again changes nothing. So the match's second lowering of an already lowered query is the query itself. |
| `Seqs.Keep` | src/App.js:363 | `filter` (and the `df[mask]` row selections of the back end): the kept elements are exactly the elements of the input that satisfy the predicate. Every kept element satisfies it, and the result is a sub-multiset of the input, never longer. |
| `Seqs.Count` | app.py:68 | `value_counts().get(v, 0)`: the number of matching elements, at most the length, and 0 exactly when no element matches. |
| `Seqs.KeepKeep` | src/App.js:362-368 | Filtering by one predicate and then by another equals filtering once by their conjunction. |
| `Seqs.KeepConcat` | src/App.js:363 | Filtering distributes over concatenation, so the filter keeps the original order. |
| `Reports.ReportRows` | src/App.js:360-368 | The report's rows are the students passing both filters, in their original order, and never more than the list. A student is a row exactly when it is in the list and each filter is 'All' or equals that student's field. |
| `Reports.ReportMembership` | src/App.js:360-368 | A student is in the report exactly when it is in the list and matches each filter that is not 'All'. |
| `Reports.NoFilterKeepsEveryone` | src/App.js:360-368 | 'All'/'All' reports the full list, unchanged and in order. |
| `Reports.ReportKeepsOrder` | src/App.js:360-368 | The report of a split list is the reports of its parts, joined. |
| `Reports.StepwiseFiltering` | src/App.js:360-368 | The handler's two successive filters, each skipped for 'All', give exactly the report's rows. |
| `Reports.ReportExample` | src/App.js:362-368 | Students of courses A and B: course A keeps exactly the first one, and course C keeps nobody. |
| `Reports.ReportFileName` | src/App.js:378 | The name starts with "Student_Report_", continues with the course and "_", then the engagement, and ends with ".xlsx". Its length is the sum of those parts. |
| `Reports.ReportFileNameInjective` | src/App.js:378 | When the engagement comes from the drop-down, equal file names mean equal filters. |
| `Reports.AlertText` | src/App.js:370-381 | An alert is shown exactly when nothing is downloaded. |
| `Reports.ReportsPage.constructor` | src/App.js:329-335 | The page starts with no students and both filters at 'All'. |
| `Reports.ReportsPage.Loaded` | src/App.js:347 | The fetched list replaces the students. The filters are unchanged. |
| `Reports.ReportsPage.SelectCourse` | src/App.js:397 | The course drop-down sets the course filter only. |
| `Reports.ReportsPage.SelectEngagement` | src/App.js:411 | The engagement drop-down sets the engagement filter only. |
| `Reports.ReportsPage.HandleDownload` | src/App.js:358-382 | Not ready exactly when the writer is missing. No match when the filtered list is empty. Otherwise one sheet "Student Report" of exactly the filtered rows, named from the two filter values. |
| `Backend.Categorize` | app.py:38-41 | High exactly when p > 0.75. Medium exactly when t < p <= 0.75. Low exactly when p <= t. Here t is the double that the literal 0.4 denotes, 0.40000000000000002220446049250313080847263336181640625. |
| `Backend.CategorizeAtLowerThreshold` | app.py:39-41 | A probability equal to the double 0.4 is Low and a probability of exactly 0.75 is Medium, because both tests are strict. |
| `Backend.CategorizeMonotone` | app.py:38-41 | A higher probability never gets a lower bucket. |
| `Backend.PredictEngagement` | app.py:30-43 | No rows give no labels. Otherwise there is one label per row, in row order: the bucket of that row's probability. |
| `Backend.PredictedLabelsAreLevels` | app.py:43 | Every label is "High", "Medium" or "Low". |
| `Backend.WithPredictions` | app.py:45 | Every row gains the prediction column and every other column is unchanged. |
| `Backend.RenameKey` | app.py:51-54 | Each of the five source columns maps to a target column that the inverse map sends back. Every other name is kept. |
| `Backend.Rename` | app.py:91-97 | Every column of the row appears under its new name, and none of the five old names remains. |
| `Backend.RenameAt` | app.py:91-97 | After renaming, the five old names are absent. Every other name reads the column it was renamed from, or itself. |
| `Backend.RenameRoundTrip` | app.py:51-54 | Renaming loses nothing: the inverse map restores the row. |
| `Backend.Students` | app.py:49-57 | Row i of the list is exactly `Rename` of frame row i, and un-renaming it gives back the frame row. |
| `Backend.CourseDetails` | app.py:82-99 | 404 "Course not found" exactly when no row has that course name. Otherwise the renamed matching rows, in frame order. |
| `Backend.CourseDetailsRows` | app.py:85-97 | Every returned row has "course" equal to the requested name and comes from the frame. |
| `Backend.Search` | app.py:101-120 | A missing or empty q gives []. Otherwise the renamed rows matching the lower-cased query, in frame order. |
| `Backend.IdText` | app.py:108 | `astype(str)` of the id column: an integer id gives `DecimalString` of it and a string id gives itself. A real or missing id has no text. |
| `Text.DecimalString` | app.py:108 | `str(n)` inside `astype(str)`: non-empty, and it starts with '-' exactly when n is negative. `DecimalStringValue` proves it is Python's `str(n)`. |
| `Text.DigitsRoundTrip` | app.py:108 | The digit string of n reads back as n, and it has no leading zero when n is positive. |
| `Text.DecimalStringValue` | app.py:108 | `DecimalString(n)` is Python's `str(n)`: the digits of n for n >= 0, or "-" followed by the digits of -n. The digits read back as the number, start with a non-zero digit unless the number is 0, and 0 is "0". |
| `Backend.MatchesQuery` | app.py:108-109 | The search mask's disjunction of the id and course-name tests. A row without an id text or a course name never matches, and the empty query matches every row that has either. |
| `Backend.SearchHitIff` | app.py:107-109 | A row matches exactly when the lower-cased query occurs at some offset in the lower-cased id text or course name. |
| `Text.Contains` | app.py:108-109 | The literal `str.contains` test: a match needs a needle no longer than the haystack, and the empty needle matches every string. `ContainsIff` gives its full meaning. |
| `Text.ContainsIff` | app.py:108-109 | The recursive substring scan agrees with "occurs at some offset". |
| `Backend.SearchKeepsOrder` | app.py:108-111 | The search of a split frame is the searches of its parts, joined. |
| `Backend.ColorColumn` | app.py:76-77 | One colour per course: the i-th gets `colors[i % 4]`. |
| `Backend.ColorsCycle` | app.py:76-77 | Colours repeat with period four, and four consecutive courses get four different colours. |
| `Backend.CompletionValues` | app.py:68 | The two values are the counts of rows with completion 1 and with completion 0. |
| `Backend.CompletionChart` | app.py:68 | The `completion` chart pairs "Completed" with the count of 1s and "In Progress" with the count of 0s. |
| `Backend.CompletionValuesBounds` | app.py:62-68 | A value that never occurs counts 0. The two counts add up to at most the row count, and exactly to it when every row is 0 or 1. |
| `Pipeline.ServedStudents` | app.py:45-57 | The rows the client receives, one per frame row. Row i carries the label of frame row i's probability bucket, and its "course" is that row's "CourseName". |
| `Pipeline.HeaderKeysAreServed` | src/App.js:117-124 | Every table column is a renamed back-end column or the prediction column. Every renamed column has a table header. |
| `Pipeline.EngagementFilterMatchesBucket` | src/App.js:366-367 | A served student passes the engagement filter for a level exactly when its probability lies in that level's bucket. |

## Left out

- Session store, login, registration, logout, tokens and route guard: the code contains none of them.
- Rendering, JSX, charts, routing, animation and CSS: presentation only.
- `fetch`, `Promise.all`, loading flags and `console.error`: network I/O. `ReportsPage.Loaded` stands for the state update after a fetch.
- Spreadsheet writer internals (`book_new`, `json_to_sheet`, `writeFile`) and the script that loads it: the writer is opaque. `HandleDownload` takes its presence as a parameter and returns the workbook value it would be handed.
- Column order inside the exported sheet: records are maps, which have no column order.
- `encodeURIComponent` / `decodeURIComponent`: foreign calls. `Header.HandleSearch` returns the raw trimmed query rather than the encoded URL. `e.preventDefault()` is not modelled.
- The CSV load, `dropna`, `StandardScaler`, `LogisticRegression` and `train_model.py`: ML training over floats. The model's output enters as the `probability` parameter of `PredictEngagement`.
- `.round(2)`, `toFixed(2)`, the `groupby` means and counts of `get_dashboard_stats` and `get_courses`, and the `value_counts` order of the engagement labels: floating-point and pandas internals. `Backend.Students` returns the rows unrounded.
- Flask routing, CORS and JSON serialization.
- `Backend.PredictEngagement`: a pandas frame with rows but no columns is also "empty". The model treats only a frame with no rows as empty.
- `Sorting.SortInPlace`: the engine's algorithm is modelled as an insertion sort by neighbour swaps. That sort only swaps when `Compare` is positive, so it is stable, as `Array.prototype.sort` must be since ECMAScript 2019. Stability is not stated in the contract.
- `Sorting.SortableData.SortedItems`: the comparator is consistent only when every record holds the key with one kind of value. A missing key or a mix of numbers and strings breaks that, and then ECMAScript leaves the order to the implementation. In that case the neighbour-order ensures describes the modelled insertion sort, not every engine. The permutation ensures holds for any engine.
- `Records.Less`: JavaScript converts a numeric string to a number before comparing it with a number. The model treats a number and a string as unordered, which is what JavaScript does for non-numeric strings. Strings are ordered by code point rather than by UTF-16 code unit, which differs only for characters outside the Basic Multilingual Plane.
- `Text.Lower`: only ASCII letters are case-folded. `toLowerCase`, Python's `lower` and case-insensitive regex matching also fold other letters.
- `Backend.Search`: requires a query without regular-expression metacharacters, where `str.contains` is a literal substring test. What pandas does for other queries (regex semantics, or an error for input like `(`) is not modelled.
- `Backend.IdText`: only integer and string ids have text. A float or missing id never matches, whereas pandas would search its text form.
- `Backend.Rename`: requires that no row already has a column named like a rename target. Pandas would otherwise produce duplicate column names.
- `Backend.CompletionValues`: counts the integer values 1 and 0 only. Pandas would also count 1.0 and 0.0 under those keys.
