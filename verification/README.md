# Pressure-versus-time dashboard: a verified model

The page loads measurement files (plain `.txt` files or ZIP archives of them). It turns every
text document into a series of `[timestamp, value]` points, keeps the series in one
mutable `state` record, and shows them through a time-range filter. Alongside the chart it
shows a difference curve when exactly two series are loaded, summary metrics over the
points in view, and an event log of jumps of more than 5% in the last series.

This project models that core in `main.js`:
- reading and sanitising documents, and `parseDataFromTxt`;
- `createSeriesObject`, `pickSeriesColor` and `handleIncomingFiles`;
- removing a series;
- the range selector, the custom-range button and `applyRangeFilter`;
- what `applyRangeFilter` derives for the page: the excluded-series list, `updateComparisonDiff`, `updateStats` and `renderEvents`.

Modules, in dependency order:

- `Wrappers` and `Seqs` (seqs.dfy): `Option`, list filtering (`Array.prototype.filter`), subsequences, prefixes, and `Math.min`/`Math.max` over a list.
- `Points` (points.dfy): a measurement, sortedness, and the stable sort by timestamp.
- `TextParser` (text_parser.dfy):
  - the sanitising `replace`;
  - `split`, `split(/\r?\n/)` and `trim`;
  - one line's parse and `parseDataFromTxt`, as a function and as the source's loop;
  - the archive entry test.
- `Store` (store.dfy):
  - the series record and the palette;
  - removal by id;
  - what a file and a batch of files add to the store, as functions of the documents each file yields.
- `RangeFilter` (range_filter.dfy): the window of each range, the per-series filter and the excluded list.
- `Derived` (derived.dfy): the difference curve, the statistics and the events, each loop as a method proved equal to its specification function.
- `Dashboard` (dashboard.dfy): the class `AppState`, holding the page's `state` and its handlers as methods that update it in place.

`new Date(s).getTime()` and `parseFloat(s)` are parameters (`Parsers`). A result of `None` stands for NaN. File reading is a parameter too: the class's `load` turns a selected file into its documents. A `.txt` file becomes the file's own text. Any other file becomes the archive's text entries.

## Model

| member | source | states |
|---|---|---|
| Seqs.MinOf | main.js:612 | the least timestamp is one of the timestamps and no timestamp is below it |
| Seqs.MaxOf | main.js:613 | the greatest timestamp is one of the timestamps and no timestamp is above it |
| Points.SortByTime | main.js:242 | the sorted points are ordered by timestamp and are a permutation of the input (same multiset, same length) |
| Points.SortByTimeStable | main.js:242 | the sort is stable: for every timestamp, the points carrying it keep their input order |
| Points.SortByTimeOfSorted | main.js:242 | points already in time order are returned unchanged |
| Points.FilterSorted | main.js:644 | filtering the points of a sorted series leaves them sorted |
| TextParser.Sanitize | main.js:194 | the sanitised text is no longer than the input and holds only printable ASCII, tab, CR and LF |
| TextParser.SanitizeIsExactDeletion | main.js:194 | sanitising deletes characters without reordering; each allowed character keeps its count and every other character disappears; a second sanitise changes nothing |
| TextParser.SanitizeLocal | main.js:212 | sanitising distributes over concatenation and leaves clean text unchanged |
| TextParser.Split | main.js:231 | `split` on one character yields one more piece than the text has separators, and no piece contains the separator |
| TextParser.SplitThenJoin | main.js:231 | joining the pieces of a split with the separator gives back the line |
| TextParser.JoinThenSplit | main.js:231 | splitting a join of separator-free pieces gives back the pieces, so `split` loses nothing |
| TextParser.SplitLines | main.js:225 | the text is cut into one more line than it has LFs, and no line holds an LF |
| TextParser.SplitLinesPieces | main.js:225 | line i is the i-th LF-separated piece of the text; every line but the last loses one trailing CR if it has one, and the last line is kept as it is |
| TextParser.SplitLinesWithoutCR | main.js:225 | text without CR is cut exactly at its LFs, and joining the lines with LF gives the text back |
| TextParser.TrimEmptyIffBlank | main.js:229 | `line.trim()` is empty exactly when the line holds only JavaScript whitespace and line terminators |
| TextParser.ParseLine | main.js:229-239 | a line yields a point iff it is not blank, has at least three tab-separated fields, and field 0 parses as a date and field 2 as a number; the point is that (date, number) pair |
| TextParser.AcceptedPointsFromLines | main.js:228-240 | a point is collected exactly when some line of the text parses to it |
| TextParser.ParseData | main.js:224-243 | the parse result is ordered by timestamp |
| TextParser.ParseDataSpec | main.js:224-243 | the result is a sorted permutation of the accepted points, has no more points than the text has lines, and holds a point iff some line parses to it |
| TextParser.ParseDataFromTxt | main.js:224-243 | the source's line loop followed by the sort returns exactly the specified parse result |
| TextParser.LowerChar | main.js:207 | lower-casing maps each ASCII capital to its small letter (32 code points up) and leaves every other character alone |
| TextParser.TxtNameIsLoweredSuffix | main.js:207 | the extension test is "the lower-cased name ends with .txt" |
| TextParser.TxtNameCaseInsensitive | main.js:265 | a name passes the extension test iff it ends in a dot followed by t, x, t in either case |
| Store.Hex | main.js:14-17 | every series colour is one of the eight palette strings |
| Store.PaletteCycle | main.js:662-664 | `pickSeriesColor(i)` is palette entry `i % 8`; colours repeat every eight positions; two positions get the same colour (and the same CSS string) iff they agree modulo 8 |
| Store.HexInjective | main.js:14-17 | the eight palette strings are pairwise different |
| Store.RemoveById | main.js:391 | after removal, every remaining series was in the store and none carries the removed id |
| Store.RemoveByIdKeepsOthers | main.js:391 | removal keeps every other series in order; an absent id changes nothing; increasing ids stay increasing |
| Store.RemoveByIdRemovesOne | main.js:391 | with distinct ids, removing a present id shortens the store by exactly one |
| Store.ArchiveDocuments | main.js:201-217 | an archive yields no more documents than it has entries |
| Store.ArchiveDocumentsSound | main.js:205-213 | every document read from an archive is a non-directory `.txt` entry of it, under the entry's name, with sanitised content |
| Store.ArchiveDocumentsComplete | main.js:205-213 | every non-directory `.txt` entry of the archive is read |
| Store.ArchiveDocumentsIndexed | main.js:205-216 | the documents are the text entries in archive order: one per non-directory `.txt` entry, at increasing entry positions, each with that entry's name and sanitised text |
| Store.LoadedDocumentsSpec | main.js:265-268 | a file whose name ends in ".txt" in any case is read whole as one sanitised document under its own name; any other file is read as an archive; every loaded document holds only the characters the sanitiser keeps |
| Store.DocSeries | main.js:271-274 | one document adds at most one series |
| Store.DocsSeries | main.js:270-275 | a file's documents add at most one series each |
| Store.DocsSeriesNew | main.js:250-258 | the series of one file take consecutive ids and all have the file's colour; each holds a non-empty list of points, with filtered points equal to the original points |
| Store.DocsSeriesOnePerDocument | main.js:270-275 | exactly one series per document that yields points, in document order, named after the document and holding its parsed points; documents without points add none |
| Store.FilesSeriesNew | main.js:261-276 | the series a batch of files adds take consecutive ids and are all freshly created |
| Store.FilesSeriesPrefix | main.js:261-276 | the series of the first k files are a prefix of those of the first n, so later files only append |
| Store.FileColor | main.js:262 | every series a file adds has the colour picked from the store size before that file, so all series of one file share a colour |
| Store.NoPointsNoSeries | main.js:272 | a file whose documents yield no points adds no series |
| Store.EmptyDocumentsAddNothing | main.js:261-276 | a batch whose documents all yield no points leaves the store as it was |
| RangeFilter.RangeOf | main.js:618-639 | the selector value selects the custom window iff it is "custom" |
| RangeFilter.SelectorWindows | main.js:615-639 | "24h", "48h", "7d" and "30d" end at the latest timestamp and start 86 400 000, 172 800 000, 604 800 000 and 2 592 000 000 ms before it; "custom" uses the custom bounds; "all" and any unlisted value span the data from the earliest to the latest timestamp |
| RangeFilter.OriginalTimesHas | main.js:611-612 | the timestamp of every point of every series is among those the window is computed from |
| RangeFilter.OriginalTimesFrom | main.js:611-613 | every timestamp the window is computed from belongs to a point of some series |
| RangeFilter.WindowPoints | main.js:644 | a series' filtered points are no more than its own points, and all lie in the window |
| RangeFilter.WindowPointsSubsequence | main.js:644 | the filtered points are exactly the series' points in the window, each as often as it occurs, in their order; they stay sorted; filtering again changes nothing |
| RangeFilter.Refilter | main.js:644 | refiltering changes only the filtered points of a series |
| RangeFilter.Refiltered | main.js:643-646 | every series of the store is refiltered, in store order, and none is added or dropped |
| RangeFilter.Excluded | main.js:645 | every series reported as excluded has no points in view |
| RangeFilter.ExcludedExactly | main.js:641-646 | the excluded list holds every series left without points, in store order, and nothing else |
| RangeFilter.RefilterWellFormed | main.js:644 | refiltering keeps a series' filtered points a subsequence of its sorted, non-empty original points |
| RangeFilter.OriginalTimesRefiltered | main.js:611-613 | filtering does not change the timestamps the window is computed from |
| RangeFilter.RangeFilterIdempotent | main.js:604-646 | applying the range filter twice yields the same store as applying it once |
| RangeFilter.AllKeepsEverything | main.js:619-622 | under "all", or any value the switch does not list, every series keeps all of its points |
| RangeFilter.PresetKeepsRecent | main.js:623-634 | under a preset of h hours, a point is kept iff it is at most h hours older than the latest timestamp in the whole store |
| RangeFilter.SomeSeriesSurvives | main.js:611-646 | outside "custom", the series with the latest point keeps it, so some series is not excluded |
| RangeFilter.CustomBounds | main.js:10-11 | a custom range never applied (null bounds) keeps only points stamped exactly 0; a custom bound that did not parse (NaN) keeps nothing |
| Derived.PairwiseDiff | main.js:529-535 | the curve has as many points as the shorter series; point i is the mid-time of the two i-th points and the absolute difference of their values |
| Derived.ComparisonDiff | main.js:521-535 | a difference curve exists iff the store holds exactly two series, and the source's loop computes exactly the pairwise curve of their filtered points |
| Derived.PairwiseDiffTruncate | main.js:529 | points past the end of the shorter series play no part |
| Derived.PairwiseDiffSymmetric | main.js:534 | swapping the two series gives the same curve, and its values are never negative |
| Derived.PairwiseDiffSelf | main.js:534 | a series compared with itself gives value 0 at each of its timestamps |
| Derived.PairwiseDiffExample | main.js:533-534 | a worked example of two two-point series |
| Derived.FilteredPoints | main.js:442 | the flattened list is empty iff no series has a point in view |
| Derived.FilteredPointsMembers | main.js:442 | a point is in the flattened list iff it is in view in some series |
| Derived.MinValue | main.js:467 | the minimum is the value of some point in view and no value is below it |
| Derived.MaxValue | main.js:468 | the maximum is the value of some point in view and no value is above it |
| Derived.SumBounds | main.js:469 | the sum of n values lies between n times a lower and n times an upper bound of them |
| Derived.MeanBounds | main.js:469 | the mean of values within bounds stays within them |
| Derived.StatsPresence | main.js:441-462 | the series count is the store size; the summary is missing (the "—" sentinel) iff no series has a point in view, and otherwise summarises all points in view |
| Derived.SummaryValues | main.js:464-469 | the count is the number of points; min and max are attained and bound every value; the mean lies between them |
| Derived.SummaryTimes | main.js:471-472 | the start and end dates are timestamps of points in view and bound all of them |
| Derived.JumpEvents | main.js:415-433 | a series of n ≥ 1 points logs at most n − 1 events, and an empty series none |
| Derived.RenderEvents | main.js:409-434 | the source's loop logs exactly the specified events of the series |
| Derived.JumpEventsSpec | main.js:415-420 | an event is logged exactly for each point that jumps from its predecessor, with that point's time and both values |
| Derived.JumpEventsIndexed | main.js:415-433 | the events are one per jumping point, in increasing point order: event k belongs to the k-th jumping index, and every jumping index has its event |
| Derived.JumpEventsOrdered | main.js:415-433 | events come out in time order whenever the series' points are sorted |
| Derived.JumpThresholds | main.js:420 | after a positive value, a jump is a step outside [0.95, 1.05] times it; after a negative value every step counts; after zero nothing does |
| Derived.EventsExample | main.js:415-420 | a worked example: 100 to 104 is not a jump, 104 to 110 is |
| Dashboard.Batches | main.js:261-268 | the files are read in order, one batch of documents per file |
| Dashboard.ValidStoreHasData | main.js:605-613 | a non-empty store always has a timestamp to take the window from |
| Dashboard.AfterRangeFilterValid | main.js:641-646 | filtering keeps the store valid, with the same series in the same order and their ids, names, colours and own points untouched |
| Dashboard.RemoveByIdValid | main.js:391 | removal keeps the store valid |
| Dashboard.AppendNewValid | main.js:274 | appending a freshly created series with the next id keeps the store valid |
| Dashboard.ParserSortsByTime | main.js:242 | every parse result the page stores is ordered by time |
| Dashboard.BoundOf | main.js:596-597 | a custom bound is NaN iff its date does not parse, and otherwise the date's milliseconds |
| Dashboard.AppState.constructor | main.js:5-12 | the initial state: no series, range "all", null custom bounds |
| Dashboard.AppState.CreateSeriesObject | main.js:250-258 | the new series has a fresh id, the given name and colour, and filtered points equal to its points |
| Dashboard.AppState.RefilterAll | main.js:641-646 | the loop refilters every series in place and collects exactly the excluded series |
| Dashboard.AppState.ApplyRangeFilter | main.js:604-655 | the store is refiltered into the current window (unchanged when empty) and stays valid; the view holds the excluded list, the curve, the metrics and the last series' events |
| Dashboard.AppState.AddDocuments | main.js:270-275 | the inner loop appends exactly the file's series, keeping the store valid and ids consecutive |
| Dashboard.AppState.AddDocument | main.js:271-274 | a document with points appends one new series; one without adds nothing |
| Dashboard.AppState.AddFile | main.js:262-275 | a file's series are appended in the colour for the store size before it |
| Dashboard.AppState.AddFiles | main.js:261-276 | the outer loop appends exactly the batch's series, in file order, keeping the store valid |
| Dashboard.AppState.HandleIncomingFiles | main.js:260-280 | the batch's series are appended, then the range filter is applied to the whole store |
| Dashboard.AppState.RemoveSeries | main.js:390-394 | the series with that id is dropped, then the range filter is applied |
| Dashboard.AppState.SelectRange | main.js:581-588 | the value is stored; "custom" changes nothing else, any other value applies the range filter under it |
| Dashboard.AppState.ApplyCustomRange | main.js:590-600 | with an empty input nothing changes; otherwise both dates become the custom bounds and the filter is applied under the current range |

## Left out

- Drawing: the Highcharts chart, the file list, the warning box's markup (main.js:553-567), theme and scale switches, and `localStorage` are not modelled. A `View` value stands in for what the page would draw.
- The `chartInstance` guards (main.js:516 and the start of `plotAllFilteredSeries`, main.js:345): the model computes the curve and the metrics as if the chart exists.
- File I/O: `FileReader` and `JSZip` are represented by the text and entries an `InputFile` carries. Archive entries are taken in listing order. Reading is not asynchronous and cannot fail.
- Drag-and-drop and the file input's own filters (main.js:170-182) are not modelled; `HandleIncomingFiles` accepts whatever files it is given.
- Numbers: values are exact reals and timestamps unbounded integers. Floating-point rounding, Infinity and `Math.min(...xs)` argument-count limits are not modelled.
- `new Date(s)` and `parseFloat(s)` are parameters with a `None` (NaN) result; their own parsing rules are not modelled.
- Series ids: `Math.random` strings (main.js:252) are replaced by a counter, which makes ids unique.
- Display formatting (`toExponential`, `toLocaleString`) is not modelled; the summary holds the raw numbers and millisecond times.
- Series are values: the source's series objects can be aliased. The model's store holds copies, which behave the same because the page only reaches a series through `state.series`.
- TextParser.LowerChar: lower-cases ASCII letters only. For the ".txt" test this gives JavaScript's answer, since no other character lower-cases to '.', 't' or 'x'.
- Dashboard.AppState.ApplyRangeFilter: on an empty store the excluded-series warning is left as it was (`None`), as in the source, where `showExcludedSeriesWarning` is not called.
- The custom range follows the code: bounds that were never applied are `null` and compare as 0, and a date that does not parse gives NaN, which keeps no point. The model does not replace these cases with a validation error.
- The date and number readers and the file loader are fixed when the state is constructed.
