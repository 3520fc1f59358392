# compare-zipcodes: the region comparison, modelled in Dafny

`compare_regions(a, b)` compares the household demographics of two US zip codes.
It works in five steps:

1. It resolves each zip to its state through a zip-lookup service.
2. It downloads each region's pickled household table from the census data server.
3. It counts households per `(age, gender, ethnicity)` group.
4. It outer-joins the two count series, filling a missing count with 0, and
   standardises the per-group difference `count_a - count_b` (scipy's `zscore`,
   population standard deviation).
5. It reports every group with `|z| > 2`.

The same function appears twice, word for word: in `compare-zipcodes.py` (stdio
tool) and in `server.py` (HTTP/SSE server). The model covers both. Lines 14-48 of
`compare-zipcodes.py` are lines 22-56 of `server.py`, and lines 50-79 are lines
152-181 of `server.py`. The table below cites `compare-zipcodes.py`.

Modules, one per stage:

- `Types`: households, group keys, `Option`.
- `Aggregation`: `groupby(...).size()`. It has a counting method, `Aggregate`, and
  its reference definition, `GroupSizes`.
- `Alignment`: the outer join with zero fill (`Align`) and the combined frame's rows (`Frame`).
- `Scoring`: the z-score test over exact reals. It uses the squared form
  `(d - mean)^2 > 4 * variance` instead of `|z| > 2`.
- `Report`: the `result` list built in a loop and joined with `"\n"`.
- `Decimal`: `str(status)`.
- `Resolver`: how `get_state_from_zip` reads the lookup reply.
- `Fetcher`: the dataset URL and `make_request`.
- `Compare`: `compare_regions` as a method (`CompareRegions`), its specification
  function (`CompareSpec`) and the lemmas about it.

Inputs the code takes from the outside are parameters:

- the lookup service's answer per request URL (`string -> LookupOutcome`);
- the dataset server's answer per URL (`string -> Reply`), including what
  `pd.read_pickle` makes of the body;
- the text renderings of a group tuple and of a z value (`Rendering`).

Three behaviours of the code that the model keeps:

- A failed download is not turned into a message. `make_request` re-raises every
  failure as `Exception("Error fetching data from the server.")`, and
  `compare_regions` does not catch it. The model's outcome is then `Threw`.
- "Error loading data for one or both regions." comes back only when a downloaded
  pickle holds `None`. The built URL always ends in `.pkl`, so the suffix check
  never returns `None` (`Compare.LoadErrorIffPickledNone`).
- Zero variance is not handled explicitly. scipy yields NaN and `NaN > 2` is false.
  The squared test gives the same answer because `0 > 0` is false
  (`Scoring.ZeroVarianceSelectsNothing`).

## Model

| member | source | states |
|---|---|---|
| Aggregation.Count | compare-zipcodes.py:65-66 | a group's size never exceeds the number of rows |
| Aggregation.GroupSizes | compare-zipcodes.py:65-66 | no group in the series is empty, and no group holds more rows than the table |
| Aggregation.Aggregate | compare-zipcodes.py:63-66 | counting the rows one by one, bumping each row's group, yields exactly the series `GroupSizes(rows)` |
| Aggregation.CountPositiveIffObserved | compare-zipcodes.py:65-66 | a group's count is non-zero if and only if some row falls into it |
| Aggregation.GroupSizesStep | compare-zipcodes.py:65-66 | appending one row raises its own group's count by one (a new group starts at 1) and changes no other group |
| Aggregation.GroupSizesExact | compare-zipcodes.py:65-66 | the series holds exactly the observed groups, once each; each entry is the number of rows in that group and is at least 1; an unobserved group has no rows |
| Aggregation.TotalIsRowCount | compare-zipcodes.py:65-66 | the group sizes add up to the number of rows |
| Alignment.Align | compare-zipcodes.py:68 | the joined key set is the union of both series' keys; an existing count is kept unchanged, and a group missing from one side gets 0 on that side |
| Alignment.Frame | compare-zipcodes.py:68 | the frame has no more rows than the order lists; every row belongs to a joined group and carries that group's two joined counts |
| Alignment.OrderKeys | compare-zipcodes.py:68 | the chosen row order lists every joined group exactly once |
| Alignment.FrameOfEnumeration | compare-zipcodes.py:68 | under such an order, the frame has one row per listed group, in that order, with its joined counts |
| Alignment.FrameHasEachGroupOnce | compare-zipcodes.py:68 | every group of either series appears in exactly one frame row, and no other group appears |
| Alignment.FrameOfSwappedSeries | compare-zipcodes.py:68 | joining the series the other way round gives the same rows with the two counts exchanged |
| Alignment.FrameRowsOfEnumeration | compare-zipcodes.py:68 | whatever order enumerates the joined groups, the frame holds no row twice, and its rows are exactly the joined groups with their two counts |
| Scoring.SumSqDev | compare-zipcodes.py:69 | the sum of squared deviations is never negative |
| Scoring.PopVar | compare-zipcodes.py:69 | the population variance is non-negative, and n times it is the sum of squared deviations (so the squared z values add up to n whenever the variance is positive) |
| Scoring.SignificantRows | compare-zipcodes.py:71 | the kept rows are exactly the rows that pass the squared test, never more than the input |
| Scoring.SelectionInFrameOrder | compare-zipcodes.py:71-75 | the kept rows are the frame's rows at the passing positions, taken in increasing order, so each passing row appears once and in frame order |
| Scoring.Select | compare-zipcodes.py:71 | `significant_diffs` holds exactly the frame rows whose deviation passes the test against the frame's own mean and variance; the mask `abs(z) > 2` is `Scoring.IsSignificant`, in squared form |
| Scoring.DeviationsSumToZero | compare-zipcodes.py:69 | the deviations of the differences from their mean sum to zero, so the z column has mean 0 |
| Scoring.SquaredTestMatchesZ | compare-zipcodes.py:69-71 | for a positive standard deviation, `(d - mean)^2 > 4 * sd^2` holds exactly when `abs(d - mean) / sd > 2` |
| Scoring.SignificantMass | compare-zipcodes.py:71 | the kept rows carry more than 4 * variance each of the squared deviations |
| Scoring.SelectionIsSparse | compare-zipcodes.py:69-71 | if any group is flagged, the variance is positive and fewer than a quarter of the groups are flagged |
| Scoring.ZeroVarianceSelectsNothing | compare-zipcodes.py:69-71 | zero variance (scipy's NaN case) flags no group |
| Scoring.ConstantDifferencesSelectNothing | compare-zipcodes.py:69-71 | if every group has the same difference, the variance is zero and nothing is flagged |
| Scoring.SelectionSymmetric | compare-zipcodes.py:69-71 | exchanging the two regions' counts flags the same rows, in the same order, with the counts exchanged |
| Scoring.FrameOrderIrrelevant | compare-zipcodes.py:68-71 | the row order of the combined frame does not matter: two frames of the same join under any two enumerations of its groups have the same sum of differences, mean and variance, and flag the same rows |
| Report.Lines | compare-zipcodes.py:74-75 | one ` - {idx}: z=...` line per flagged row, in frame order; the f-string of line 75 is `Report.Line` |
| Report.ReportLines | compare-zipcodes.py:72-77 | with no flagged row the list is the single "no differences" line; otherwise it is the header followed by exactly one line per flagged row, in order |
| Report.JoinLines | compare-zipcodes.py:79 | a single line is returned as it is; with more lines the text opens with the first line and a newline |
| Report.SplitLines | compare-zipcodes.py:79 | splitting at newlines gives at least one piece, and no piece holds a newline |
| Report.FormatReport | compare-zipcodes.py:72-79 | the appended list is the "no differences" line alone, or the header followed by one line per flagged row; the text is that list joined with `"\n"` |
| Report.SplitJoin | compare-zipcodes.py:79 | splitting the joined text at newlines gives back the lines, if no line holds a newline |
| Report.ReportShape | compare-zipcodes.py:72-79 | an empty selection gives exactly "No significant demographic differences found."; otherwise the text splits into the header and exactly one line per flagged row, in frame order |
| Report.ReportOpening | compare-zipcodes.py:72-79 | the text is the "no differences" line exactly when nothing is flagged; a non-empty selection's text starts with the header and a newline |
| Decimal.NatToDecimal | compare-zipcodes.py:29 | the status is written as non-empty decimal digits with no leading zero |
| Decimal.DecimalRoundTrip | compare-zipcodes.py:29 | reading those digits back gives the status |
| Resolver.LookupUrl | compare-zipcodes.py:15 | the zip is appended to the lookup URL unchanged and can be read back from it |
| Resolver.StateFromZip | compare-zipcodes.py:14-31 | a 200 reply yields the consulted record's `state` or "State not found"; any other reply, and any exception, yields a text starting with `Error: `; `.get('state', "State not found")` of lines 24 and 26 is `Resolver.StateOf` |
| Resolver.ExceptionCarriesMessage | compare-zipcodes.py:30-31 | an exception during the lookup yields `Error: ` followed by the exception's message unchanged |
| Resolver.ErrorReplyCarriesStatus | compare-zipcodes.py:27-29 | a reply other than 200 yields `Error: {status}, {text}`, and the status can be read back from it |
| Resolver.SentinelIffNoState | compare-zipcodes.py:21-26 | for a 200 reply, "State not found" comes back exactly when the list is empty or the consulted object has no `state` (unless the state is literally that text) |
| Resolver.StateComesFromConsultedRecord | compare-zipcodes.py:21-26 | for a 200 reply, a `state` on the first list element, or on the single object, is returned as it is |
| Fetcher.DatasetUrl | compare-zipcodes.py:55-56 | the dataset URL starts with the base URL and a slash, and ends in `_household.pkl` (so in `.pkl`) |
| Fetcher.MakeRequest | compare-zipcodes.py:33-48 | an unreachable server or a non-2xx status raises; a table comes back only from a 2xx reply holding it; `None` comes back only from a 2xx reply whose URL lacks `.pkl` or whose body unpickles to `None`; `raise_for_status()` of line 38 lets through the statuses `Fetcher.IsSuccess` accepts (2xx) |
| Fetcher.NonPickleUrlGivesNone | compare-zipcodes.py:40-48 | a successful download from a URL without `.pkl` returns `None` |
| Fetcher.BuiltUrlOutcomes | compare-zipcodes.py:36-48 | for a built URL, `make_request` returns `None` exactly on a 2xx reply that unpickles to `None`; it returns a table exactly on a 2xx reply holding one; it raises exactly when the server is unreachable, the status is not 2xx or the body cannot be read |
| Compare.FetchRegion | compare-zipcodes.py:52-56 | fetching a region's built URL gives `None` exactly when its 2xx reply unpickles to `None`, and a table exactly when its 2xx reply holds that table |
| Compare.Analyse | compare-zipcodes.py:63-79 | the report is "No significant demographic differences found." exactly when no group is flagged; otherwise it opens with the header line |
| Compare.CompareSpec | compare-zipcodes.py:50-79 | an escaping exception is always "Error fetching data from the server."; any returned text other than the load error comes from two fetched tables |
| Compare.CompareRegions | compare-zipcodes.py:50-79 | the step-by-step run ends as the specification does; once both tables are fetched, its frame order lists every observed group of either table exactly once |
| Compare.RaisesIffFetchRaises | compare-zipcodes.py:47-56 | the call raises "Error fetching data from the server." exactly when one of the two fetches raises |
| Compare.ReportIsNotLoadError | compare-zipcodes.py:72-79 | a computed report is never the load-error message |
| Compare.LoadErrorIffPickledNone | compare-zipcodes.py:40-59 | "Error loading data for one or both regions." is returned exactly when neither fetch raises and one download unpickles to `None` |
| Compare.IdenticalGroupsReportNothing | compare-zipcodes.py:68-77 | two tables with the same group sizes give exactly "No significant demographic differences found.", whatever the frame order |
| Compare.FewGroupsReportNothing | compare-zipcodes.py:69-77 | with at most four groups in the combined frame, the report is always "No significant demographic differences found." |
| Compare.SwappedRegionsFlagSameGroups | compare-zipcodes.py:68-71 | under one shared frame order, comparing b with a flags the same groups as comparing a with b, in the same order |
| Compare.SwappedRegionsFlagSameGroupSet | compare-zipcodes.py:68-71 | comparing b with a flags the same set of groups as comparing a with b, whatever row order each call's combined frame has (pandas lists the first argument's groups first, so the two orders differ) |

## Left out

- Network calls are parameters. The `aiohttp` lookup and the `httpx` GET with its
  30-second timeout are not modelled; a timeout is one way the store can be `Unreachable`.
- The temporary file and `pd.read_pickle` are not modelled. Their result is the
  `Unpickled` value of the reply: a table, `None`, or unreadable.
- A pickle that holds some other object, or a table that lacks one of the three
  columns, is not modelled. In the code it raises inside `compare_regions` with a
  different exception.
- The lookup body is a list of objects or one object, and `state` is a string or
  absent. A body of another shape (not a list or object, or a list whose first
  element is not an object) raises inside the `try` and is caught, like a parse
  failure: that is the `Failed(message)` case. A `state` member that is present
  but not a string (`null`, a number) is not modelled: `.get` returns it as it is,
  without raising, and compare-zipcodes.py:55 writes its `str()` (`None`, `5`) into
  the dataset URL, so it acts like a state string equal to that text. Python's
  exception messages (`str(e)`) are given, not computed.
- `Report.Rendering` gives the text of `{idx}` (Python's repr of the group tuple) and
  of `{z:.2f}` (deviation / sqrt(variance), rounded). The model has no `sqrt` and no
  float rounding. Whether a group is flagged is decided exactly over reals, with no
  floating-point error. At the boundary the two can differ: with five groups whose
  differences are `[1, 0, 0, 0, 0]` the outlier's exact |z| is 2, so the model does not
  flag it, while the program's float computation may land on either side of 2.
- The row order pandas gives the combined frame is not modelled. The model lets
  `OrderKeys` pick any order that lists each group once, and the lemmas hold for
  every order.
- Rows whose grouping columns are NaN (which `groupby` drops) are not modelled. Cell
  values are modelled as labels.
- Aggregation.GroupSizesExact: grouping columns of pandas `Categorical` dtype are not
  modelled. With such a column, `groupby(...).size()` (pandas' default
  `observed=False`) also lists the unobserved category combinations with count 0,
  and those extra difference-0 rows would change the mean, the variance and so the
  flagged groups. The model assumes non-categorical grouping columns.
- The hard-coded API key, the unused `api_key` parameter and the async sequencing
  have no effect on the result and are not modelled. The `DATA_BASE_URL` constant
  already ends in `/`, so the built URL has a doubled slash after it. The model
  keeps it as written.
- MCP tool registration, `mcp.run`, the Starlette app, the SSE transport, uvicorn and
  the HTML page (`server.py:59-149`, `server.py:184-213`) are transport and UI, and
  are not modelled.
