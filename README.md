# Exit-destination breakdowns with a daily plot cache

This project models `app/visualize.py` of a social-service program's data
service. That file turns the exit records of program members into two charts:

- a moving-average line chart: for windows of `m` days (90 or 365) ending at
  stepped dates before a reference day, the share of each exit destination;
- a pie chart: one count per exit in the last `m` days.

Both routes keep the rendered figure in a cache directory. Each file name
carries the chart type, its parameters and the day of the year. Writing a new
file sweeps away every file whose name lacks today's day marker.

Dates are day ordinals, the numbers `date.toordinal()` gives: 1 is
0001-01-01 and 3652059 is 9999-12-31. Subtracting a `timedelta` is
subtraction of day numbers. It raises `OverflowError` outside that range, or
for a `timedelta` of more than 999999999 days. The reference day `last` and
the day of the year `doy` are parameters. The cache directory is a map from
file name to the stored figure, held by the class `DailyCache.PlotCache`.
Proportions are exact `real`s (count / total). Three files support the model:

- `Text.dfy`: decimal rendering of integers and Python's substring test;
- `Dates.dfy`: the date range and `date - timedelta`;
- `Results.dfy`: the error and result datatypes.

Files and modules:

- `Records.dfy` (`Records`): the record source. It holds the half-open
  filter `(first, last]` used by the query and by every bucket window,
  per-destination counts, `df['dest'].unique()`, and the `_exit_df` loop.
- `Aggregator.dfy` (`Aggregator`): `STEP`, Python's `range`, the bucket end
  dates, the per-bucket breakdown, the moving series and the pie table.
- `Charts.dfy` (`Charts`): `plot_moving_avg` and `plot_exit_pie` as methods,
  the figure payload, and the fixed legend order and colour map.
- `DailyCache.dfy` (`DailyCache`): cache file names, the sweep, and the
  `PlotCache` class with `UpdateCache`.
- `Routes.dfy` (`Routes`): `_check_m` and the two routes' hit/miss flow.

The model follows the code at these points, where a reader might expect
something else:

- A window with no exits could be expected to give a breakdown of zeros. The
  code divides by zero instead (Python `int / int`).
- Zero fetched records could be expected to give an empty chart. Instead the
  table has no `dest` column, so both charts fail. This is
  `Err(MissingDestColumn)`.
- A breakdown could be expected to have a key for each of the five fixed
  categories. It has one key per destination that occurs in the fetched
  records.
- The sweep could be expected to keep only files of exactly today. It keeps
  every name that contains `d{DoY}` as a substring. So on day 14 it keeps
  `...-d145.json` (`SweepKeepsExtendedDay`).
- `days_back` could be expected to be at least 0. A negative `days_back` is
  accepted. It gives a negative `STEP` and end dates after `last`
  (`NegativeDaysBack`).
- A very large `days_back` overflows. For example, `GET
  /exit-moving-avg/90/1000000` raises `OverflowError` from any `last` before
  day 1000091 (`ForwardOutcome`).
- A cache entry could be expected to expire after its day. The name carries
  the day of the year but no year. A file written on day 145 survives every
  sweep on day 145. A request on day 145 of a later year is then served that
  figure, computed from an earlier `last` (`Routes.MovingAvg`,
  `DailyCache.CacheNamesDistinct`).

## Model

| member | source | states |
|---|---|---|
| `Routes.CheckM` | app/visualize.py:158-162 | succeeds iff m is 90 or 365; otherwise the error is status 404 with detail "Not found. Try m=90 or m=365" |
| `Routes.MovingAvg` | app/visualize.py:20-41 | an invalid m is rejected whatever the cache holds; a hit on `MA{m}-{days_back}-d{DoY}.json` returns the stored figure and schedules nothing; a miss returns the computed line chart and, unless computing raised, schedules one update storing that same figure under that name |
| `Routes.ExitPie` | app/visualize.py:44-64 | the same check, hit and miss behaviour for `PIE{m}-d{DoY}.json` and the pie chart |
| `Routes.RunPending` | app/visualize.py:38-39 | running a scheduled update leaves the directory as the write-then-sweep of `_update_cache` leaves it; with nothing scheduled the directory is unchanged |
| `Routes.SameDayMovingAvg` | app/visualize.py:30-41 | two same-day requests for one line chart, the scheduled update run in between, get the same answer (a success or the same error), a success is stored in the cache under the request's name, and the second schedules nothing |
| `Routes.SameDayExitPie` | app/visualize.py:53-64 | the same for the pie chart |
| `DailyCache.PlotCache.UpdateCache` | app/visualize.py:147-155 | afterwards the directory is the old one with `name` mapped to `fig`, restricted to the names containing `d{DoY}`, contents unchanged |
| `DailyCache.DayTag` | app/visualize.py:31 | the day marker is a 'd' followed by the day's decimal digits |
| `DailyCache.MovingAvgName` | app/visualize.py:31 | a line-chart cache name starts with `MA` and ends with `.json` |
| `DailyCache.PieName` | app/visualize.py:54 | a pie cache name starts with `PIE` and ends with `.json` |
| `DailyCache.Swept` | app/visualize.py:152-155 | the swept directory keeps only existing files, with unchanged contents, all of whose names contain `d{DoY}` |
| `DailyCache.SweepIdempotent` | app/visualize.py:152-155 | sweeping twice on the same day removes nothing more than sweeping once |
| `DailyCache.NamesCarryDay` | app/visualize.py:31 | both routes' cache names contain the day marker `d{DoY}` |
| `DailyCache.CacheNamesDistinct` | app/visualize.py:31 | line-chart names are equal iff m, days_back and the day are; pie names (line 54) iff m and the day are; no line-chart name is a pie name; so a hit serves only a figure stored under the same m, days_back and day of the year, possibly in an earlier year |
| `DailyCache.MovingAvgNameInjective` | app/visualize.py:31 | equal line-chart names come from equal m, days_back and day |
| `DailyCache.PieNameInjective` | app/visualize.py:54 | equal pie names come from equal m and day |
| `DailyCache.WrittenPlotSurvives` | app/visualize.py:150-155 | after the write and sweep the route's own file holds the new figure; any other file survives, unchanged, iff its name contains `d{DoY}` |
| `DailyCache.SweepKeepsExtendedDay` | app/visualize.py:154 | the substring test keeps, on day doy, the files of day 10·doy + c, e.g. `MA90-30-d145.json` on day 14 |
| `Records.Between` | app/visualize.py:136-137 | the filter keeps no more rows than it is given, and only rows dated in (first, last] |
| `Records.ExitDf` | app/visualize.py:133-144 | the loop yields exactly the records the filter `first < date <= last` keeps, one (date, dest) row each, in order |
| `Records.BetweenMultiplicity` | app/visualize.py:136-137 | a record outside (first, last] is dropped; one inside is kept as many times as it occurs |
| `Records.BetweenMembership` | app/visualize.py:136-137 | a record is fetched iff it is a member's record and first < date <= last (first excluded, last included) |
| `Records.BetweenNested` | app/visualize.py:86 | a window inside (first, last] sees the same records from the fetched table as from all members |
| `Records.Count` | app/visualize.py:91 | a destination's count never exceeds the bucket's number of exits |
| `Records.CountPositive` | app/visualize.py:91 | a destination's count in a bucket is positive iff some record of the bucket goes there |
| `Records.Unique` | app/visualize.py:79 | the unique values are distinct and are exactly the values of the column |
| `Records.Dests` | app/visualize.py:79 | the fetched destinations are distinct, cover every record, name only occurring destinations, and are empty iff nothing was fetched |
| `Dates.DaysBefore` | app/visualize.py:77 | `d - timedelta(days=n)` succeeds iff abs(n) <= 999999999 and d − n is a day of years 1..9999; it then gives d − n, otherwise `OverflowError` |
| `Aggregator.Step` | app/visualize.py:73 | STEP is never 0; it is 1 for 0 <= days_back < 90; otherwise it is the floor of days_back / 90; it is positive iff days_back >= 0 |
| `Aggregator.PyRange` | app/visualize.py:83 | `range(start, stop, step)` starts at start and stays in [start, stop) for a positive step or (stop, start] for a negative one; it is empty iff start is already past stop |
| `Aggregator.PyRangeAt` | app/visualize.py:83 | the k-th value of the range is start + k·step |
| `Aggregator.PyRangeStops` | app/visualize.py:83 | the range ends at the first multiple of the step that reaches stop |
| `Aggregator.Offsets` | app/visualize.py:83 | the loop's offsets start at 0 and stay in [0, days_back) for days_back >= 0; for a negative days_back they are non-empty and stay in (days_back, 0] |
| `Aggregator.Ends` | app/visualize.py:84 | one end date per offset i, namely last − i |
| `Aggregator.BucketCount` | app/visualize.py:73-83 | for days_back >= 0: STEP = max(1, days_back // 90) and there are ceil(days_back / STEP) buckets, none iff days_back = 0 |
| `Aggregator.HalfYearExample` | app/visualize.py:73-83 | days_back = 180 gives STEP = 2 and the 90 offsets 0, 2, ..., 178 |
| `Aggregator.Window` | app/visualize.py:85-86 | a bucket holds no more than the fetched records, and only those dated in (end − m, end] |
| `Aggregator.Breakdown` | app/visualize.py:87-91 | the breakdown fails with a division error iff there are destinations and the bucket is empty; otherwise it has exactly one key per fetched destination |
| `Aggregator.ShareBounds` | app/visualize.py:91 | count / total lies in [0, 1] and times total gives back count |
| `Aggregator.BreakdownValues` | app/visualize.py:91 | in a non-empty bucket each value is count(dest) / n_exits and lies in [0, 1] |
| `Aggregator.BreakdownSumsToOne` | app/visualize.py:86-91 | in a non-empty bucket the values over the fetched destinations add up to 1 |
| `Aggregator.EvenSplitExample` | app/visualize.py:86-91 | two exits on the last day, one permanent and one unknown, give 0.5 each and no other key |
| `Aggregator.BucketAt` | app/visualize.py:84-92 | one loop pass overflows iff end = last − i or start = end − m cannot be computed; it divides by zero iff the dates fit, there are destinations and (end − m, end] is empty; otherwise its row is indexed by last − i and holds that window's breakdown |
| `Aggregator.SeriesOver` | app/visualize.py:83-92 | the loop fails only with an overflow or a division error; on success it has one row per offset |
| `Aggregator.SeriesOverShape` | app/visualize.py:83-92 | the loop succeeds iff every pass does, and then holds those rows in order; otherwise it fails with the error of the first pass that fails |
| `Aggregator.SeriesErrSticks` | app/visualize.py:83-92 | once a pass raises, later offsets do not change the outcome |
| `Aggregator.SeriesStep` | app/visualize.py:83-92 | one loop step appends the next row, or the whole loop fails with that pass's error |
| `Aggregator.SeriesErrorsLocated` | app/visualize.py:83-92 | a division error only at an empty bucket; an overflow only where a pass's dates cannot be computed |
| `Aggregator.SeriesFailsIffEmpty` | app/visualize.py:83-92 | when every pass's dates can be computed, the loop fails iff some bucket is empty |
| `Aggregator.SeriesBuckets` | app/visualize.py:83-92 | on success row k ends at last − offset k and holds its non-empty window's breakdown |
| `Aggregator.MovingSeries` | app/visualize.py:73-93 | the moving table fails only by overflow, the missing column or division by zero; on success it has one row per offset |
| `Aggregator.MovingSeriesOutcome` | app/visualize.py:76-93 | an overflow computing first stops it; otherwise the missing-column error iff nothing is fetched in (last − m − days_back, last]; division error only at an empty bucket; overflow only where first or a pass's dates cannot be computed; when all dates fit, division error iff some bucket is empty; on success one row per offset i with end date last − i and that window's breakdown |
| `Aggregator.ForwardBucketsFit` | app/visualize.py:76-85 | for m, days_back >= 0 from a real date, once first is computed no pass of the loop overflows |
| `Aggregator.ForwardOutcome` | app/visualize.py:73-93 | for m, days_back >= 0 from a real date: overflow iff m + days_back > 999999999 or first falls before 0001-01-01; else missing column iff nothing fetched; division error iff some bucket is empty |
| `Aggregator.WindowBreakdown` | app/visualize.py:86-91 | a non-empty window's breakdown has a key for each fetched destination and no other; each value is the window's share; the values sum to 1 |
| `Aggregator.MovingBreakdownsAreProportions` | app/visualize.py:79-93 | every bucket of a successful series is non-empty, is keyed by the fetched destinations, holds count / n_exits in [0, 1], and sums to 1 |
| `Aggregator.EndsDecrease` | app/visualize.py:83-84 | for days_back >= 0 later offsets give strictly earlier end dates |
| `Aggregator.MovingWindowsInsideFetch` | app/visualize.py:76-86 | for days_back >= 0: STEP >= 1; end dates start at last and strictly decrease; every window (end − m, end] lies inside (first, last]; so windowing the fetched table equals windowing all records |
| `Aggregator.NegativeDaysBack` | app/visualize.py:73-86 | for days_back < 0: STEP < 0; the loop still runs from offset 0; later end dates lie after last; the first window starts before first; a first past 9999-12-31 overflows; for days_back <= −m with first computable nothing is fetched and the chart fails on the missing column |
| `Aggregator.WithCount` | app/visualize.py:118 | one row per record with its date, destination and a count of 1 |
| `Aggregator.SliceTotalIsCount` | app/visualize.py:118-121 | with one count per record, a destination's slice equals its record count |
| `Aggregator.PieTable` | app/visualize.py:114-121 | the pie table fails only by overflow or the missing column; on success it is non-empty and every count is 1 |
| `Aggregator.PieOutcome` | app/visualize.py:114-121 | overflow iff last − m cannot be computed; missing column iff it can and nothing is dated in (last − m, last]; otherwise one count-1 row per such record, each slice equals its destination's count, and the slices sum to the number of records |
| `Charts.ColorsMatchLegend` | app/visualize.py:99-104 | the colour map (`ColorMap`, lines 123-128) names exactly the five legend categories of `CategoryOrder`, listed once each |
| `Charts.LineTitle` | app/visualize.py:98 | the title is m in decimal followed by "-Day Moving Averages" |
| `Charts.MovingAvgFigure` | app/visualize.py:95-106 | the line chart fails exactly when the moving table does, with its error; otherwise it is that table with the title and the legend order |
| `Charts.ExitPieFigure` | app/visualize.py:120-130 | the pie fails exactly when its table does, with its error; otherwise it is that table with the fixed colour map |
| `Charts.PlotMovingAvg` | app/visualize.py:69-106 | the method's result is the line chart of the moving series (title `{m}-Day Moving Averages`, fixed legend order) or the error it raises, including `OverflowError` |
| `Charts.MovingRows` | app/visualize.py:82-93 | the loop's result is the series of passes over the offsets, stopping at the first pass that overflows or divides by zero |
| `Charts.PlotExitPie` | app/visualize.py:109-130 | the method's result is the pie table with the fixed colour map, the overflow computing first, or the missing-column error |
| `Text.NatToStringValue` | app/visualize.py:31 | the decimal digits written into a file name read back as the number |
| `Text.NatToStringInjective` | app/visualize.py:31 | different days have different decimal renderings |
| `Text.IntToString` | app/visualize.py:31 | `str(i)` starts with '-' iff i is negative, and is otherwise all decimal digits without a leading zero |
| `Text.IntToStringInjective` | app/visualize.py:31 | different integers render differently |
| `Text.IntThenDash` | app/visualize.py:31 | a rendered integer followed by '-' splits back into the same integer and the same rest |
| `Text.Contains` | app/visualize.py:154 | Python's `t in s` never holds for a t longer than s and always holds for the empty t |
| `Text.ContainsAt` | app/visualize.py:154 | Python's `t in s` holds iff t occurs at some position of s |
| `Text.ContainsInfix` | app/visualize.py:154 | a string contains anything written inside it |

## Left out

- FastAPI routing, `async`, `Depends` and `BackgroundTasks` are not modelled. A scheduled task is returned as a `CacheUpdate`, and `RunPending` applies it.
- The SQLAlchemy query is a filter over an input sequence. Rows come in input order, because the query has no `ORDER BY`. A NULL `date_of_exit` is not modelled: every record has a date.
- pandas and plotly are not modelled. A figure is the table handed to `px.line` or `px.pie`, plus the title, legend order and colour map. The JSON form is not modelled. The chart's ascending date axis and the pie's normalisation happen inside plotly.
- The error messages of the missing-column failure (`KeyError` in the line chart, a plotly `ValueError` in the pie) are one error, `MissingDestColumn`.
- `date.today()` and the 180-day offset are not modelled: `last` and `doy` are parameters. The overflow that `date.today() - timedelta(days=180)` could raise before 0001-06-30 is not modelled. Day-of-year values are not limited to 1..366.
- `last` is not checked to be a day of years 1..9999. The lemmas that need this, `ForwardBucketsFit` and `ForwardOutcome`, require it, as every `date` satisfies it.
- File I/O, `os.scandir`, `os.remove` and JSON (de)serialisation are not modelled. The directory is a map keyed by file name inside `app/plotcache`. Only a missing file counts as a miss. A corrupt file, where the source's `json.load` would raise, is not modelled. Neither are write failures.
- Floating point is not modelled: proportions are exact rationals.
- Concurrent requests and concurrent sweeps are not modelled.
- `UpdateCache` scans the directory entries in an arbitrary order, as `os.scandir` does. The result does not depend on that order.
- Charts.MovingRows: its contract holds for any offsets. `PlotMovingAvg` ties it to `range(0, days_back, STEP)`.
