# Equity summary over a daily time series

A Dafny model of the aggregation core of `portfolio`, a small command-line tool
that fetches an equity's daily adjusted time series from a quotes API and
reports either its latest close or a four-number summary of a time window.

The model takes the fetched series and today's date as inputs:

- **Series** (`series.dfy`): a calendar date is a day number, one trading
  day's record is `Day` (open, high, low, close, adjusted close, volume,
  dividend amount, split coefficient), and the series is `map<Date, Day>`.
  The source keeps the series in a hash map, whose iteration order is not
  specified. `Enumerate` walks the map in an arbitrary order, and
  `IsEnumeration` describes every order it could take.
- **Prices** (`prices.dfy`): a price is `Num(real)` or `NaN`. `Compare` is the
  comparator `f64_ord_panic`. It tries `>`, then `<`, then `==` with IEEE
  semantics, and its panic becomes `None`.
- **Window** (`window.dfy`): `TimePeriod` is `Month | Year | AllTime`.
  `Filter` keeps an entry iff `date + 30 >= today` for a month, or iff
  `date + 365 >= today` for a year, and keeps every entry for all time.
- **Reductions** (`reductions.dfy`): `max_by_key` and `min_by_key` on the date,
  and `max_by` and `min_by` with the comparator. Each is a left fold with the
  standard library's tie rules. On an empty input the by-date reductions
  yield `None`, and the by-price reductions (and `LatestClose`,
  `EarliestClose`) fail with `NoData`. A comparator failure yields
  `Incomparable`.
- **Equity** (`equity.dfy`): `Summarize` runs the four reductions of the
  summary in the source's evaluation order. `IsSummaryOf` is the
  order-free description of a summary. The lemmas prove that every iteration
  order gives the same result, and that this result is the described one.
  `SummaryForEquity` and `LatestPriceForEquity` are the two public operations.

Panics in the source become explicit failures:

- The source's `.unwrap()` on an empty reduction becomes `Failure(NoData)`.
- The comparator's panic becomes `Failure(Incomparable)`.

The two failures are disjoint: `NoData` needs an empty window, and
`Incomparable` needs at least two entries. The comparator is called only
when two or more entries are left, and it only ever sees `high` and `low`.
A NaN `high` or `low` therefore makes the summary fail exactly when the
window holds at least two entries. A NaN in any other field (a close, say)
never reaches the comparator. A one-entry window reports its own `high`
and `low`, even when they are NaN.

The source reads "today" as the current UTC calendar date
(`Utc::now().date().naive_local()`). The model takes `today` as a parameter.

## Model

| member | source | states |
|---|---|---|
| Prices.Compare | src/lib.rs:196-206 | the comparator fails exactly when either operand is NaN; otherwise it answers Greater, Less or Equal as the numbers compare |
| Prices.CompareFlip | src/lib.rs:196-206 | swapping the operands flips the answer, and one order fails iff the other does |
| Prices.CompareTransitive | src/lib.rs:196-206 | on numbers the comparator is a total order: "not Greater" is transitive |
| Series.Enumerate | src/lib.rs:173-175 | iterating the hash map visits each date exactly once with its own record, in some order, and visits as many entries as the map has |
| Window.WindowDays | src/lib.rs:166-167 | only AllTime has no window; Month and Year have one |
| Window.Filter | src/lib.rs:163-170 | the filtered series keeps a date of the input iff the window test passes, each with its unchanged record, and adds no date |
| Window.RetainsIsLowerBound | src/lib.rs:165-168 | an entry is kept iff its date is at least today - 30 (Month) or today - 365 (Year); AllTime keeps every date |
| Window.MonthBoundary | src/lib.rs:166 | the month window is inclusive: today - 30 is kept, today - 31 is dropped |
| Window.YearBoundary | src/lib.rs:167 | the year window is inclusive: today - 365 is kept, today - 366 is dropped |
| Window.AllTimeKeepsAll | src/lib.rs:168 | the all-time filter returns the series unchanged |
| Window.FilterIdempotent | src/lib.rs:163-170 | filtering an already filtered series with the same window changes nothing |
| Window.MonthWithinYear | src/lib.rs:165-167 | the month's entries are among the year's, and filtering the year's entries by month gives the month's entries |
| Reductions.MaxByKeyFrom | src/lib.rs:175 | the date-maximum fold returns the accumulator or a later element, and its date is at least every date it saw |
| Reductions.MaxByKey | src/lib.rs:175 | max_by_key yields nothing iff the input is empty, and otherwise an element whose date no other element exceeds |
| Reductions.MinByKeyFrom | src/lib.rs:180 | the date-minimum fold returns the accumulator or a later element, and its date is at most every date it saw |
| Reductions.MinByKey | src/lib.rs:180 | min_by_key yields nothing iff the input is empty, and otherwise an element whose date no other element precedes |
| Reductions.MaxByFrom | src/lib.rs:186 | the max_by fold succeeds iff every comparison it makes is defined; its result is one of its inputs and at least all of them |
| Reductions.MaxBy | src/lib.rs:183-187 | max_by fails with NoData iff the input is empty, and with Incomparable iff there are two or more prices and one is NaN; a single price is returned as is; otherwise it returns an input price that no input exceeds |
| Reductions.MinByFrom | src/lib.rs:191 | the min_by fold succeeds iff every comparison it makes is defined; its result is one of its inputs and at most all of them |
| Reductions.MinBy | src/lib.rs:188-192 | min_by fails with NoData iff the input is empty, and with Incomparable iff there are two or more prices and one is NaN; a single price is returned as is; otherwise it returns an input price that no input undercuts |
| Equity.LatestClose | src/lib.rs:173-177 | fails (NoData) iff there are no entries; otherwise it is the close of an entry whose date no other entry exceeds |
| Equity.EarliestClose | src/lib.rs:178-182 | fails (NoData) iff there are no entries; otherwise it is the close of an entry whose date no other entry precedes |
| Equity.Summarize | src/lib.rs:172-193 | the summary of one iteration order fails with NoData iff there are no entries, and with Incomparable iff there are two or more entries and a NaN high or low |
| Equity.LatestCloseSpec | src/lib.rs:173-177 | over any iteration order of a series, the latest close is the close of the series' greatest date |
| Equity.EarliestCloseSpec | src/lib.rs:178-182 | over any iteration order of a series, the earliest close is the close of the series' least date |
| Equity.MaxHighSpec | src/lib.rs:183-187 | over any iteration order, the maximum price is the high of some entry, and every high is equal to it or at most it |
| Equity.MinLowSpec | src/lib.rs:188-192 | over any iteration order, the minimum price is the low of some entry, and every low is equal to it or at least it |
| Equity.NaNInEnumeration | src/lib.rs:183-192 | an iteration order shows the comparator a NaN high or low iff the series holds one |
| Equity.SummarizeMeetsSpec | src/lib.rs:172-193 | over any iteration order of a series: NoData iff the series is empty; Incomparable iff it has two or more entries and a NaN high or low; otherwise the result is a summary of the series |
| Equity.SummaryUnique | src/lib.rs:172-193 | a series has at most one summary: latest and earliest close, maximum high and minimum low are each determined |
| Equity.SummaryIndependentOfOrder | src/lib.rs:172-193 | for prices as modelled (one zero), the result does not depend on the order in which the hash map is iterated |
| Equity.SummaryForEquity | src/lib.rs:154-193 | the summary of the filtered window fails with NoData iff no entry is in the window, fails with Incomparable iff the window has two or more entries and a NaN high or low, and otherwise has the latest and earliest close and the maximum high and minimum low of the window |
| Equity.LatestPriceForEquity | src/lib.rs:130-138 | the latest price fails (NoData) iff the series is empty, and is otherwise the close of the series' greatest date |
| Equity.LatestCloseUnique | src/lib.rs:133-138 | the latest close of a series is a single value |
| Equity.LatestAgreesWithSummary | src/lib.rs:133-138 | the latest price of a series equals the latest price of its all-time summary, whatever order either walk takes |
| Equity.TwoDaysSummary | src/lib.rs:172-193 | entries 2024-01-01 (close 100, high 110, low 90) and 2024-01-10 (close 120, high 125, low 95) summarise over all time to latest 120, earliest 100, max 125, min 90 |
| Equity.TwoDaysLastMonth | src/lib.rs:163-193 | thirty days after 2024-01-10 only that day is in the month window, and the summary is that day's close, close, high and low |

## Left out

- Fetching the series (`get_time_series_daily`): the HTTP request, its status check and the `ApiError` it returns are network I/O. The operations take the fetched series as an input.
- The process-wide HTTP client and the API key read from the environment: process configuration.
- Deserialising the response: string-encoded numbers become floats, and date strings become dates. This is a wrapper over the JSON and date libraries plus IEEE float parsing.
- Reading the clock with `Utc::now()`: `today` is a parameter.
- The `Symbol` newtype and `DailyOutputSize::as_str`: they only build the query.
- The command-line front end in `src/bin.rs`: argument parsing and printing.
- IEEE-754 arithmetic: prices are reals with a NaN marker. No arithmetic is done on prices, so rounding does not arise. Infinities compare like very large numbers and are not modelled separately.
- Signed zeros: `Price` has a single zero, so +0.0 and -0.0 are the same price. In the source, `f64_ord_panic(0.0, -0.0)` answers Equal. `max_by` and `min_by` then keep one of the two by position, and the printed summary can show either sign.
- Equity.SummaryIndependentOfOrder: holds because `Price` merges +0.0 and -0.0. In the source, highs of 0.0 and -0.0 give a `max_price` whose sign depends on the hash map's iteration order (likewise for lows and `min_price`).
- Date overflow in the date library: day numbers are unbounded integers.
- Process termination: a panic is modelled as a `Failure` value returned to the caller.
