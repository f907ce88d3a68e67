/**
 The date-window filter applied before aggregation: `TimePeriod` selects how
 far back from `today` a dated entry may lie and still be kept.
 */
module Window {
  import opened Wrappers
  import opened Series

  /** The period a summary covers. */
  datatype TimePeriod = Month | Year | AllTime

  /** The window length in days; `AllTime` has no window. */
  function WindowDays(period: TimePeriod): (w: Option<nat>)
    ensures w.None? <==> period == AllTime
  {
    match period
    case Month => Some(30)
    case Year => Some(365)
    case AllTime => None
  }

  /** The filter's test: `date + window >= today`, or always true without a window. */
  predicate Retains(period: TimePeriod, today: Date, date: Date)
  {
    match WindowDays(period)
    case None => true
    case Some(w) => date + w >= today
  }

  /**
   The series restricted to the window: the dates the filter keeps, each with
   its original record.
   */
  function Filter(series: TimeSeries, period: TimePeriod, today: Date): (r: TimeSeries)
    ensures r.Keys <= series.Keys
    ensures forall d :: d in series ==> (d in r <==> Retains(period, today, d))
    ensures forall d :: d in r ==> r[d] == series[d]
  {
    map d | d in series && Retains(period, today, d) :: series[d]
  }

  /** The window stated as a lower bound: an entry is kept iff it is no older than `today - window`. */
  lemma RetainsIsLowerBound(period: TimePeriod, today: Date, date: Date)
    ensures period == Month ==> (Retains(period, today, date) <==> date >= today - 30)
    ensures period == Year ==> (Retains(period, today, date) <==> date >= today - 365)
    ensures period == AllTime ==> Retains(period, today, date)
  {
  }

  /** The boundary is inclusive: `today - 30` is kept for a month, `today - 31` is not. */
  lemma MonthBoundary(series: TimeSeries, today: Date)
    requires today - 30 in series && today - 31 in series
    ensures today - 30 in Filter(series, Month, today)
    ensures today - 31 !in Filter(series, Month, today)
  {
  }

  /** The same for a year: `today - 365` is kept, `today - 366` is not. */
  lemma YearBoundary(series: TimeSeries, today: Date)
    requires today - 365 in series && today - 366 in series
    ensures today - 365 in Filter(series, Year, today)
    ensures today - 366 !in Filter(series, Year, today)
  {
  }

  /** `AllTime` keeps the series as it is. */
  lemma AllTimeKeepsAll(series: TimeSeries, today: Date)
    ensures Filter(series, AllTime, today) == series
  {
  }

  /** Filtering twice with the same window changes nothing. */
  lemma FilterIdempotent(series: TimeSeries, period: TimePeriod, today: Date)
    ensures Filter(Filter(series, period, today), period, today) == Filter(series, period, today)
  {
  }

  /** Windows nest: the month's entries are among the year's, with the same records. */
  lemma MonthWithinYear(series: TimeSeries, today: Date)
    ensures Filter(Filter(series, Year, today), Month, today) == Filter(series, Month, today)
    ensures Filter(series, Month, today).Keys <= Filter(series, Year, today).Keys
  {
  }
}
