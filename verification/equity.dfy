/**
 The two public operations: the latest close of a series, and the
 four-number summary of a series restricted to a time window.

 The series is a hash map, so each reduction walks it in an order the map does
 not promise. `Summarize` reduces one such order; the lemmas show that the
 result is the one the declarative `IsSummaryOf` describes, whatever the order.
 */
module Equity {
  import opened Wrappers
  import opened Prices
  import opened Series
  import opened Window
  import opened Reductions

  /** The summary of a window: latest close, earliest close, highest high, lowest low. */
  datatype EquitySummary = EquitySummary(
    latestPrice: Price,
    earliestPrice: Price,
    maxPrice: Price,
    minPrice: Price)

  /** The `high` of every entry, in iteration order. */
  function Highs(entries: seq<Entry>): seq<Price>
  {
    seq(|entries|, i requires 0 <= i < |entries| => entries[i].1.high)
  }

  /** The `low` of every entry, in iteration order. */
  function Lows(entries: seq<Entry>): seq<Price>
  {
    seq(|entries|, i requires 0 <= i < |entries| => entries[i].1.low)
  }

  /** The close of the entry with the greatest date: `max_by_key(date).map(close)`. */
  function LatestClose(entries: seq<Entry>): (r: Result<Price, SummaryError>)
    ensures r.Failure? <==> entries == []
    ensures r.Failure? ==> r.error == NoData
    ensures r.Success? ==> exists i :: 0 <= i < |entries| && r.value == entries[i].1.close
                                         && forall j :: 0 <= j < |entries| ==> entries[j].0 <= entries[i].0
  {
    match MaxByKey(entries)
    case None => Failure(NoData)
    case Some(e) => Success(e.1.close)
  }

  /** The close of the entry with the least date: `min_by_key(date).map(close)`. */
  function EarliestClose(entries: seq<Entry>): (r: Result<Price, SummaryError>)
    ensures r.Failure? <==> entries == []
    ensures r.Failure? ==> r.error == NoData
    ensures r.Success? ==> exists i :: 0 <= i < |entries| && r.value == entries[i].1.close
                                         && forall j :: 0 <= j < |entries| ==> entries[i].0 <= entries[j].0
  {
    match MinByKey(entries)
    case None => Failure(NoData)
    case Some(e) => Success(e.1.close)
  }

  /**
   The four reductions of one iteration order, in the order the summary
   evaluates them; the first failure is the result.
   */
  function Summarize(entries: seq<Entry>): (r: Result<EquitySummary, SummaryError>)
    ensures r == Failure(NoData) <==> entries == []
    ensures r == Failure(Incomparable) <==> |entries| >= 2 && !(AllNum(Highs(entries)) && AllNum(Lows(entries)))
  {
    var latest :- LatestClose(entries);
    var earliest := EarliestClose(entries).value;
    var maxPrice :- MaxBy(Highs(entries));
    var minPrice :- MinBy(Lows(entries));
    Success(EquitySummary(latest, earliest, maxPrice, minPrice))
  }

  // ---------------------------------------------------------------------------
  // What the summary of a series is, independently of any iteration order.

  /** `p` is the close of the entry whose date no other date of `m` exceeds. */
  ghost predicate IsLatestClose(p: Price, m: TimeSeries)
  {
    exists d :: d in m && p == m[d].close && forall e :: e in m ==> e <= d
  }

  /** `p` is the close of the entry whose date no other date of `m` precedes. */
  ghost predicate IsEarliestClose(p: Price, m: TimeSeries)
  {
    exists d :: d in m && p == m[d].close && forall e :: e in m ==> d <= e
  }

  /** `p` is some entry's `high`, and every `high` of `m` is `p` or at most `p`. */
  ghost predicate IsMaxHigh(p: Price, m: TimeSeries)
  {
    exists d :: d in m && p == m[d].high && forall e :: e in m ==> m[e].high == p || Le(m[e].high, p)
  }

  /** `p` is some entry's `low`, and every `low` of `m` is `p` or at least `p`. */
  ghost predicate IsMinLow(p: Price, m: TimeSeries)
  {
    exists d :: d in m && p == m[d].low && forall e :: e in m ==> m[e].low == p || Le(p, m[e].low)
  }

  /** `s` summarises `m`. */
  ghost predicate IsSummaryOf(s: EquitySummary, m: TimeSeries)
  {
    && IsLatestClose(s.latestPrice, m)
    && IsEarliestClose(s.earliestPrice, m)
    && IsMaxHigh(s.maxPrice, m)
    && IsMinLow(s.minPrice, m)
  }

  /** Some entry of `m` has a NaN `high` or `low`, which the comparator cannot order. */
  ghost predicate HasNaN(m: TimeSeries)
  {
    exists d :: d in m && (m[d].high.NaN? || m[d].low.NaN?)
  }

  // ---------------------------------------------------------------------------
  // Each reduction of an iteration order meets its declarative description.

  lemma LatestCloseSpec(entries: seq<Entry>, m: TimeSeries)
    requires IsEnumeration(entries, m)
    requires LatestClose(entries).Success?
    ensures IsLatestClose(LatestClose(entries).value, m)
  {
    var i :| 0 <= i < |entries| && LatestClose(entries).value == entries[i].1.close
               && forall j :: 0 <= j < |entries| ==> entries[j].0 <= entries[i].0;
    var d := entries[i].0;
    forall e | e in m
      ensures e <= d
    {
      var j :| 0 <= j < |entries| && entries[j].0 == e;
    }
  }

  lemma EarliestCloseSpec(entries: seq<Entry>, m: TimeSeries)
    requires IsEnumeration(entries, m)
    requires EarliestClose(entries).Success?
    ensures IsEarliestClose(EarliestClose(entries).value, m)
  {
    var i :| 0 <= i < |entries| && EarliestClose(entries).value == entries[i].1.close
               && forall j :: 0 <= j < |entries| ==> entries[i].0 <= entries[j].0;
    var d := entries[i].0;
    forall e | e in m
      ensures d <= e
    {
      var j :| 0 <= j < |entries| && entries[j].0 == e;
    }
  }

  lemma MaxHighSpec(entries: seq<Entry>, m: TimeSeries)
    requires IsEnumeration(entries, m)
    requires MaxBy(Highs(entries)).Success?
    ensures IsMaxHigh(MaxBy(Highs(entries)).value, m)
  {
    var hs := Highs(entries);
    var p := MaxBy(hs).value;
    var i :| 0 <= i < |hs| && hs[i] == p;
    forall e | e in m
      ensures m[e].high == p || Le(m[e].high, p)
    {
      var j :| 0 <= j < |entries| && entries[j].0 == e;
      if |hs| >= 2 {
        assert Le(hs[j], p);
      } else {
        assert i == 0 && j == 0;
      }
    }
    assert entries[i].0 in m && p == m[entries[i].0].high;
  }

  lemma MinLowSpec(entries: seq<Entry>, m: TimeSeries)
    requires IsEnumeration(entries, m)
    requires MinBy(Lows(entries)).Success?
    ensures IsMinLow(MinBy(Lows(entries)).value, m)
  {
    var ls := Lows(entries);
    var p := MinBy(ls).value;
    var i :| 0 <= i < |ls| && ls[i] == p;
    forall e | e in m
      ensures m[e].low == p || Le(p, m[e].low)
    {
      var j :| 0 <= j < |entries| && entries[j].0 == e;
      if |ls| >= 2 {
        assert Le(p, ls[j]);
      } else {
        assert i == 0 && j == 0;
      }
    }
    assert entries[i].0 in m && p == m[entries[i].0].low;
  }

  /** The comparator sees a NaN in an iteration order exactly when the series holds one. */
  lemma NaNInEnumeration(entries: seq<Entry>, m: TimeSeries)
    requires IsEnumeration(entries, m)
    ensures !(AllNum(Highs(entries)) && AllNum(Lows(entries))) <==> HasNaN(m)
  {
    if HasNaN(m) {
      var d :| d in m && (m[d].high.NaN? || m[d].low.NaN?);
      var j :| 0 <= j < |entries| && entries[j].0 == d;
      assert Highs(entries)[j].NaN? || Lows(entries)[j].NaN?;
    }
    if !(AllNum(Highs(entries)) && AllNum(Lows(entries))) {
      var j :| 0 <= j < |entries| && (Highs(entries)[j].NaN? || Lows(entries)[j].NaN?);
      assert entries[j].0 in m;
    }
  }

  /**
   Summarising any iteration order of `m` fails with `NoData` exactly when `m`
   is empty, fails with `Incomparable` exactly when `m` has two or more
   entries and a NaN `high` or `low`, and otherwise yields a summary of `m`.
   */
  lemma SummarizeMeetsSpec(entries: seq<Entry>, m: TimeSeries)
    requires IsEnumeration(entries, m)
    ensures Summarize(entries) == Failure(NoData) <==> |m| == 0
    ensures Summarize(entries) == Failure(Incomparable) <==> |m| >= 2 && HasNaN(m)
    ensures Summarize(entries).Success? ==> IsSummaryOf(Summarize(entries).value, m)
  {
    EnumerationSize(entries, m);
    NaNInEnumeration(entries, m);
    if Summarize(entries).Success? {
      LatestCloseSpec(entries, m);
      EarliestCloseSpec(entries, m);
      MaxHighSpec(entries, m);
      MinLowSpec(entries, m);
    }
  }

  /** The description pins the summary down: `m` has at most one summary. */
  lemma SummaryUnique(s1: EquitySummary, s2: EquitySummary, m: TimeSeries)
    requires IsSummaryOf(s1, m) && IsSummaryOf(s2, m)
    ensures s1 == s2
  {
    var a1 :| a1 in m && s1.latestPrice == m[a1].close && forall e :: e in m ==> e <= a1;
    var a2 :| a2 in m && s2.latestPrice == m[a2].close && forall e :: e in m ==> e <= a2;
    assert a1 <= a2 && a2 <= a1;
    var b1 :| b1 in m && s1.earliestPrice == m[b1].close && forall e :: e in m ==> b1 <= e;
    var b2 :| b2 in m && s2.earliestPrice == m[b2].close && forall e :: e in m ==> b2 <= e;
    assert b1 <= b2 && b2 <= b1;
    var c1 :| c1 in m && s1.maxPrice == m[c1].high && forall e :: e in m ==> m[e].high == s1.maxPrice || Le(m[e].high, s1.maxPrice);
    var c2 :| c2 in m && s2.maxPrice == m[c2].high && forall e :: e in m ==> m[e].high == s2.maxPrice || Le(m[e].high, s2.maxPrice);
    assert s2.maxPrice == s1.maxPrice || Le(s2.maxPrice, s1.maxPrice);
    assert s1.maxPrice == s2.maxPrice || Le(s1.maxPrice, s2.maxPrice);
    var l1 :| l1 in m && s1.minPrice == m[l1].low && forall e :: e in m ==> m[e].low == s1.minPrice || Le(s1.minPrice, m[e].low);
    var l2 :| l2 in m && s2.minPrice == m[l2].low && forall e :: e in m ==> m[e].low == s2.minPrice || Le(s2.minPrice, m[e].low);
    assert s2.minPrice == s1.minPrice || Le(s1.minPrice, s2.minPrice);
    assert s1.minPrice == s2.minPrice || Le(s2.minPrice, s1.minPrice);
  }

  /** A summary outcome is a summary or one of the two failures. */
  lemma OutcomeCases(r: Result<EquitySummary, SummaryError>)
    ensures r.Success? || r == Failure(NoData) || r == Failure(Incomparable)
  {
    if r.Failure? {
      match r.error
      case NoData => assert r == Failure(NoData);
      case Incomparable => assert r == Failure(Incomparable);
    }
  }

  /** Two outcomes that both meet the conclusions of `SummarizeMeetsSpec` for `m` are equal. */
  lemma OutcomeUnique(r1: Result<EquitySummary, SummaryError>, r2: Result<EquitySummary, SummaryError>, m: TimeSeries)
    requires r1 == Failure(NoData) <==> |m| == 0
    requires r1 == Failure(Incomparable) <==> |m| >= 2 && HasNaN(m)
    requires r1.Success? ==> IsSummaryOf(r1.value, m)
    requires r2 == Failure(NoData) <==> |m| == 0
    requires r2 == Failure(Incomparable) <==> |m| >= 2 && HasNaN(m)
    requires r2.Success? ==> IsSummaryOf(r2.value, m)
    ensures r1 == r2
  {
    OutcomeCases(r1);
    OutcomeCases(r2);
    if r1.Success? {
      SummaryUnique(r1.value, r2.value, m);
    }
  }

  /**
   The summary does not depend on the order in which the hash map is walked.
   This rests on `Price` having one zero: with IEEE +0.0 and -0.0, which the
   comparator calls Equal, the sign of an extreme would depend on the order.
   */
  lemma SummaryIndependentOfOrder(entries1: seq<Entry>, entries2: seq<Entry>, m: TimeSeries)
    requires IsEnumeration(entries1, m) && IsEnumeration(entries2, m)
    ensures Summarize(entries1) == Summarize(entries2)
  {
    SummarizeMeetsSpec(entries1, m);
    SummarizeMeetsSpec(entries2, m);
    OutcomeUnique(Summarize(entries1), Summarize(entries2), m);
  }

  // ---------------------------------------------------------------------------
  // The public operations, with the fetched series and today's date as inputs.

  /**
   `summary_for_equity`: restricts the series to the window ending `today`,
   then summarises what is left.
   */
  method SummaryForEquity(series: TimeSeries, period: TimePeriod, today: Date)
    returns (r: Result<EquitySummary, SummaryError>)
    ensures r == Failure(NoData) <==> |Filter(series, period, today)| == 0
    ensures r == Failure(Incomparable) <==>
              |Filter(series, period, today)| >= 2 && HasNaN(Filter(series, period, today))
    ensures r.Success? ==> IsSummaryOf(r.value, Filter(series, period, today))
  {
    var window := Filter(series, period, today);
    var entries := Enumerate(window);
    r := Summarize(entries);
    SummarizeMeetsSpec(entries, window);
  }

  /** `get_latest_price_for_equity`: the close of the latest date of the whole series. */
  method LatestPriceForEquity(series: TimeSeries) returns (r: Result<Price, SummaryError>)
    ensures r.Failure? <==> |series| == 0
    ensures r.Failure? ==> r.error == NoData
    ensures r.Success? ==> IsLatestClose(r.value, series)
  {
    var entries := Enumerate(series);
    r := LatestClose(entries);
    if r.Success? {
      LatestCloseSpec(entries, series);
    }
  }

  /** The latest close of a series has one value, whichever entry claims it. */
  lemma LatestCloseUnique(p: Price, q: Price, m: TimeSeries)
    requires IsLatestClose(p, m) && IsLatestClose(q, m)
    ensures p == q
  {
    var a :| a in m && p == m[a].close && forall e :: e in m ==> e <= a;
    var b :| b in m && q == m[b].close && forall e :: e in m ==> e <= b;
    assert a <= b && b <= a;
  }

  /**
   The latest price agrees with the latest price of the all-time summary,
   whatever orders the two walks take.
   */
  lemma LatestAgreesWithSummary(entries1: seq<Entry>, entries2: seq<Entry>, series: TimeSeries, today: Date)
    requires IsEnumeration(entries1, series)
    requires IsEnumeration(entries2, Filter(series, AllTime, today))
    requires Summarize(entries2).Success?
    ensures LatestClose(entries1) == Success(Summarize(entries2).value.latestPrice)
  {
    AllTimeKeepsAll(series, today);
    SummarizeMeetsSpec(entries2, series);
    EnumerationSize(entries1, series);
    LatestCloseSpec(entries1, series);
    LatestCloseUnique(LatestClose(entries1).value, Summarize(entries2).value.latestPrice, series);
  }

  // ---------------------------------------------------------------------------
  // A worked example: two trading days, summarised over all time.

  /** A record with the given high, low and close; the other fields are fillers. */
  function Quote(high: real, low: real, close: real): Day
  {
    Day(Num(close), Num(high), Num(low), Num(close), Num(close), Num(0.0), Num(0.0), Num(1.0))
  }

  /** 2024-01-01 and 2024-01-10 as days since 1970-01-01. */
  const Jan1: Date := 19723
  const Jan10: Date := 19732

  /** 2024-01-01 closes at 100 (high 110, low 90); 2024-01-10 closes at 120 (high 125, low 95). */
  function TwoDays(): TimeSeries
  {
    map[Jan1 := Quote(110.0, 90.0, 100.0), Jan10 := Quote(125.0, 95.0, 120.0)]
  }

  /** The summary the two days should have over all time. */
  lemma TwoDaysExpected()
    ensures |TwoDays()| == 2
    ensures !HasNaN(TwoDays())
    ensures IsSummaryOf(EquitySummary(Num(120.0), Num(100.0), Num(125.0), Num(90.0)), TwoDays())
  {
    var m := TwoDays();
    assert m.Keys == {Jan1, Jan10};
    var expected := EquitySummary(Num(120.0), Num(100.0), Num(125.0), Num(90.0));
    assert IsLatestClose(expected.latestPrice, m) by {
      assert Jan10 in m && forall e :: e in m ==> e <= Jan10;
    }
    assert IsEarliestClose(expected.earliestPrice, m) by {
      assert Jan1 in m && forall e :: e in m ==> Jan1 <= e;
    }
    assert IsMaxHigh(expected.maxPrice, m) by {
      assert Jan10 in m && m[Jan10].high == expected.maxPrice;
    }
    assert IsMinLow(expected.minPrice, m) by {
      assert Jan1 in m && m[Jan1].low == expected.minPrice;
    }
  }

  /** Over all time the two days summarise to latest 120, earliest 100, max 125, min 90. */
  lemma TwoDaysSummary(entries: seq<Entry>, today: Date)
    requires IsEnumeration(entries, Filter(TwoDays(), AllTime, today))
    ensures Summarize(entries) == Success(EquitySummary(Num(120.0), Num(100.0), Num(125.0), Num(90.0)))
  {
    var m := TwoDays();
    AllTimeKeepsAll(m, today);
    TwoDaysExpected();
    SummarizeMeetsSpec(entries, m);
    var r := Summarize(entries);
    OutcomeCases(r);
    SummaryUnique(r.value, EquitySummary(Num(120.0), Num(100.0), Num(125.0), Num(90.0)), m);
  }

  /** A month after 2024-01-10 only that day is left, and it is the whole summary. */
  lemma TwoDaysLastMonth(entries: seq<Entry>)
    requires IsEnumeration(entries, Filter(TwoDays(), Month, Jan10 + 30))
    ensures Summarize(entries) == Success(EquitySummary(Num(120.0), Num(120.0), Num(125.0), Num(95.0)))
  {
    var m := Filter(TwoDays(), Month, Jan10 + 30);
    assert m == map[Jan10 := Quote(125.0, 95.0, 120.0)];
    SummarizeMeetsSpec(entries, m);
    OutcomeCases(Summarize(entries));
    assert |m| == 1;
    var expected := EquitySummary(Num(120.0), Num(120.0), Num(125.0), Num(95.0));
    assert Jan10 in m && forall e :: e in m ==> e == Jan10;
    assert IsLatestClose(expected.latestPrice, m);
    assert IsEarliestClose(expected.earliestPrice, m);
    assert IsMaxHigh(expected.maxPrice, m);
    assert IsMinLow(expected.minPrice, m);
    SummaryUnique(Summarize(entries).value, expected, m);
  }
}
