/**
 The daily time series: a map from calendar date to one trading day's record.

 A calendar date is a day number; `date + n` is exact day arithmetic, as
 `NaiveDate + Duration::days(n)` is in the source.
 */
module Series {
  import opened Prices

  /** A calendar date as a day number. */
  type Date = int

  /** One trading day's record (`TimeSeriesDay`). */
  datatype Day = Day(
    open: Price,
    high: Price,
    low: Price,
    close: Price,
    adjustedClose: Price,
    volume: Price,
    dividendAmount: Price,
    splitCoefficient: Price)

  /** The series (`HashMap<NaiveDate, TimeSeriesDay>`): one record per date. */
  type TimeSeries = map<Date, Day>

  /** One `(date, record)` pair as the map's iterator yields it. */
  type Entry = (Date, Day)

  /**
   `entries` is one iteration order of `m`: every pair is an entry of `m`, no
   date repeats, and every date of `m` appears. A hash map promises no order,
   so every such sequence is a possible iteration.
   */
  ghost predicate IsEnumeration(entries: seq<Entry>, m: TimeSeries)
  {
    && (forall i :: 0 <= i < |entries| ==> entries[i].0 in m && m[entries[i].0] == entries[i].1)
    && (forall i, j :: 0 <= i < j < |entries| ==> entries[i].0 != entries[j].0)
    && (forall d :: d in m ==> exists i :: 0 <= i < |entries| && entries[i].0 == d)
  }

  /**
   Iterates `m` in an order it does not promise: each step takes any date not
   yet visited.
   */
  method Enumerate(m: TimeSeries) returns (entries: seq<Entry>)
    ensures IsEnumeration(entries, m)
    ensures |entries| == |m|
  {
    entries := [];
    var rest := m.Keys;
    while exists d :: d in rest
      invariant rest <= m.Keys
      invariant forall i :: 0 <= i < |entries| ==> entries[i].0 in m && m[entries[i].0] == entries[i].1
      invariant forall i :: 0 <= i < |entries| ==> entries[i].0 !in rest
      invariant forall i, j :: 0 <= i < j < |entries| ==> entries[i].0 != entries[j].0
      invariant forall d :: d in m && d !in rest ==> exists i :: 0 <= i < |entries| && entries[i].0 == d
      invariant |entries| + |rest| == |m|
      decreases rest
    {
      var d :| d in rest;
      var entries' := entries + [(d, m[d])];
      forall e | e in m && e !in rest - {d}
        ensures exists i :: 0 <= i < |entries'| && entries'[i].0 == e
      {
        if e == d {
          assert entries'[|entries|].0 == e;
        } else {
          var i :| 0 <= i < |entries| && entries[i].0 == e;
          assert entries'[i].0 == e;
        }
      }
      entries := entries';
      rest := rest - {d};
    }
  }

  /** An enumeration has exactly as many entries as the map has dates. */
  lemma {:induction false} EnumerationSize(entries: seq<Entry>, m: TimeSeries)
    requires IsEnumeration(entries, m)
    ensures |entries| == |m|
    decreases |entries|
  {
    if entries == [] {
      assert forall d :: d !in m.Keys;
      assert m.Keys == {};
    } else {
      var n := |entries| - 1;
      var last := entries[n].0;
      var m' := m - {last};
      var prefix := entries[..n];
      forall d | d in m'
        ensures exists i :: 0 <= i < |prefix| && prefix[i].0 == d
      {
        var i :| 0 <= i < |entries| && entries[i].0 == d;
        assert i != n;
        assert prefix[i].0 == d;
      }
      assert IsEnumeration(prefix, m');
      EnumerationSize(prefix, m');
      assert m'.Keys == m.Keys - {last};
    }
  }
}
