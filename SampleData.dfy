/**
 The five dated returns of the sample map, with each date written as the
 integer yyyymmdd, and the three queries worked through on them.
 */
module SampleData {
  import opened ReturnSeries
  import opened CumulativeReturn
  import opened Calculator

  /** The sample input map, inserted out of date order. */
  function SampleReturns(): map<int, real>
  {
    map[20150610 := -0.12, 20150415 := -0.10, 20150410 := 0.15, 20150210 := 0.05, 20150110 := 0.10]
  }

  /** The same returns in ascending date order. */
  function SampleSeries(): seq<Entry>
  {
    [Entry(20150110, 0.10), Entry(20150210, 0.05), Entry(20150410, 0.15),
     Entry(20150415, -0.10), Entry(20150610, -0.12)]
  }

  /** The ordered series stores exactly the sample map. */
  lemma SampleSeriesMap()
    ensures StrictlyAscending(SampleSeries())
    ensures ToMap(SampleSeries()) == SampleReturns()
  {
    var t, n := SampleSeries(), SampleReturns();
    SampleSeriesAscending();
    assert forall e :: e in t <==> e.date in n && e.ret == n[e.date];
    StoresInput(t, n);
  }

  /** The sample dates are strictly ascending. */
  lemma SampleSeriesAscending()
    ensures StrictlyAscending(SampleSeries())
  {
    var t := SampleSeries();
    forall i, j | 0 <= i < j < |t|
      ensures t[i].date < t[j].date
    {
      assert forall k :: 0 <= k < 4 ==> t[k].date < t[k + 1].date;
    }
  }

  /** Whatever order the map's keys come in, construction stores the ordered series. */
  lemma SampleSeriesStored(s: seq<Entry>)
    requires StrictlyAscending(s) && ToMap(s) == SampleReturns()
    ensures s == SampleSeries()
  {
    SampleSeriesMap();
    SameMapSameSeries(s, SampleSeries());
  }

  /** The window from 2015/2/1 to 2015/5/8 holds the entries of 2015/2/10, 2015/4/10 and 2015/4/15. */
  lemma SpringWindow()
    ensures Window(SampleSeries(), 20150201, 20150508)
         == [Entry(20150210, 0.05), Entry(20150410, 0.15), Entry(20150415, -0.10)]
  {
    var t, base, asof := SampleSeries(), 20150201, 20150508;
    SampleSeriesAscending();
    BreakSound(t, 4, base, asof);
    assert t[..0] == [];
    WindowStep(t, 0, base, asof);
    WindowStep(t, 1, base, asof);
    WindowStep(t, 2, base, asof);
    WindowStep(t, 3, base, asof);
  }

  /** The three spring entries compound to 1.05 * 1.15 * 0.90. */
  lemma SpringGrowth()
    ensures Growth([Entry(20150210, 0.05), Entry(20150410, 0.15), Entry(20150415, -0.10)]) == 1.08675
  {
    var w := [Entry(20150210, 0.05), Entry(20150410, 0.15), Entry(20150415, -0.10)];
    assert w[..2][..1] == [w[0]];
    GrowthSingle(w[0]);
    assert Growth(w[..2]) == 1.05 * 1.15;
    assert Growth(w) == 1.05 * 1.15 * 0.90;
  }

  /**
   Base 2015/2/1 and as-of 2015/5/8 compound 0.05, 0.15 and -0.10 to
   1.05 * 1.15 * 0.90 - 1; base = as-of = 2015/6/10 gives that day's -0.12;
   an as-of date before the base date gives 0.
   */
  method SampleQueries() returns (spring: real, lastDay: real, inverted: real)
    ensures spring == 0.08675
    ensures lastDay == -0.12
    ensures inverted == 0.0
  {
    var c := new CumRetCalculator(SampleReturns());
    SampleSeriesStored(c.entries);
    spring := c.FindCumReturn(20150508, 20150201);
    lastDay := c.FindCumReturn(20150610, 20150610);
    inverted := c.FindCumReturn(20150610, 20150701);
    SpringWindow();
    SpringGrowth();
    SingleDay(SampleSeries(), 4);
    InvertedRangeIsZero(SampleSeries(), 20150701, 20150610);
  }
}
