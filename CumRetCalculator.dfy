/**
 The calculator object: it keeps the date-ordered series built at
 construction and answers cumulative-return queries over it.
 */
module Calculator {
  import opened ReturnSeries
  import opened CumulativeReturn

  class CumRetCalculator {
    /** The `treeMap` field: the series in ascending date order. */
    var entries: seq<Entry>

    /** The stored series is sorted by date with unique dates. */
    ghost predicate Valid()
      reads this
    {
      StrictlyAscending(entries)
    }

    /** Copies the unordered input map into a date-ordered series. */
    constructor (dailyReturns: map<int, real>)
      ensures Valid()
      ensures ToMap(entries) == dailyReturns
    {
      var s := FromMap(dailyReturns);
      entries := s;
    }

    /**
     Scans the dates in ascending order: dates before `base` are skipped, the
     scan stops at the first date after `asof`, and every other date multiplies
     the accumulator by (1 + its return).  Reads the series and changes nothing.
     */
    method FindCumReturn(asof: int, base: int) returns (r: real)
      requires Valid()
      ensures r == CumReturn(entries, base, asof)
    {
      var d := 1.0;
      var i := 0;
      ghost var w: seq<Entry> := [];
      while i < |entries|
        invariant 0 <= i <= |entries|
        invariant w == Window(entries[..i], base, asof)
        invariant d == Growth(w)
      {
        var dateC := entries[i].date;
        i := i + 1;
        WindowStep(entries, i - 1, base, asof);
        if base > dateC {
          continue;
        }
        if asof < dateC {
          BreakSound(entries, i - 1, base, asof);
          break;
        }
        GetAt(entries, i - 1);
        var ret := Get(entries, dateC).value;
        Compound(w, entries[i - 1], d, ret);
        d := d * (1.0 + ret);
        w := w + [entries[i - 1]];
      }
      assert i == |entries| ==> entries[..i] == entries;
      r := d - 1.0;
    }
  }

  /** Two queries with the same arguments on one calculator give the same value. */
  method QueryTwice(c: CumRetCalculator, asof: int, base: int) returns (first: real, second: real)
    requires c.Valid()
    ensures first == second
    ensures first == CumReturn(c.entries, base, asof)
  {
    first := c.FindCumReturn(asof, base);
    second := c.FindCumReturn(asof, base);
  }
}
