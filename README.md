# Cumulative return calculator

A Dafny model of `CumRetCalculator`. The calculator is built from a map of dated
period returns. Its constructor copies that map into a `TreeMap`, so the dates
are kept in ascending order. `findCumReturn(asof, base)` reads the dates in that
order:

- it skips every date before `base`;
- it stops at the first date after `asof`;
- it multiplies an accumulator, which starts at 1, by `1 + r` for each date it keeps;
- it returns the accumulator minus 1.

The model has four modules:

- `ReturnSeries`: the stored `TreeMap` as a sequence of `Entry(date, ret)` whose dates are strictly ascending. It also has:
  - the map that sequence stores (`ToMap`);
  - `put` (`Put`) and `get` (`Get`);
  - the copy constructor `new TreeMap<>(map)` (`FromMap`), a loop that puts the input's keys one at a time in an arbitrary order.
- `CumulativeReturn`: the specification of the query. `Window(s, base, asof)` is the subsequence of entries dated in `[base, asof]`. `Growth` is the product of `1 + r` over a run of entries. `CumReturn` is `Growth(Window(..)) - 1`. The lemmas about it cover:
  - zero results;
  - soundness of the early exit;
  - both bounds being inclusive;
  - isolation of the window;
  - compounding.
- `Calculator`: the class `CumRetCalculator`. Its field `entries` is the `treeMap` field. Its constructor copies the input map. Its method `FindCumReturn` is the query loop. That loop is proved to return `CumReturn(entries, base, asof)`.
- `SampleData`: the five dated returns of the sample map and three queries on them.

Dates are integers compared with `<`. In the sample data a date is written as
`yyyymmdd`. Returns are exact reals.

### Code and documentation disagree

The model follows the code:

- The code keeps a date `dateC` when `base.compareTo(dateC) > 0` is false and `asof.compareTo(dateC) < 0` is false. So the window is `base <= dateC <= asof`, inclusive at both ends.
- The doc comment at `Cumulative/src/com/citi/CumRetCalculator.java:71-72` says a date must be *bigger than* base. That would exclude base.
- The comment at lines 76-77 says the result is 0 when asof is equal to base. But when asof equals base and that date has an entry with a non-zero return, the code returns that return.
- Two lemmas show the code's behaviour:
  - `SingleDay`: with base and asof both set to an entry's date, the result is that entry's return.
  - `BaseEqualsAsofNotZero`: with a non-zero return on that date, the result is not 0.

The sample query with base 2015/2/1 and as-of 2015/5/8 compounds 0.05, 0.15 and
-0.10. The result is 1.05 × 1.15 × 0.90 − 1 = 0.08675 (`SampleData.SampleQueries`).

## Model

| member | source | states |
|---|---|---|
| ReturnSeries.ToMap | Cumulative/src/com/citi/CumRetCalculator.java:22 | the map a date-ordered series stores holds exactly the series' (date, return) pairs |
| ReturnSeries.Put | Cumulative/src/com/citi/CumRetCalculator.java:66 | `put` keeps the series strictly ascending; the new entries are the old ones with a different date plus the new (date, return) pair |
| ReturnSeries.PutToMap | Cumulative/src/com/citi/CumRetCalculator.java:66 | after `put(k, v)` the stored map is the old map updated at k to v |
| ReturnSeries.FromMap | Cumulative/src/com/citi/CumRetCalculator.java:65-67 | copying any input map, whatever its key order, gives a strictly ascending series that stores exactly that map |
| ReturnSeries.SortedUnique | Cumulative/src/com/citi/CumRetCalculator.java:66 | two strictly ascending series with the same entries are equal, so the sorted order is unique |
| ReturnSeries.SameMapSameSeries | Cumulative/src/com/citi/CumRetCalculator.java:65-67 | the series the constructor builds is determined by the input map alone |
| ReturnSeries.Get | Cumulative/src/com/citi/CumRetCalculator.java:90 | a value `get(k)` finds is the return of an entry dated k |
| ReturnSeries.GetAt | Cumulative/src/com/citi/CumRetCalculator.java:85-90 | `get` on the date the iterator just returned finds that entry's return |
| ReturnSeries.GetMissing | Cumulative/src/com/citi/CumRetCalculator.java:90 | `get` of a date with no entry finds nothing |
| ReturnSeries.GetStored | Cumulative/src/com/citi/CumRetCalculator.java:90 | `get(k)` is the stored map's value at k when k is a key, and nothing otherwise |
| Calculator.CumRetCalculator.constructor | Cumulative/src/com/citi/CumRetCalculator.java:65-67 | the new calculator's series is strictly ascending and stores exactly the input map |
| Calculator.CumRetCalculator.FindCumReturn | Cumulative/src/com/citi/CumRetCalculator.java:79-93 | the scan with its skip, early exit and compounding returns the product of (1 + r) over the entries dated in [base, asof], minus 1 |
| Calculator.QueryTwice | Cumulative/src/com/citi/CumRetCalculator.java:79-93 | the query only reads the series: asking twice gives the same value |
| CumulativeReturn.WindowStep | Cumulative/src/com/citi/CumRetCalculator.java:84-91 | reading one more date extends the window by that entry exactly when base <= date <= asof |
| CumulativeReturn.GrowthStep | Cumulative/src/com/citi/CumRetCalculator.java:90 | taking one more entry multiplies the growth by 1 + its return |
| CumulativeReturn.WindowMembers | Cumulative/src/com/citi/CumRetCalculator.java:86-89 | an entry is in the window exactly when it is in the series and base <= its date <= asof |
| CumulativeReturn.WindowAscending | Cumulative/src/com/citi/CumRetCalculator.java:84-91 | the window of a date-ordered series is date-ordered |
| CumulativeReturn.NoEntryInWindowIsZero | Cumulative/src/com/citi/CumRetCalculator.java:76-77 | when no date lies in [base, asof], the window is empty and the result is 0 |
| CumulativeReturn.InvertedRangeIsZero | Cumulative/src/com/citi/CumRetCalculator.java:76-77 | an as-of date before the base date gives 0 |
| CumulativeReturn.AsofBeforeFirstIsZero | Cumulative/src/com/citi/CumRetCalculator.java:88-89 | an as-of date before the first stored date gives 0 |
| CumulativeReturn.BreakSound | Cumulative/src/com/citi/CumRetCalculator.java:88-89 | in an ascending series, stopping at the first date after asof loses no entry of the window |
| CumulativeReturn.BreakNeedsOrder | Cumulative/src/com/citi/CumRetCalculator.java:88-89 | without ascending order, stopping at a date after asof would miss a later in-range entry |
| CumulativeReturn.SingleDay | Cumulative/src/com/citi/CumRetCalculator.java:86-89 | both bounds are inclusive: with base = asof = an entry's date, the window is that entry and the result is its return |
| CumulativeReturn.BaseEqualsAsofNotZero | Cumulative/src/com/citi/CumRetCalculator.java:76-77 | with base = asof on a date whose return is non-zero, the result is not 0 |
| CumulativeReturn.WindowIsolation | Cumulative/src/com/citi/CumRetCalculator.java:86-90 | two series agreeing on every date in [base, asof] have the same window and the same result |
| CumulativeReturn.InsertOutsideWindow | Cumulative/src/com/citi/CumRetCalculator.java:86-89 | putting an entry dated outside [base, asof] leaves the result unchanged |
| CumulativeReturn.RemoveOutsideWindow | Cumulative/src/com/citi/CumRetCalculator.java:86-89 | removing an entry dated outside [base, asof] leaves the result unchanged |
| CumulativeReturn.GrowthConcat | Cumulative/src/com/citi/CumRetCalculator.java:90 | the growth of two consecutive runs is the product of their growths |
| CumulativeReturn.WindowConcat | Cumulative/src/com/citi/CumRetCalculator.java:86-89 | the window [base, asof] of an ascending series is the window [base, mid] followed by the window [mid + 1, asof] |
| CumulativeReturn.TwoEntryCompounding | Cumulative/src/com/citi/CumRetCalculator.java:90-92 | two qualifying returns r1, r2 compound to (1 + r1)(1 + r2) - 1 = r1 + r2 + r1·r2, not to r1 + r2 |
| SampleData.SampleSeriesMap | Cumulative/src/com/citi/CumRetCalculator.java:107-111 | the five sample returns in date order form a strictly ascending series storing the sample map |
| SampleData.SampleSeriesStored | Cumulative/src/com/citi/CumRetCalculator.java:105-111 | whatever order the sample map's keys come in, the constructor stores the date-ordered sample series |
| SampleData.SpringWindow | Cumulative/src/com/citi/CumRetCalculator.java:107-111 | on the sample, the window from 2015/2/1 to 2015/5/8 holds the entries of 2015/2/10, 2015/4/10 and 2015/4/15 |
| SampleData.SpringGrowth | Cumulative/src/com/citi/CumRetCalculator.java:109-110 | those three entries compound to 1.05 × 1.15 × 0.90 = 1.08675 |
| SampleData.SampleQueries | Cumulative/src/com/citi/CumRetCalculator.java:79-93 | on the sample map the queries return 0.08675 for 2015/2/1 to 2015/5/8, -0.12 for 2015/6/10 to 2015/6/10, and 0 for as-of 2015/6/10 before base 2015/7/1 |

## Left out

- `main` (lines 38-53) is left out. It measures wall-clock time and prints; clocks and output are not modelled.
- Most of `createMap` (lines 104-122) is left out:
  - parsing dates with `SimpleDateFormat`;
  - the loop that adds 100000 consecutive days through `Calendar`;
  - its print.
  Calendar arithmetic is outside the core. The five literal entries (lines 107-111) are in `SampleData`.
- `java.util.Date` and `Date.compareTo`: dates are integers, and `compareTo` is integer comparison.
- `double` arithmetic: returns are exact reals. Rounding, overflow to infinity and NaN are not modelled, so the sample result is exactly 0.08675.
- `null`: a null input map, a null date or a null return cannot be expressed. So the `NullPointerException` that the copy at line 66 or the unboxing at line 90 would raise on them is not modelled.
- The red-black tree inside `TreeMap` and the bucket order of `HashMap`:
  - the stored map is a sorted sequence;
  - the order in which the copy visits the input's keys is an arbitrary choice;
  - `SameMapSameSeries` shows that the result does not depend on that order.
- `Iterator` over `keySet()`: modelled as an index into the sorted sequence.
