/**
 The specification of the compounded cumulative return over a date window.

 The window of a series for a query (base, asof) is the subsequence of its
 entries whose date d satisfies base <= d <= asof: inclusive at BOTH ends,
 which is what the comparisons of the query loop select.  The cumulative
 return is the product of (1 + r) over the window, minus 1.
 */
module CumulativeReturn {
  import opened ReturnSeries

  /** The entries of `s`, in their order, whose date lies in [base, asof]. */
  function Window(s: seq<Entry>, base: int, asof: int): seq<Entry>
  {
    if s == [] then []
    else
      var last := s[|s| - 1];
      var w := Window(s[..|s| - 1], base, asof);
      if base <= last.date <= asof then w + [last] else w
  }

  /** The compounded growth factor of a run of entries, taken in order. */
  function Growth(w: seq<Entry>): real
  {
    if w == [] then 1.0 else Growth(w[..|w| - 1]) * (1.0 + w[|w| - 1].ret)
  }

  /** The cumulative return of `s` over [base, asof]. */
  function CumReturn(s: seq<Entry>, base: int, asof: int): real
  {
    Growth(Window(s, base, asof)) - 1.0
  }

  /** Scanning one more entry extends the window by that entry exactly when it is in range. */
  lemma WindowStep(s: seq<Entry>, i: nat, base: int, asof: int)
    requires i < |s|
    ensures Window(s[..i + 1], base, asof)
         == if base <= s[i].date <= asof then Window(s[..i], base, asof) + [s[i]]
            else Window(s[..i], base, asof)
  {
    assert s[..i + 1][..i] == s[..i];
  }

  /** Appending an entry multiplies the growth by 1 + its return. */
  lemma GrowthStep(w: seq<Entry>, e: Entry)
    ensures Growth(w + [e]) == Growth(w) * (1.0 + e.ret)
  {
    assert (w + [e])[..|w|] == w;
  }

  /**
   The update of the query loop: multiplying the growth of a run by 1 + the
   return of a further entry gives the growth of the run extended by it.
   */
  lemma Compound(w: seq<Entry>, e: Entry, d: real, r: real)
    requires d == Growth(w) && r == e.ret
    ensures d * (1.0 + r) == Growth(w + [e])
  {
    GrowthStep(w, e);
  }

  /** The window holds exactly the entries of the series dated in [base, asof]. */
  lemma {:induction false} WindowMembers(s: seq<Entry>, base: int, asof: int)
    ensures forall e :: e in Window(s, base, asof) <==> e in s && base <= e.date <= asof
  {
    if s != [] {
      var init := s[..|s| - 1];
      assert forall e :: e in s <==> e in init || e == s[|s| - 1];
      WindowMembers(init, base, asof);
    }
  }

  /** The window of an ascending series is ascending. */
  lemma {:induction false} WindowAscending(s: seq<Entry>, base: int, asof: int)
    requires StrictlyAscending(s)
    ensures StrictlyAscending(Window(s, base, asof))
  {
    if s != [] {
      var init, last := s[..|s| - 1], s[|s| - 1];
      WindowAscending(init, base, asof);
      WindowMembers(init, base, asof);
      var w := Window(init, base, asof);
      assert forall e :: e in w ==> e.date < last.date;
      if base <= last.date <= asof {
        assert forall i :: 0 <= i < |w| ==> w[i] in w;
      }
    }
  }

  /** When no date of the series lies in [base, asof], the window is empty and the return is 0. */
  lemma {:induction false} NoEntryInWindowIsZero(s: seq<Entry>, base: int, asof: int)
    requires forall e :: e in s ==> !(base <= e.date <= asof)
    ensures Window(s, base, asof) == []
    ensures CumReturn(s, base, asof) == 0.0
  {
    if s != [] {
      var init := s[..|s| - 1];
      assert forall e :: e in init ==> e in s;
      NoEntryInWindowIsZero(init, base, asof);
    }
  }

  /** An as-of date before the base date selects nothing, so the return is 0. */
  lemma InvertedRangeIsZero(s: seq<Entry>, base: int, asof: int)
    requires asof < base
    ensures CumReturn(s, base, asof) == 0.0
  {
    NoEntryInWindowIsZero(s, base, asof);
  }

  /** An as-of date before the first date of an ascending series gives 0. */
  lemma AsofBeforeFirstIsZero(s: seq<Entry>, base: int, asof: int)
    requires StrictlyAscending(s) && s != [] && asof < s[0].date
    ensures CumReturn(s, base, asof) == 0.0
  {
    assert forall e :: e in s ==> s[0].date <= e.date;
    NoEntryInWindowIsZero(s, base, asof);
  }

  /**
   The early exit is sound: in an ascending series, once an entry lies after
   `asof`, no entry from it on is in the window.
   */
  lemma {:induction false} BreakSound(s: seq<Entry>, i: nat, base: int, asof: int)
    requires StrictlyAscending(s)
    requires i < |s| && asof < s[i].date
    ensures Window(s, base, asof) == Window(s[..i], base, asof)
  {
    var init := s[..|s| - 1];
    if i == |s| - 1 {
      assert init == s[..i];
    } else {
      assert s[i].date < s[|s| - 1].date;
      assert init[..i] == s[..i];
      BreakSound(init, i, base, asof);
    }
  }

  /**
   Without ascending order the early exit would lose entries: here the first
   entry lies after `asof`, yet a later one is in the window.
   */
  lemma BreakNeedsOrder()
    ensures var s := [Entry(5, 0.5), Entry(1, 0.5)];
      && !StrictlyAscending(s)
      && 3 < s[0].date
      && Window(s[..0], 0, 3) == []
      && Window(s, 0, 3) == [Entry(1, 0.5)]
  {
    var s := [Entry(5, 0.5), Entry(1, 0.5)];
    assert !(s[0].date < s[1].date);
    assert s[..1] == [Entry(5, 0.5)];
    assert s[..1][..0] == [];
  }

  /**
   Both ends of the window are inclusive: with base == asof == the date of an
   entry, the window is exactly that entry and the return is its period return.
   */
  lemma SingleDay(s: seq<Entry>, k: nat)
    requires StrictlyAscending(s) && k < |s|
    ensures Window(s, s[k].date, s[k].date) == [s[k]]
    ensures CumReturn(s, s[k].date, s[k].date) == s[k].ret
  {
    var d := s[k].date;
    if k + 1 < |s| {
      BreakSound(s, k + 1, d, d);
    } else {
      assert s[..k + 1] == s;
    }
    WindowStep(s, k, d, d);
    assert forall e :: e in s[..k] ==> e.date < d;
    NoEntryInWindowIsZero(s[..k], d, d);
    GrowthSingle(s[k]);
  }

  /** The growth of one entry is 1 + its return. */
  lemma GrowthSingle(e: Entry)
    ensures Growth([e]) == 1.0 + e.ret
  {
    assert [e][..0] == [];
  }

  /**
   With base == asof the result need not be 0: any entry on that date with a
   non-zero return gives a non-zero result.
   */
  lemma BaseEqualsAsofNotZero(s: seq<Entry>, k: nat)
    requires StrictlyAscending(s) && k < |s| && s[k].ret != 0.0
    ensures CumReturn(s, s[k].date, s[k].date) != 0.0
  {
    SingleDay(s, k);
  }

  /** Window isolation: series that agree on every date in [base, asof] give the same return. */
  lemma WindowIsolation(s: seq<Entry>, t: seq<Entry>, base: int, asof: int)
    requires StrictlyAscending(s) && StrictlyAscending(t)
    requires forall d :: base <= d <= asof ==> (d in ToMap(s) <==> d in ToMap(t))
    requires forall d :: base <= d <= asof && d in ToMap(s) ==> ToMap(s)[d] == ToMap(t)[d]
    ensures Window(s, base, asof) == Window(t, base, asof)
    ensures CumReturn(s, base, asof) == CumReturn(t, base, asof)
  {
    var ws, wt := Window(s, base, asof), Window(t, base, asof);
    WindowMembers(s, base, asof);
    WindowMembers(t, base, asof);
    WindowAscending(s, base, asof);
    WindowAscending(t, base, asof);
    forall e
      ensures e in ws <==> e in wt
    {
      if e in ws {
        assert Entry(e.date, ToMap(t)[e.date]) in t;
      }
      if e in wt {
        assert Entry(e.date, ToMap(s)[e.date]) in s;
      }
    }
    SortedUnique(ws, wt);
  }

  /** Putting an entry dated outside [base, asof] into the series does not change the return. */
  lemma InsertOutsideWindow(s: seq<Entry>, t: seq<Entry>, k: int, v: real, base: int, asof: int)
    requires StrictlyAscending(s) && StrictlyAscending(t)
    requires ToMap(t) == ToMap(s)[k := v]
    requires !(base <= k <= asof)
    ensures CumReturn(t, base, asof) == CumReturn(s, base, asof)
  {
    WindowIsolation(s, t, base, asof);
  }

  /** Removing the entry for a date outside [base, asof] does not change the return. */
  lemma RemoveOutsideWindow(s: seq<Entry>, t: seq<Entry>, k: int, base: int, asof: int)
    requires StrictlyAscending(s) && StrictlyAscending(t)
    requires ToMap(t) == ToMap(s) - {k}
    requires !(base <= k <= asof)
    ensures CumReturn(t, base, asof) == CumReturn(s, base, asof)
  {
    WindowIsolation(s, t, base, asof);
  }

  /** Growth is multiplicative over concatenation. */
  lemma {:induction false} GrowthConcat(x: seq<Entry>, y: seq<Entry>)
    ensures Growth(x + y) == Growth(x) * Growth(y)
  {
    if y == [] {
      assert x + y == x;
    } else {
      var init, last := y[..|y| - 1], y[|y| - 1];
      assert x + y == (x + init) + [last];
      assert y == init + [last];
      GrowthStep(x + init, last);
      GrowthStep(init, last);
      GrowthConcat(x, init);
    }
  }

  /** In an ascending series the window [base, asof] is [base, mid] followed by [mid + 1, asof]. */
  lemma {:induction false} WindowConcat(s: seq<Entry>, base: int, mid: int, asof: int)
    requires StrictlyAscending(s)
    requires base <= mid <= asof
    ensures Window(s, base, asof) == Window(s, base, mid) + Window(s, mid + 1, asof)
  {
    if s != [] {
      var init, last := s[..|s| - 1], s[|s| - 1];
      WindowConcat(init, base, mid, asof);
      var lo, hi := Window(init, base, mid), Window(init, mid + 1, asof);
      if mid + 1 <= last.date <= asof {
        assert lo + hi + [last] == lo + (hi + [last]);
      } else if base <= last.date <= mid {
        assert forall e :: e in init ==> e.date < last.date;
        NoEntryInWindowIsZero(init, mid + 1, asof);
      }
    }
  }

  /** Two qualifying entries r1, r2 compound to (1 + r1) * (1 + r2) - 1, not r1 + r2. */
  lemma TwoEntryCompounding(s: seq<Entry>, base: int, asof: int)
    requires |Window(s, base, asof)| == 2
    ensures var w := Window(s, base, asof);
      CumReturn(s, base, asof) == (1.0 + w[0].ret) * (1.0 + w[1].ret) - 1.0
      && CumReturn(s, base, asof) == w[0].ret + w[1].ret + w[0].ret * w[1].ret
  {
    var w := Window(s, base, asof);
    assert w[..1][..0] == [];
    assert Growth(w[..1]) == Growth(w[..1][..0]) * (1.0 + w[0].ret);
    assert Growth(w) == Growth(w[..1]) * (1.0 + w[1].ret);
  }
}
