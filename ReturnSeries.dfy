/**
 The date-ordered return series that the calculator keeps in a `TreeMap`.

 A series is a sequence of (date, period return) entries whose dates are
 strictly ascending, so every date occurs once.  Dates are integers compared
 with `<`; returns are exact reals.
 */
module ReturnSeries {

  datatype Option<T> = None | Some(value: T)

  /** One observation: the period return recorded for a date. */
  datatype Entry = Entry(date: int, ret: real)

  /** The dates of `s` are strictly ascending (sorted and unique). */
  predicate StrictlyAscending(s: seq<Entry>)
  {
    forall i, j :: 0 <= i < j < |s| ==> s[i].date < s[j].date
  }

  /** The map from date to return that a strictly ascending series stores. */
  function ToMap(s: seq<Entry>): (m: map<int, real>)
    requires StrictlyAscending(s)
    ensures forall e :: e in s ==> e.date in m && m[e.date] == e.ret
    ensures forall k :: k in m ==> Entry(k, m[k]) in s
  {
    map e | e in s :: e.date := e.ret
  }

  /** Splitting an ascending series into its first entry and the rest. */
  lemma AscendingTail(s: seq<Entry>)
    requires StrictlyAscending(s) && s != []
    ensures StrictlyAscending(s[1..])
    ensures forall x :: x in s <==> x == s[0] || x in s[1..]
    ensures forall x :: x in s[1..] ==> s[0].date < x.date
  {
    assert s == [s[0]] + s[1..];
  }

  /** An entry dated before every entry of an ascending series can be put in front. */
  lemma PrependAscending(e: Entry, s: seq<Entry>)
    requires StrictlyAscending(s)
    requires forall x :: x in s ==> e.date < x.date
    ensures StrictlyAscending([e] + s)
  {
    assert forall j :: 0 <= j < |s| ==> s[j] in s;
  }

  /** `TreeMap.get`: the return stored for date k, or None when no entry has that date. */
  function Get(s: seq<Entry>, k: int): (r: Option<real>)
    ensures r.Some? ==> Entry(k, r.value) in s
  {
    if s == [] then None
    else if s[0].date == k then Some(s[0].ret)
    else Get(s[1..], k)
  }

  /** `get` on the date of the i-th entry returns that entry's return. */
  lemma {:induction false} GetAt(s: seq<Entry>, i: nat)
    requires StrictlyAscending(s) && i < |s|
    ensures Get(s, s[i].date) == Some(s[i].ret)
  {
    if i > 0 {
      AscendingTail(s);
      assert s[1..][i - 1] == s[i];
      GetAt(s[1..], i - 1);
    }
  }

  /** `get` misses a date for which the series has no entry. */
  lemma {:induction false} GetMissing(s: seq<Entry>, k: int)
    requires forall e :: e in s ==> e.date != k
    ensures Get(s, k) == None
  {
    if s != [] {
      assert s[0] in s;
      assert forall e :: e in s[1..] ==> e in s;
      GetMissing(s[1..], k);
    }
  }

  /** `get` agrees with the map the series stores: it finds the stored return, or None off the key set. */
  lemma GetStored(s: seq<Entry>, k: int)
    requires StrictlyAscending(s)
    ensures Get(s, k) == if k in ToMap(s) then Some(ToMap(s)[k]) else None
  {
    if k in ToMap(s) {
      var e := Entry(k, ToMap(s)[k]);
      assert e in s;
      var i :| 0 <= i < |s| && s[i] == e;
      GetAt(s, i);
    } else {
      GetMissing(s, k);
    }
  }

  /** Two strictly ascending series with the same entries are the same series. */
  lemma {:induction false} SortedUnique(s: seq<Entry>, t: seq<Entry>)
    requires StrictlyAscending(s) && StrictlyAscending(t)
    requires forall e :: e in s <==> e in t
    ensures s == t
  {
    FirstIn(s);
    FirstIn(t);
    assert (s == []) == (t == []);
    if s != [] {
      AscendingTail(s);
      AscendingTail(t);
      assert s[0] in t && t[0] in s;
      assert s[0] == t[0];
      SortedUnique(s[1..], t[1..]);
      assert s == [s[0]] + s[1..];
      assert t == [t[0]] + t[1..];
    }
  }

  /** The first entry of a non-empty series is one of its entries. */
  lemma FirstIn(s: seq<Entry>)
    ensures s != [] ==> s[0] in s
  {
  }

  /** A strictly ascending series is determined by the map it stores. */
  lemma SameMapSameSeries(s: seq<Entry>, t: seq<Entry>)
    requires StrictlyAscending(s) && StrictlyAscending(t)
    requires ToMap(s) == ToMap(t)
    ensures s == t
  {
    InToMap(s);
    InToMap(t);
    SortedUnique(s, t);
  }

  /**
   `TreeMap.put`: insert the entry (k, v) at its place in date order,
   replacing the entry already stored under k.
   */
  function Put(s: seq<Entry>, k: int, v: real): (r: seq<Entry>)
    requires StrictlyAscending(s)
    ensures StrictlyAscending(r)
    ensures forall e :: e in r <==> (e in s && e.date != k) || e == Entry(k, v)
  {
    if s == [] then [Entry(k, v)]
    else
      AscendingTail(s);
      if k < s[0].date then
        PrependAscending(Entry(k, v), s);
        [Entry(k, v)] + s
      else if k == s[0].date then
        PrependAscending(Entry(k, v), s[1..]);
        [Entry(k, v)] + s[1..]
      else
        var rest := Put(s[1..], k, v);
        PrependAscending(s[0], rest);
        [s[0]] + rest
  }

  /** What `put` does to the stored map. */
  lemma PutToMap(s: seq<Entry>, k: int, v: real)
    requires StrictlyAscending(s)
    ensures ToMap(Put(s, k, v)) == ToMap(s)[k := v]
  {
    InToMap(s);
    StoresInput(Put(s, k, v), ToMap(s)[k := v]);
  }

  /** An entry is in an ascending series exactly when the stored map maps its date to its return. */
  lemma InToMap(s: seq<Entry>)
    requires StrictlyAscending(s)
    ensures forall e :: e in s <==> e.date in ToMap(s) && ToMap(s)[e.date] == e.ret
  {
  }

  /** A non-empty set of dates has an element. */
  lemma NonEmptyHasKey(keys: set<int>)
    requires keys != {}
    ensures exists k :: k in keys
  {
    if forall k :: k !in keys {
      assert false;
    }
  }

  /**
   `new TreeMap<>(dailyReturns)`: put every entry of the unordered input map,
   in whatever order its keys come, into an initially empty series.
   */
  method FromMap(m: map<int, real>) returns (s: seq<Entry>)
    ensures StrictlyAscending(s)
    ensures ToMap(s) == m
  {
    s := [];
    var pending := m.Keys;
    while pending != {}
      invariant pending <= m.Keys
      invariant StrictlyAscending(s)
      invariant forall e :: e in s <==> e.date in m && e.date !in pending && e.ret == m[e.date]
      decreases pending
    {
      NonEmptyHasKey(pending);
      var k :| k in pending;
      s := Put(s, k, m[k]);
      pending := pending - {k};
    }
    StoresInput(s, m);
  }

  /** A series holding exactly the pairs of `m` stores `m`. */
  lemma StoresInput(s: seq<Entry>, m: map<int, real>)
    requires StrictlyAscending(s)
    requires forall e :: e in s <==> e.date in m && e.ret == m[e.date]
    ensures ToMap(s) == m
  {
    var stored := ToMap(s);
    forall j | j in m
      ensures j in stored
    {
      assert Entry(j, m[j]) in s;
    }
    forall j | j in stored
      ensures j in m && stored[j] == m[j]
    {
      assert Entry(j, stored[j]) in s;
    }
  }
}
