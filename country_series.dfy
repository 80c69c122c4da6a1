/**
 * getCountryData and the "latest value" rule of the Nigeria economic
 * timeline (app.js): one country's record becomes a series of (year, value)
 * points for charting, and the value shown beside a chart is the last point
 * whose value is not null.
 */
module CountrySeries {
  import opened Wrappers
  import opened WorldBank

  datatype Point<V> = Point(year: int, value: Option<V>)

  /** datasetData.find(d => d.countryCode === countryCode): the position of
      the first record with that code. */
  function FindCountry<V>(data: seq<CountryRecord<V>>, code: string): (r: Option<nat>)
    ensures r.Some? ==> r.value < |data| && data[r.value].countryCode == code
    ensures r.Some? ==> forall j :: 0 <= j < r.value ==> data[j].countryCode != code
    ensures r.None? <==> forall j :: 0 <= j < |data| ==> data[j].countryCode != code
  {
    if data == [] then None
    else if data[0].countryCode == code then Some(0)
    else
      match FindCountry(data[1..], code)
      case None => None
      case Some(i) => Some(i + 1)
  }

  // ---------------------------------------------------------------------
  // Object.entries: integer keys in ascending order

  lemma HasElement(s: set<int>)
    requires s != {}
    ensures exists y :: y in s
  {
    if forall y :: y !in s {
      assert false;
    }
  }

  lemma {:induction false} HasLeast(s: set<int>)
    requires s != {}
    ensures exists y :: y in s && forall z :: z in s ==> y <= z
    decreases |s|
  {
    HasElement(s);
    var x :| x in s;
    var rest := s - {x};
    assert forall z :: z in s ==> z == x || z in rest;
    if rest == {} {
      assert forall z :: z in s ==> x <= z;
    } else {
      HasLeast(rest);
      var y :| y in rest && forall z :: z in rest ==> y <= z;
      var least := if x < y then x else y;
      forall z | z in s
        ensures least <= z
      {
        if z != x {
          assert z in rest;
        }
      }
      assert least in s;
    }
  }

  /** The smallest element of a non-empty set of integers. */
  function Least(s: set<int>): (y: int)
    requires s != {}
    ensures y in s && forall z :: z in s ==> y <= z
  {
    HasLeast(s);
    var y :| y in s && forall z :: z in s ==> y <= z;
    y
  }

  /** The elements of `s` in ascending order: the order in which
      Object.entries lists the integer keys of an object. */
  function SortedKeys(s: set<int>): (r: seq<int>)
    ensures forall i, j :: 0 <= i < j < |r| ==> r[i] < r[j]
    ensures forall y :: y in r <==> y in s
    decreases |s|
  {
    if s == {} then []
    else
      var least := Least(s);
      [least] + SortedKeys(s - {least})
  }

  /** Object.entries(country.values).map(...): one point per year, ascending. */
  function Entries<V>(m: map<int, Option<V>>): (r: seq<Point<V>>)
  {
    var keys := SortedKeys(m.Keys);
    seq(|keys|, i requires 0 <= i < |keys| => Point(keys[i], m[keys[i]]))
  }

  predicate StrictlyAscending<V>(s: seq<Point<V>>)
  {
    forall i, j :: 0 <= i < j < |s| ==> s[i].year < s[j].year
  }

  predicate NonDecreasing<V>(s: seq<Point<V>>)
  {
    forall i, j :: 0 <= i < j < |s| ==> s[i].year <= s[j].year
  }

  /** The entries are the map's pairs, in strictly ascending year order. */
  lemma EntriesSpec<V>(m: map<int, Option<V>>)
    ensures StrictlyAscending(Entries(m))
    ensures forall p :: p in Entries(m) <==> p.year in m && m[p.year] == p.value
  {
    var keys := SortedKeys(m.Keys);
    var r := Entries(m);
    forall p: Point<V> | p.year in m && m[p.year] == p.value
      ensures p in r
    {
      var i :| 0 <= i < |keys| && keys[i] == p.year;
      assert r[i] == p;
    }
  }

  // ---------------------------------------------------------------------
  // filter(d => d.value !== null)

  function NonNull<V>(s: seq<Point<V>>): (r: seq<Point<V>>)
    ensures |r| <= |s|
  {
    if s == [] then []
    else if s[0].value.Some? then [s[0]] + NonNull(s[1..])
    else NonNull(s[1..])
  }

  /** The filter keeps exactly the points with a value. */
  lemma {:induction false} NonNullMembers<V>(s: seq<Point<V>>)
    ensures forall p :: p in NonNull(s) <==> p in s && p.value.Some?
    decreases |s|
  {
    if s != [] {
      NonNullMembers(s[1..]);
      assert s == [s[0]] + s[1..];
    }
  }

  /** A lower bound on the years of a series bounds the filtered series too. */
  lemma {:induction false} NonNullAbove<V>(s: seq<Point<V>>, bound: int)
    requires forall k :: 0 <= k < |s| ==> bound < s[k].year
    ensures forall k :: 0 <= k < |NonNull(s)| ==> bound < NonNull(s)[k].year
    decreases |s|
  {
    if s != [] {
      NonNullAbove(s[1..], bound);
    }
  }

  /** The filter keeps the order of the points it keeps. */
  lemma {:induction false} NonNullAscending<V>(s: seq<Point<V>>)
    requires StrictlyAscending(s)
    ensures StrictlyAscending(NonNull(s))
    decreases |s|
  {
    if s != [] {
      NonNullAscending(s[1..]);
      if s[0].value.Some? {
        NonNullAbove(s[1..], s[0].year);
      }
    }
  }

  // ---------------------------------------------------------------------
  // sort((a, b) => a.year - b.year): a stable sort by year

  /** Places `p` before the first point of `s` whose year is not smaller. */
  function InsertByYear<V>(p: Point<V>, s: seq<Point<V>>): seq<Point<V>>
  {
    if s == [] || p.year <= s[0].year then [p] + s
    else [s[0]] + InsertByYear(p, s[1..])
  }

  function SortByYear<V>(s: seq<Point<V>>): seq<Point<V>>
  {
    if s == [] then []
    else InsertByYear(s[0], SortByYear(s[1..]))
  }

  lemma {:induction false} InsertPermutes<V>(p: Point<V>, s: seq<Point<V>>)
    ensures multiset(InsertByYear(p, s)) == multiset(s) + multiset{p}
    decreases |s|
  {
    if !(s == [] || p.year <= s[0].year) {
      InsertPermutes(p, s[1..]);
      assert s == [s[0]] + s[1..];
    }
  }

  lemma {:induction false} InsertAbove<V>(p: Point<V>, s: seq<Point<V>>, bound: int)
    requires bound <= p.year
    requires forall k :: 0 <= k < |s| ==> bound <= s[k].year
    ensures forall k :: 0 <= k < |InsertByYear(p, s)| ==> bound <= InsertByYear(p, s)[k].year
    decreases |s|
  {
    if !(s == [] || p.year <= s[0].year) {
      InsertAbove(p, s[1..], bound);
    }
  }

  lemma {:induction false} InsertKeepsOrder<V>(p: Point<V>, s: seq<Point<V>>)
    requires NonDecreasing(s)
    ensures NonDecreasing(InsertByYear(p, s))
    decreases |s|
  {
    if !(s == [] || p.year <= s[0].year) {
      InsertKeepsOrder(p, s[1..]);
      InsertAbove(p, s[1..], s[0].year);
    }
  }

  /** The sort yields a permutation of its input in non-decreasing year order. */
  lemma {:induction false} SortByYearSorted<V>(s: seq<Point<V>>)
    ensures NonDecreasing(SortByYear(s))
    ensures multiset(SortByYear(s)) == multiset(s)
    decreases |s|
  {
    if s != [] {
      SortByYearSorted(s[1..]);
      InsertKeepsOrder(s[0], SortByYear(s[1..]));
      InsertPermutes(s[0], SortByYear(s[1..]));
      assert s == [s[0]] + s[1..];
    }
  }

  /** Stability on sorted input: a series already in year order comes back unchanged. */
  lemma {:induction false} SortByYearSortedInput<V>(s: seq<Point<V>>)
    requires NonDecreasing(s)
    ensures SortByYear(s) == s
    decreases |s|
  {
    if s != [] {
      assert NonDecreasing(s[1..]);
      SortByYearSortedInput(s[1..]);
    }
  }

  // ---------------------------------------------------------------------
  // getCountryData

  function GetCountryData<V>(data: seq<CountryRecord<V>>, code: string): seq<Point<V>>
  {
    match FindCountry(data, code)
    case None => []
    case Some(i) => SortByYear(NonNull(Entries(data[i].values)))
  }

  /** An unknown code gives the empty series; otherwise the series holds
      exactly the non-null years of the first record with that code, one point
      per year, in strictly ascending year order. */
  lemma GetCountryDataSpec<V>(data: seq<CountryRecord<V>>, code: string)
    ensures FindCountry(data, code).None? ==> GetCountryData(data, code) == []
    ensures FindCountry(data, code).Some? ==>
      var m := data[FindCountry(data, code).value].values;
      var r := GetCountryData(data, code);
      && StrictlyAscending(r)
      && (forall p :: p in r <==> p.year in m && m[p.year] == p.value && p.value.Some?)
  {
    match FindCountry(data, code)
    case None =>
    case Some(i) =>
      var m := data[i].values;
      var s := NonNull(Entries(m));
      EntriesSpec(m);
      NonNullMembers(Entries(m));
      NonNullAscending(Entries(m));
      SortByYearSortedInput(s);
  }

  // ---------------------------------------------------------------------
  // The latest value: data.filter(d => d.value !== null).pop()

  function Latest<V>(series: seq<Point<V>>): (r: Option<Point<V>>)
  {
    var kept := NonNull(series);
    if kept == [] then None else Some(kept[|kept| - 1])
  }

  /** The latest point is a point of the series with a value, and every later
      point is null; there is none exactly when every point is null. */
  lemma {:induction false} LatestSpec<V>(series: seq<Point<V>>)
    ensures Latest(series).None? <==> forall k :: 0 <= k < |series| ==> series[k].value.None?
    ensures Latest(series).Some? ==>
              exists k :: 0 <= k < |series| && series[k] == Latest(series).value
                && series[k].value.Some? && forall j :: k < j < |series| ==> series[j].value.None?
    decreases |series|
  {
    if series != [] {
      var rest := series[1..];
      LatestSpec(rest);
      if NonNull(rest) == [] {
        if series[0].value.Some? {
          assert forall j :: 0 < j < |series| ==> series[j] == rest[j - 1];
        }
      } else {
        var k :| 0 <= k < |rest| && rest[k] == Latest(rest).value
          && rest[k].value.Some? && forall j :: k < j < |rest| ==> rest[j].value.None?;
        assert series[k + 1] == rest[k];
        assert forall j :: k + 1 < j < |series| ==> series[j] == rest[j - 1];
      }
    }
  }

  /** In a series in ascending year order the latest point has the greatest
      year among the points with a value. */
  lemma LatestIsGreatest<V>(series: seq<Point<V>>)
    requires StrictlyAscending(series)
    ensures Latest(series).Some? ==>
              && Latest(series).value in series && Latest(series).value.value.Some?
              && forall q :: q in series && q.value.Some? ==> q.year <= Latest(series).value.year
  {
    LatestSpec(series);
    if Latest(series).Some? {
      var k :| 0 <= k < |series| && series[k] == Latest(series).value
        && series[k].value.Some? && forall j :: k < j < |series| ==> series[j].value.None?;
      forall q | q in series && q.value.Some?
        ensures q.year <= series[k].year
      {
        var j :| 0 <= j < |series| && series[j] == q;
        assert j <= k;
      }
    }
  }

  /** For a country's series the latest point is the greatest year whose value
      is not null, with that value; there is none when every year is null. */
  lemma LatestOfCountry<V>(data: seq<CountryRecord<V>>, code: string)
    requires FindCountry(data, code).Some?
    ensures var m := data[FindCountry(data, code).value].values;
      var latest := Latest(GetCountryData(data, code));
      && (latest.None? <==> forall y :: y in m ==> m[y].None?)
      && (latest.Some? ==>
            && latest.value.year in m && m[latest.value.year] == latest.value.value
            && latest.value.value.Some?
            && forall y :: y in m && m[y].Some? ==> y <= latest.value.year)
  {
    var m := data[FindCountry(data, code).value].values;
    var r := GetCountryData(data, code);
    GetCountryDataSpec(data, code);
    LatestSpec(r);
    LatestIsGreatest(r);
    forall y | y in m && m[y].Some?
      ensures Point(y, m[y]) in r
    {
    }
    if Latest(r).None? {
      forall y | y in m
        ensures m[y].None?
      {
        if m[y].Some? {
          assert false;
        }
      }
    }
  }
}
