/** Per-country aggregation (`dataSet.aggregateCountries`): the rows of a
    country are summed date by date into one series, dates ascending, each
    point numbered and given the difference to the previous date's sum;
    dates whose sum is not positive are then left out. */
module Countries {
  import opened Records
  import Seqs
  import ThresholdFilter

  /** The dates of a row's points, in column order. */
  function DatesOf(s: seq<Sample>): seq<int> {
    seq(|s|, i requires 0 <= i < |s| => s[i].date)
  }

  /** Every date of every row, in the order the rows and their columns are read. */
  function AllDates(rows: seq<RawRow>): seq<int> {
    if |rows| == 0 then [] else AllDates(rows[..|rows| - 1]) + DatesOf(rows[|rows| - 1].data)
  }

  /** The sum of a row's counts at date `k`. */
  function SamplesSum(s: seq<Sample>, k: int): int {
    if |s| == 0 then 0
    else SamplesSum(s[..|s| - 1], k) + (if s[|s| - 1].date == k then s[|s| - 1].confirmed else 0)
  }

  /** The sum over all rows of their counts at date `k`. */
  function RowsSum(rows: seq<RawRow>, k: int): int {
    if |rows| == 0 then 0 else RowsSum(rows[..|rows| - 1], k) + SamplesSum(rows[|rows| - 1].data, k)
  }

  /** The dictionary `m` once every row is read: each date that occurs,
      mapped to the sum of the counts at that date. */
  function SumMap(rows: seq<RawRow>): map<int, int> {
    map k | k in AllDates(rows) :: RowsSum(rows, k)
  }

  lemma {:induction false} SamplesSumAbsent(s: seq<Sample>, k: int)
    requires k !in DatesOf(s)
    ensures SamplesSum(s, k) == 0
  {
    if |s| > 0 {
      assert DatesOf(s) == DatesOf(s[..|s| - 1]) + [s[|s| - 1].date];
      SamplesSumAbsent(s[..|s| - 1], k);
    }
  }

  lemma {:induction false} RowsSumAbsent(rows: seq<RawRow>, k: int)
    requires k !in AllDates(rows)
    ensures RowsSum(rows, k) == 0
  {
    if |rows| > 0 {
      RowsSumAbsent(rows[..|rows| - 1], k);
      SamplesSumAbsent(rows[|rows| - 1].data, k);
    }
  }

  /** Appending one date: the first-occurrence order gains the date
      exactly when it is new. */
  lemma DistinctSnoc(seen: seq<int>, k: int)
    ensures Seqs.Distinct(seen + [k]) ==
      if k in seen then Seqs.Distinct(seen) else Seqs.Distinct(seen) + [k]
  {
    assert (seen + [k])[..|seen|] == seen;
  }

  /** Reading one more point of a row: its date joins the dates read, and
      its count joins the sum at that date and no other. */
  lemma SamplesSnoc(data: seq<Sample>, j: nat)
    requires j < |data|
    ensures DatesOf(data[..j + 1]) == DatesOf(data[..j]) + [data[j].date]
    ensures forall k ::
      SamplesSum(data[..j + 1], k) == SamplesSum(data[..j], k) + (if data[j].date == k then data[j].confirmed else 0)
  {
    assert data[..j + 1][..j] == data[..j];
  }

  /** The inner loop of the dictionary fill, over the points of one row:
      `m[k] = m[k] + confirmed` for a date already present, `m[k] =
      confirmed` for a new one. `seen` holds the dates read before this row
      and `sumBefore` their sums. */
  method AddRow(m0: map<int, int>, keys0: seq<int>, data: seq<Sample>,
                ghost seen: seq<int>, ghost sumBefore: map<int, int>)
    returns (m: map<int, int>, keys: seq<int>)
    requires keys0 == Seqs.Distinct(seen)
    requires forall k :: k in m0 <==> k in seen
    requires forall k :: k in sumBefore <==> k in seen
    requires forall k :: k in m0 ==> m0[k] == sumBefore[k]
    ensures keys == Seqs.Distinct(seen + DatesOf(data))
    ensures forall k :: k in m <==> k in seen + DatesOf(data)
    ensures forall k :: k in m ==> m[k] == (if k in seen then sumBefore[k] else 0) + SamplesSum(data, k)
  {
    m, keys := m0, keys0;
    ghost var read := seen;
    assert DatesOf(data[..0]) == [];
    assert seen + DatesOf(data[..0]) == seen;
    for j := 0 to |data|
      invariant read == seen + DatesOf(data[..j])
      invariant keys == Seqs.Distinct(read)
      invariant forall k :: k in m <==> k in read
      invariant forall k :: k in m ==> m[k] == (if k in seen then sumBefore[k] else 0) + SamplesSum(data[..j], k)
    {
      var item := data[j];
      var k := item.date;
      SamplesSnoc(data, j);
      DistinctSnoc(read, k);
      if k in m {
        m := m[k := m[k] + item.confirmed];
      } else {
        assert k !in DatesOf(data[..j]);
        SamplesSumAbsent(data[..j], k);
        m := m[k := item.confirmed];
        keys := keys + [k];
      }
      assert (seen + DatesOf(data[..j])) + [k] == seen + (DatesOf(data[..j]) + [k]);
      read := read + [k];
    }
    assert data[..|data|] == data;
  }

  /** Reading one more row: its dates join the dates read, and its sums
      join the sums. */
  lemma RowsSnoc(rows: seq<RawRow>, i: nat)
    requires i < |rows|
    ensures AllDates(rows[..i + 1]) == AllDates(rows[..i]) + DatesOf(rows[i].data)
    ensures forall k :: RowsSum(rows[..i + 1], k) == RowsSum(rows[..i], k) + SamplesSum(rows[i].data, k)
  {
    assert rows[..i + 1][..i] == rows[..i];
  }

  /** The two nested loops that fill the dictionary `m` keyed by date.
      `keys` is the order in which dates first appear (the order in which
      the dictionary's keys come out). */
  method SumByDate(rows: seq<RawRow>) returns (m: map<int, int>, keys: seq<int>)
    ensures m == SumMap(rows)
    ensures keys == Seqs.Distinct(AllDates(rows))
  {
    m := map[];
    keys := [];
    for i := 0 to |rows|
      invariant keys == Seqs.Distinct(AllDates(rows[..i]))
      invariant m == SumMap(rows[..i])
    {
      ghost var seen := AllDates(rows[..i]);
      RowsSnoc(rows, i);
      m, keys := AddRow(m, keys, rows[i].data, seen, SumMap(rows[..i]));
      forall k | k in m
        ensures m[k] == RowsSum(rows[..i + 1], k)
      {
        if k !in seen {
          RowsSumAbsent(rows[..i], k);
        }
      }
      assert m == SumMap(rows[..i + 1]);
    }
    assert rows[..|rows|] == rows;
  }

  function Id(x: int): int { x }

  /** The dates of a country, each once, ascending (`Object.keys(m).sort()`). */
  function CountryKeys(rows: seq<RawRow>): seq<int> {
    Seqs.SortBy(Seqs.Distinct(AllDates(rows)), Id)
  }

  /** The sorted keys are exactly the dates that occur, each a key of the
      dictionary of sums. */
  lemma CountryKeysMembers(rows: seq<RawRow>)
    ensures forall k :: k in CountryKeys(rows) <==> k in AllDates(rows)
    ensures forall i :: 0 <= i < |CountryKeys(rows)| ==> CountryKeys(rows)[i] in SumMap(rows)
  {
    var keys := CountryKeys(rows);
    forall i | 0 <= i < |keys| ensures keys[i] in SumMap(rows) {
      assert keys[i] in keys;
    }
  }

  /** The points `keys.map(...)` builds from the `days` and `delta`
      dictionaries: day is the date's position among all the country's
      dates, and delta is 0 for the first date and otherwise the sum at this
      date minus the sum at the date before. */
  function Indexed(keys: seq<int>, m: map<int, int>, country: string): seq<Point>
    requires forall i :: 0 <= i < |keys| ==> keys[i] in m
  {
    seq(|keys|, i requires 0 <= i < |keys| =>
      Point(keys[i], m[keys[i]], i, Some(if i == 0 then 0 else m[keys[i]] - m[keys[i - 1]]), country))
  }

  /** The filter `it => it.confirmed > 0`. */
  predicate IsPositive(p: Point) { p.confirmed > 0 }

  /** The index loop that fills the `days` and `delta` dictionaries, then
      `keys.map(...).filter(...)`. */
  method CountryPoints(country: string, keys: seq<int>, m: map<int, int>) returns (pts: seq<Point>)
    requires Seqs.NoDups(keys)
    requires forall i :: 0 <= i < |keys| ==> keys[i] in m
    ensures pts == Seqs.Filter(Indexed(keys, m, country), IsPositive)
  {
    var days: map<int, int> := map[];
    var delta: map<int, int> := map[];
    for d := 0 to |keys|
      invariant forall j :: 0 <= j < d ==> keys[j] in days && days[keys[j]] == j
      invariant forall j :: 0 <= j < d ==>
        keys[j] in delta && delta[keys[j]] == if j == 0 then 0 else m[keys[j]] - m[keys[j - 1]]
    {
      assert forall j :: 0 <= j < d ==> keys[j] != keys[d];
      days := days[keys[d] := d];
      delta := delta[keys[d] := 0];
      if d > 0 {
        delta := delta[keys[d] := m[keys[d]] - m[keys[d - 1]]];
      }
    }
    var all := seq(|keys|, i requires 0 <= i < |keys| =>
      Point(keys[i], m[keys[i]], days[keys[i]], Some(delta[keys[i]]), country));
    assert all == Indexed(keys, m, country) by {
      var ind := Indexed(keys, m, country);
      forall i | 0 <= i < |keys| ensures all[i] == ind[i] {
        assert days[keys[i]] == i;
      }
    }
    pts := Seqs.Filter(all, IsPositive);
  }

  /** The series of one country, before threshold filtering. */
  function CountrySeries(rows: seq<RawRow>, country: string): Series {
    var sel := Seqs.Filter(rows, InCountry(country));
    CountryKeysMembers(sel);
    Series(country, Seqs.Filter(Indexed(CountryKeys(sel), SumMap(sel), country), IsPositive), true)
  }

  /** The body of the loop over countries: sum the country's rows by date,
      sort the dates, build the points. */
  method BuildCountrySeries(rows: seq<RawRow>, country: string) returns (s: Series)
    ensures s == CountrySeries(rows, country)
  {
    var sel := Seqs.Filter(rows, InCountry(country));
    var m, seen := SumByDate(sel);
    var keys := Seqs.SortBy(seen, Id);
    Seqs.SortByNoDups(seen, Id);
    var pts := CountryPoints(country, keys, m);
    s := Series(country, pts, true);
  }

  /** The country of each row, in row order. */
  function CountriesOf(rows: seq<RawRow>): seq<string> {
    seq(|rows|, i requires 0 <= i < |rows| => rows[i].country)
  }

  /** One series per country, in the order countries first appear, before
      threshold filtering. */
  function CountriesAll(rows: seq<RawRow>): seq<Series> {
    var cs := Seqs.Distinct(CountriesOf(rows));
    seq(|cs|, i requires 0 <= i < |cs| => CountrySeries(rows, cs[i]))
  }

  /** Dates strictly ascending. */
  predicate IncreasingDates(s: seq<Point>) {
    forall i, j :: 0 <= i < j < |s| ==> s[i].date < s[j].date
  }

  /** A country's dates come out strictly ascending. */
  lemma CountryKeysIncreasing(rows: seq<RawRow>)
    ensures var keys := CountryKeys(rows);
      forall i, j :: 0 <= i < j < |keys| ==> keys[i] < keys[j]
  {
    var keys := CountryKeys(rows);
    Seqs.SortByNoDups(Seqs.Distinct(AllDates(rows)), Id);
    forall i, j | 0 <= i < j < |keys| ensures keys[i] < keys[j] {
      assert Id(keys[i]) <= Id(keys[j]);
    }
  }

  /** Keeping only some points keeps their dates ascending. */
  lemma FilterKeepsIncreasingDates(s: seq<Point>, p: Point -> bool)
    requires IncreasingDates(s)
    ensures IncreasingDates(Seqs.Filter(s, p))
  {
    Seqs.PositionsSelect(s, p);
    Seqs.PositionsIncreasing(s, p);
    var pos := Seqs.Positions(s, p);
    var r := Seqs.Filter(s, p);
    forall i, j | 0 <= i < j < |r| ensures r[i].date < r[j].date {
      assert r[i] == s[pos[i]] && r[j] == s[pos[j]] && pos[i] < pos[j];
    }
  }

  /** Every point of a country's series is labelled with the country, has
      a positive count, and that count is the sum over all the country's
      rows of their counts at the point's date. */
  lemma CountryPointSums(rows: seq<RawRow>, country: string)
    ensures var sel := Seqs.Filter(rows, InCountry(country));
      forall p :: p in CountrySeries(rows, country).data ==>
        && p.location == country
        && p.confirmed > 0
        && p.date in AllDates(sel)
        && p.confirmed == RowsSum(sel, p.date)
  {
    var sel := Seqs.Filter(rows, InCountry(country));
    var keys := CountryKeys(sel);
    var m := SumMap(sel);
    CountryKeysMembers(sel);
    IndexedPoints(keys, m, country);
    assert forall k :: k in keys ==> k in AllDates(sel) && m[k] == RowsSum(sel, k);
  }

  /** The points kept by the positive filter carry the country, a positive
      count, and the dictionary's value at one of the keys. */
  lemma IndexedPoints(keys: seq<int>, m: map<int, int>, country: string)
    requires forall i :: 0 <= i < |keys| ==> keys[i] in m
    ensures forall p :: p in Seqs.Filter(Indexed(keys, m, country), IsPositive) ==>
      p.location == country && p.confirmed > 0 && p.date in keys && p.date in m && p.confirmed == m[p.date]
  {
    var all := Indexed(keys, m, country);
    forall p | p in Seqs.Filter(all, IsPositive)
      ensures p.location == country && p.confirmed > 0 && p.date in keys && p.date in m && p.confirmed == m[p.date]
    {
      assert p in all && IsPositive(p);
      var i :| 0 <= i < |all| && all[i] == p;
    }
  }

  /** A date has a point in the country's series exactly when some row of
      the country has that date and the summed count there is positive. */
  lemma CountryDatesExact(rows: seq<RawRow>, country: string, k: int)
    ensures var sel := Seqs.Filter(rows, InCountry(country));
      (exists p :: p in CountrySeries(rows, country).data && p.date == k)
        <==> k in AllDates(sel) && RowsSum(sel, k) > 0
  {
    var sel := Seqs.Filter(rows, InCountry(country));
    var keys := CountryKeys(sel);
    CountryKeysMembers(sel);
    var all := Indexed(keys, SumMap(sel), country);
    CountryPointSums(rows, country);
    if k in AllDates(sel) && RowsSum(sel, k) > 0 {
      var i :| 0 <= i < |keys| && keys[i] == k;
      assert all[i] in all && IsPositive(all[i]);
    }
  }

  /** The dates of a country's series are strictly ascending. */
  lemma CountryDatesIncreasing(rows: seq<RawRow>, country: string)
    ensures IncreasingDates(CountrySeries(rows, country).data)
  {
    var sel := Seqs.Filter(rows, InCountry(country));
    CountryKeysMembers(sel);
    CountryKeysIncreasing(sel);
    var all := Indexed(CountryKeys(sel), SumMap(sel), country);
    assert IncreasingDates(all);
    FilterKeepsIncreasingDates(all, IsPositive);
  }

  /** With strictly ascending keys, the point at position `i` has delta 0
      when its key is the smallest, and otherwise the difference to the
      key immediately below it. */
  lemma IndexedDelta(keys: seq<int>, m: map<int, int>, country: string, i: nat)
    requires forall i :: 0 <= i < |keys| ==> keys[i] in m
    requires forall a, b :: 0 <= a < b < |keys| ==> keys[a] < keys[b]
    requires i < |keys|
    ensures var p := Indexed(keys, m, country)[i];
      || (i == 0 && p.delta == Some(0) && forall q :: q in keys ==> p.date <= q)
      || (&& i > 0 && keys[i - 1] < p.date
          && (forall r :: r in keys && keys[i - 1] < r ==> p.date <= r)
          && p.delta == Some(m[p.date] - m[keys[i - 1]]))
  {
    if i == 0 {
      forall q | q in keys ensures keys[0] <= q {
        var j :| 0 <= j < |keys| && keys[j] == q;
      }
    } else {
      forall r | r in keys && keys[i - 1] < r ensures keys[i] <= r {
        var j :| 0 <= j < |keys| && keys[j] == r;
      }
    }
  }

  /** The delta of `p` is taken against the previous date among `dates`:
      0 when `p` has the earliest date, otherwise the sum at `p`'s date
      minus the sum at the latest earlier date. */
  ghost predicate DeltaAgainstPrevious(dates: seq<int>, sums: map<int, int>, p: Point) {
    || (p.delta == Some(0) && forall q :: q in dates ==> p.date <= q)
    || exists q :: && q in dates && q < p.date
                   && (forall r :: r in dates && q < r ==> p.date <= r)
                   && p.date in sums && q in sums
                   && p.delta == Some(sums[p.date] - sums[q])
  }

  /** The delta of each point is taken against the country's previous date
      among ALL its dates, including dates whose sum was not positive and
      which are therefore missing from the series. */
  lemma CountryDelta(rows: seq<RawRow>, country: string, p: Point)
    requires p in CountrySeries(rows, country).data
    ensures var sel := Seqs.Filter(rows, InCountry(country));
      DeltaAgainstPrevious(AllDates(sel), SumMap(sel), p)
  {
    var sel := Seqs.Filter(rows, InCountry(country));
    var i := CountryPointIndex(rows, country, p);
    CountryKeysMembers(sel);
    CountryKeysIncreasing(sel);
    PredecessorDelta(CountryKeys(sel), SumMap(sel), AllDates(sel), country, i);
  }

  /** Where a point of a country's series comes from: the entry at some
      position of the country's ascending dates. */
  lemma CountryPointIndex(rows: seq<RawRow>, country: string, p: Point) returns (i: nat)
    requires p in CountrySeries(rows, country).data
    ensures var sel := Seqs.Filter(rows, InCountry(country));
      i < |CountryKeys(sel)| && p == Indexed(CountryKeys(sel), SumMap(sel), country)[i]
  {
    var sel := Seqs.Filter(rows, InCountry(country));
    CountryKeysMembers(sel);
    var all := Indexed(CountryKeys(sel), SumMap(sel), country);
    assert p in all;
    i :| 0 <= i < |all| && all[i] == p;
  }

  /** The delta property for the entry at position `i` of strictly
      ascending keys that are exactly `dates`. */
  lemma PredecessorDelta(keys: seq<int>, m: map<int, int>, dates: seq<int>, country: string, i: nat)
    requires forall j :: 0 <= j < |keys| ==> keys[j] in m
    requires forall a, b :: 0 <= a < b < |keys| ==> keys[a] < keys[b]
    requires forall k :: k in keys <==> k in dates
    requires i < |keys|
    ensures DeltaAgainstPrevious(dates, m, Indexed(keys, m, country)[i])
  {
    var p := Indexed(keys, m, country)[i];
    IndexedDelta(keys, m, country, i);
    if i > 0 {
      var q := keys[i - 1];
      assert q in keys;
      assert q in dates && q < p.date && p.date in m && q in m;
    }
  }

  /** Before the positive filter, the first delta is 0 and every later
      delta is the difference to the previous date's sum, so the deltas
      give the sums back. */
  lemma IndexedDeltas(keys: seq<int>, m: map<int, int>, country: string)
    requires forall i :: 0 <= i < |keys| ==> keys[i] in m
    ensures var all := Indexed(keys, m, country);
      && (forall i :: 0 <= i < |all| ==> all[i].day == i)
      && ConsecutiveDeltas(all) && (all != [] ==> all[0].delta == Some(0))
  {
  }

  /** Every count of a country's series is positive, so filtering it at
      threshold 0 keeps every point, in order. */
  lemma CountryRefilterAtZero(rows: seq<RawRow>, country: string)
    ensures var pts := CountrySeries(rows, country).data;
      |ThresholdFilter.KeptPoints(pts, 0)| == |pts| && SamplesOf(ThresholdFilter.KeptPoints(pts, 0)) == SamplesOf(pts)
  {
    CountryPointSums(rows, country);
    ThresholdFilter.KeptPointsAllAbove(CountrySeries(rows, country).data, 0);
  }

  /** One series per distinct country: no country twice, every series is
      a country some row names, and every country a row names has a series. */
  lemma CountriesAllOnePerCountry(rows: seq<RawRow>)
    ensures var all := CountriesAll(rows);
      && (forall i, j :: 0 <= i < j < |all| ==> all[i].location != all[j].location)
      && (forall s :: s in all ==> exists r :: r in rows && r.country == s.location)
      && (forall r :: r in rows ==> exists s :: s in all && s.location == r.country)
  {
    var names := CountriesOf(rows);
    var cs := Seqs.Distinct(names);
    var all := CountriesAll(rows);
    assert forall i :: 0 <= i < |all| ==> all[i].location == cs[i];
    OneSeriesPerName(all, cs, names);
    CountriesOfMembers(rows);
  }

  /** Series labelled by a duplicate-free list of the names: no name
      twice, every series a name, every name a series. */
  lemma OneSeriesPerName(all: seq<Series>, cs: seq<string>, names: seq<string>)
    requires |all| == |cs| && forall i :: 0 <= i < |all| ==> all[i].location == cs[i]
    requires Seqs.NoDups(cs) && forall c :: c in cs <==> c in names
    ensures forall i, j :: 0 <= i < j < |all| ==> all[i].location != all[j].location
    ensures forall s :: s in all ==> s.location in names
    ensures forall c :: c in names ==> exists s :: s in all && s.location == c
  {
    forall s | s in all ensures s.location in names {
      var i :| 0 <= i < |all| && all[i] == s;
      assert cs[i] in cs;
    }
    forall c | c in names ensures exists s :: s in all && s.location == c {
      var i :| 0 <= i < |cs| && cs[i] == c;
      assert all[i] in all;
    }
  }

  /** A name is among the rows' countries exactly when some row has it. */
  lemma CountriesOfMembers(rows: seq<RawRow>)
    ensures forall c :: c in CountriesOf(rows) ==> exists r :: r in rows && r.country == c
    ensures forall r :: r in rows ==> r.country in CountriesOf(rows)
  {
    var names := CountriesOf(rows);
    forall c | c in names ensures exists r :: r in rows && r.country == c {
      var i :| 0 <= i < |names| && names[i] == c;
      assert rows[i] in rows;
    }
    forall r | r in rows ensures r.country in names {
      var i :| 0 <= i < |rows| && rows[i] == r;
      assert names[i] == r.country;
    }
  }
}
