/** Per-region expansion (`dataSet.aggregateStates`): one series per CSV
    row of a country, its points sorted by date, numbered by day, each
    after the first carrying the difference to the point before it. */
module States {
  import opened Records
  import Seqs
  import ThresholdFilter

  /** The points of one region after the `forEach` that numbers them: day
      is the position, location is the region, and the delta is unset on
      the first point and the consecutive difference on every other. */
  function Numbered(s: seq<Sample>, location: string): seq<Point> {
    seq(|s|, i requires 0 <= i < |s| =>
      Point(s[i].date, s[i].confirmed, i,
            if i == 0 then None else Some(s[i].confirmed - s[i - 1].confirmed),
            location))
  }

  /** The `forEach` over one region's sorted points, with its running
      `currDay` and `prev` variables. */
  method NumberDays(data: seq<Sample>, location: string) returns (pts: seq<Point>)
    ensures pts == Numbered(data, location)
  {
    pts := [];
    var currDay := 0;
    var prev: Option<int> := None;
    for n := 0 to |data|
      invariant currDay == n == |pts|
      invariant prev == if n == 0 then None else Some(data[n - 1].confirmed)
      invariant pts == Numbered(data[..n], location)
    {
      var it := data[n];
      var delta: Option<int> := None;
      if prev.Some? {
        delta := Some(it.confirmed - prev.value);
      }
      assert Numbered(data[..n + 1], location) == Numbered(data[..n], location) + [Point(it.date, it.confirmed, currDay, delta, location)];
      pts := pts + [Point(it.date, it.confirmed, currDay, delta, location)];
      currDay := currDay + 1;
      prev := Some(it.confirmed);
    }
    assert data[..|data|] == data;
  }

  /** The series one CSV row becomes, before threshold filtering. */
  function StateSeries(row: RawRow): Series {
    Series(row.state, Numbered(Seqs.SortBy(row.data, SampleDate), row.state), true)
  }

  /** The body of the `forEach` over one region: sort its points by date,
      then number them. */
  method BuildStateSeries(row: RawRow) returns (s: Series)
    ensures s == StateSeries(row)
  {
    var sorted := Seqs.SortBy(row.data, SampleDate);
    var pts := NumberDays(sorted, row.state);
    s := Series(row.state, pts, true);
  }

  /** The series of every row of `country`, in row order, before threshold filtering. */
  function StatesOf(rows: seq<RawRow>, country: string): seq<Series> {
    var sel := Seqs.Filter(rows, InCountry(country));
    seq(|sel|, i requires 0 <= i < |sel| => StateSeries(sel[i]))
  }

  /** Numbering forgets nothing: the dates and counts come back unchanged. */
  lemma NumberedRoundTrip(s: seq<Sample>, location: string)
    ensures SamplesOf(Numbered(s, location)) == s
  {
  }

  /** Numbering labels every point with its position and the region, leaves
      the first delta unset and gives every later point the difference to
      the point before it. */
  lemma NumberedShape(s: seq<Sample>, location: string)
    ensures var pts := Numbered(s, location);
      && (forall i :: 0 <= i < |pts| ==> pts[i].day == i && pts[i].location == location)
      && (pts != [] ==> pts[0].delta == None)
      && ConsecutiveDeltas(pts)
  {
  }

  /** A region at ten and then twenty cases: after the cut at the
      threshold its first point is the one with twenty, still carrying the
      difference of ten to the point that was cut off. */
  lemma FirstKeptDeltaExample(location: string)
    ensures var pts := ThresholdFilter.KeptPoints(Numbered([Sample(1, 10), Sample(2, 20)], location), Threshold);
      |pts| == 1 && pts[0].day == 0 && pts[0].confirmed == 20 && pts[0].delta == Some(10)
  {
    var s := Numbered([Sample(1, 10), Sample(2, 20)], location);
    assert ThresholdFilter.CrossingIndex(s[1..], Threshold) == 0;
    assert ThresholdFilter.CrossingIndex(s, Threshold) == 1;
  }

  /** One region's series: its points are the row's points sorted by date
      (a permutation of them), numbered 0, 1, 2, ..., all labelled with the
      region; the first delta is unset and each later one is the difference
      to the previous point. */
  lemma StateSeriesShape(row: RawRow)
    ensures StateSeries(row).location == row.state && StateSeries(row).show
    ensures var pts := StateSeries(row).data;
      && |pts| == |row.data|
      && multiset(SamplesOf(pts)) == multiset(row.data)
      && (forall i, j :: 0 <= i < j < |pts| ==> pts[i].date <= pts[j].date)
      && (forall i :: 0 <= i < |pts| ==> pts[i].day == i && pts[i].location == row.state)
      && (pts != [] ==> pts[0].delta == None)
      && ConsecutiveDeltas(pts)
  {
    var sorted := Seqs.SortBy(row.data, SampleDate);
    NumberedRoundTrip(sorted, row.state);
    NumberedShape(sorted, row.state);
    var pts := Numbered(sorted, row.state);
    assert SamplesOf(pts) == sorted;
    forall i, j | 0 <= i < j < |pts| ensures pts[i].date <= pts[j].date {
      assert SampleDate(sorted[i]) <= SampleDate(sorted[j]);
    }
  }

  /** One series per row whose country is the argument, in row order,
      located at the row's province or state. */
  lemma {:induction false} StatesOfRows(rows: seq<RawRow>, country: string)
    ensures |StatesOf(rows, country)| == |Seqs.Filter(rows, InCountry(country))|
    ensures forall y :: y in StatesOf(rows, country) <==>
      exists r :: r in rows && r.country == country && y == StateSeries(r)
  {
    var sel := Seqs.Filter(rows, InCountry(country));
    var res := StatesOf(rows, country);
    forall y | y in res ensures exists r :: r in rows && r.country == country && y == StateSeries(r) {
      var i :| 0 <= i < |res| && res[i] == y;
      assert sel[i] in sel;
    }
    forall r | r in rows && r.country == country ensures StateSeries(r) in res {
      assert r in sel;
      var i :| 0 <= i < |sel| && sel[i] == r;
      assert res[i] == StateSeries(r);
    }
  }

  /** Every region's series starts out shown. */
  lemma StatesShown(rows: seq<RawRow>, country: string)
    ensures forall i :: 0 <= i < |StatesOf(rows, country)| ==> StatesOf(rows, country)[i].show
  {
  }
}
