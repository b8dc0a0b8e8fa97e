/** The records the chart's data set is made of. A date is an integer
    timestamp (milliseconds since the epoch, as `Date.getTime()` gives it);
    a count is an integer. */
module Records {

  /** A series starts at its first point whose count is strictly above this. */
  const Threshold: int := 15

  datatype Option<+T> = None | Some(value: T)

  /** One date column of a CSV row: `{date, confirmed}`. */
  datatype Sample = Sample(date: int, confirmed: int)

  /** One parsed CSV row: `Country/Region`, `Province/State` (the empty
      string when the cell is empty) and the date columns in column order. */
  datatype RawRow = RawRow(country: string, state: string, data: seq<Sample>)

  /** One point of a chart series. `delta` is `None` where the source leaves
      the property unset. */
  datatype Point = Point(date: int, confirmed: int, day: int, delta: Option<int>, location: string)

  /** One line of the chart: `{location, data, show}`. */
  datatype Series = Series(location: string, data: seq<Point>, show: bool)

  function SampleDate(s: Sample): int { s.date }

  /** The row filter `d => d.country === country`. */
  function InCountry(country: string): RawRow -> bool {
    (r: RawRow) => r.country == country
  }

  /** The date and count of each point, forgetting day, delta and location. */
  function SamplesOf(pts: seq<Point>): (r: seq<Sample>)
    ensures |r| == |pts|
  {
    seq(|pts|, i requires 0 <= i < |pts| => Sample(pts[i].date, pts[i].confirmed))
  }

  /** Every point after the first carries the difference between its count
      and the count of the point before it. */
  predicate ConsecutiveDeltas(pts: seq<Point>) {
    forall i :: 0 < i < |pts| ==> pts[i].delta == Some(pts[i].confirmed - pts[i - 1].confirmed)
  }

  function DeltaValue(p: Point): int {
    match p.delta
    case None => 0
    case Some(d) => d
  }

  /** The sum of the deltas, an unset delta counting as 0. */
  function DeltaSum(pts: seq<Point>): int {
    if |pts| == 0 then 0 else DeltaSum(pts[..|pts| - 1]) + DeltaValue(pts[|pts| - 1])
  }

  /** Deltas are the inverse of running sums: the first count plus the
      deltas up to a point give that point's count back. */
  lemma {:induction false} DeltasReconstruct(pts: seq<Point>, i: nat)
    requires ConsecutiveDeltas(pts) && i < |pts|
    ensures pts[i].confirmed == pts[0].confirmed + DeltaSum(pts[1..i + 1])
  {
    if i > 0 {
      DeltasReconstruct(pts, i - 1);
      assert pts[1..i + 1][..i - 1] == pts[1..i];
    }
  }
}
