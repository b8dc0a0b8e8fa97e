/** Threshold filtering (`dataSet.filterLow`): a series is cut so that it
    starts at its first point whose count is strictly above the threshold,
    and its points are renumbered 0, 1, 2, ... from there. */
module ThresholdFilter {
  import opened Records

  /** The index of the first point whose count is strictly above `t`, or
      `|s|` when there is none. */
  function CrossingIndex(s: seq<Point>, t: int): (k: nat)
    ensures k <= |s|
    ensures forall j :: 0 <= j < k ==> s[j].confirmed <= t
    ensures k < |s| ==> s[k].confirmed > t
  {
    if |s| == 0 || s[0].confirmed > t then 0 else 1 + CrossingIndex(s[1..], t)
  }

  /** The same points with `day` set to their position. */
  function Renumbered(s: seq<Point>): seq<Point> {
    seq(|s|, i requires 0 <= i < |s| => s[i].(day := i))
  }

  /** The points one series keeps: from the first crossing on, renumbered. */
  function KeptPoints(s: seq<Point>, t: int): seq<Point> {
    Renumbered(s[CrossingIndex(s, t)..])
  }

  /** The series has at least one point to keep. */
  predicate Survives(item: Series) {
    KeptPoints(item.data, Threshold) != []
  }

  /** The series as `filterLow` leaves it when it survives. */
  function Trimmed(item: Series): Series {
    item.(data := KeptPoints(item.data, Threshold))
  }

  /** What `filterLow` leaves in a series' place: trimmed when it survives,
      untouched otherwise. */
  function Slot(item: Series): Series {
    if Survives(item) then Trimmed(item) else item
  }

  /** The whole array as `filterLow` leaves it, slot by slot. */
  function Slots(data: seq<Series>): (r: seq<Series>)
    ensures |r| == |data|
  {
    if |data| == 0 then [] else Slots(data[..|data| - 1]) + [Slot(data[|data| - 1])]
  }

  /** Each slot of `Slots` depends on the series in that slot alone. */
  lemma {:induction false} SlotsIndex(data: seq<Series>, i: nat)
    requires i < |data|
    ensures Slots(data)[i] == Slot(data[i])
  {
    if i < |data| - 1 {
      SlotsIndex(data[..|data| - 1], i);
    }
  }

  /** The list `filterLow` returns: the surviving series, trimmed, in order. */
  function FilterLowSpec(data: seq<Series>): seq<Series>
  {
    if |data| == 0 then []
    else
      var last := data[|data| - 1];
      FilterLowSpec(data[..|data| - 1]) + (if Survives(last) then [Trimmed(last)] else [])
  }

  /** One more series: the result grows by its trimmed form when it survives. */
  lemma FilterLowSpecSnoc(data: seq<Series>, n: nat)
    requires n < |data|
    ensures FilterLowSpec(data[..n + 1]) ==
      FilterLowSpec(data[..n]) + (if Survives(data[n]) then [Trimmed(data[n])] else [])
    ensures Slots(data[..n + 1]) == Slots(data[..n]) + [Slot(data[n])]
  {
    assert data[..n + 1][..n] == data[..n];
  }

  /** The points the inner loop returns decide the series' fate: it
      survives exactly when they are not empty, and then takes them as its
      points. */
  lemma SlotStep(item: Series, newTs: seq<Point>)
    requires newTs == KeptPoints(item.data, Threshold)
    ensures Survives(item) <==> |newTs| > 0
    ensures Slot(item) == if |newTs| > 0 then item.(data := newTs) else item
  {
  }

  /** The inner loop of `filterLow` over one series: skip points until one
      is above the threshold, then keep that one and every later one, each
      with `day` set to a running index. */
  method KeepFromCrossing(timeS: seq<Point>) returns (newTs: seq<Point>)
    ensures newTs == KeptPoints(timeS, Threshold)
  {
    ghost var k := CrossingIndex(timeS, Threshold);
    newTs := [];
    var keep := false;
    var idx := 0;
    for n := 0 to |timeS|
      invariant idx == |newTs|
      invariant !keep ==> newTs == [] && forall j :: 0 <= j < n ==> timeS[j].confirmed <= Threshold
      invariant keep ==> k < n && newTs == Renumbered(timeS[k..n])
    {
      var dataPoint := timeS[n];
      if keep || dataPoint.confirmed > Threshold {
        if !keep {
          assert k == n;
        }
        assert Renumbered(timeS[k..n + 1]) == Renumbered(timeS[k..n]) + [dataPoint.(day := idx)];
        newTs := newTs + [dataPoint.(day := idx)];
        idx := idx + 1;
        keep := true;
      }
    }
    if !keep {
      assert k == |timeS|;
    }
  }

  /** What is kept is exactly the suffix from the first strict crossing of
      `t`: every earlier point is at or below `t`, the first kept point is
      above it, later points are kept whatever their count, and days count
      0, 1, 2, ... in the original order. */
  lemma KeptPointsShape(s: seq<Point>, t: int)
    ensures var k := CrossingIndex(s, t);
      var r := KeptPoints(s, t);
      && |r| == |s| - k
      && (forall j :: 0 <= j < k ==> s[j].confirmed <= t)
      && (r != [] ==> r[0].confirmed > t)
      && (forall i :: 0 <= i < |r| ==> r[i] == s[k + i].(day := i) && r[i].day == i)
  {
  }

  /** Cutting does not recompute deltas: differences between kept
      neighbours stay consecutive differences, and the first kept point keeps
      its difference to the point before it that was cut off. */
  lemma KeptPointsDeltas(s: seq<Point>, t: int)
    requires ConsecutiveDeltas(s)
    ensures ConsecutiveDeltas(KeptPoints(s, t))
    ensures var k := CrossingIndex(s, t);
      0 < k < |s| ==> KeptPoints(s, t)[0].delta == Some(s[k].confirmed - s[k - 1].confirmed)
  {
    var k := CrossingIndex(s, t);
    var u := s[k..];
    var r := KeptPoints(s, t);
    assert r == Renumbered(u);
    forall i | 0 < i < |r| ensures r[i].delta == Some(r[i].confirmed - r[i - 1].confirmed) {
      assert r[i] == u[i].(day := i) && r[i - 1] == u[i - 1].(day := i - 1);
      assert u[i] == s[k + i] && u[i - 1] == s[k + i - 1];
    }
    if 0 < k < |s| {
      assert r[0] == u[0].(day := 0) && u[0] == s[k];
    }
  }

  /** A series keeps nothing exactly when none of its counts is above `t`. */
  lemma KeptPointsEmptyIff(s: seq<Point>, t: int)
    ensures KeptPoints(s, t) == [] <==> forall p :: p in s ==> p.confirmed <= t
  {
    var k := CrossingIndex(s, t);
    if k < |s| {
      assert s[k] in s;
    }
  }

  /** When every count is above `t`, nothing is dropped: the same points in
      the same order, only renumbered. */
  lemma {:induction false} KeptPointsAllAbove(s: seq<Point>, t: int)
    requires forall p :: p in s ==> p.confirmed > t
    ensures KeptPoints(s, t) == Renumbered(s)
    ensures |KeptPoints(s, t)| == |s| && SamplesOf(KeptPoints(s, t)) == SamplesOf(s)
  {
    if |s| > 0 {
      assert s[0] in s;
    }
    assert s[0..] == s;
  }

  /** Filtering a filtered series again changes nothing. */
  lemma {:induction false} KeptPointsIdempotent(s: seq<Point>, t: int)
    ensures KeptPoints(KeptPoints(s, t), t) == KeptPoints(s, t)
  {
    var r := KeptPoints(s, t);
    var k := CrossingIndex(s, t);
    if |r| > 0 {
      assert r[0].confirmed == s[k].confirmed > t;
      assert CrossingIndex(r, t) == 0;
      assert r[0..] == r;
      assert forall i :: 0 <= i < |r| ==> r[i].(day := i) == r[i];
    }
  }

  /** The series of ten, twelve, sixteen and twenty cases keeps the last two,
      numbered day 0 and day 1. */
  lemma KeptPointsExample(loc: string)
    ensures var s := [Point(1, 10, 0, None, loc), Point(2, 12, 0, None, loc),
                      Point(3, 16, 0, None, loc), Point(4, 20, 0, None, loc)];
      KeptPoints(s, Threshold) == [Point(3, 16, 0, None, loc), Point(4, 20, 1, None, loc)]
  {
    var s := [Point(1, 10, 0, None, loc), Point(2, 12, 0, None, loc),
              Point(3, 16, 0, None, loc), Point(4, 20, 0, None, loc)];
    assert CrossingIndex(s[2..], Threshold) == 0;
    assert CrossingIndex(s[1..], Threshold) == 1 by { assert s[1..][1..] == s[2..]; }
    assert CrossingIndex(s, Threshold) == 2;
  }

  /** A series survives exactly when one of its counts is above the threshold. */
  lemma SurvivesIff(item: Series)
    ensures Survives(item) <==> exists p :: p in item.data && p.confirmed > Threshold
  {
    KeptPointsEmptyIff(item.data, Threshold);
  }

  /** The returned list holds the trimmed form of exactly the surviving series. */
  lemma {:induction false} FilterLowSpecMembers(data: seq<Series>)
    ensures forall y :: y in FilterLowSpec(data) ==> exists x :: x in data && Survives(x) && y == Trimmed(x)
    ensures forall x :: x in data && Survives(x) ==> Trimmed(x) in FilterLowSpec(data)
  {
    if |data| > 0 {
      var init := data[..|data| - 1];
      FilterLowSpecMembers(init);
      assert data == init + [data[|data| - 1]];
      forall y | y in FilterLowSpec(init)
        ensures exists x :: x in data && Survives(x) && y == Trimmed(x)
      {
        var x :| x in init && Survives(x) && y == Trimmed(x);
        assert x in data;
      }
    }
  }

  /** Never more series out than in; every series returned has points and
      starts above the threshold. */
  lemma FilterLowSpecShape(data: seq<Series>)
    ensures |FilterLowSpec(data)| <= |data|
    ensures forall y :: y in FilterLowSpec(data) ==> y.data != [] && y.data[0].confirmed > Threshold
  {
    FilterLowSpecMembers(data);
    FilterLowSpecLength(data);
    forall y | y in FilterLowSpec(data) ensures y.data != [] && y.data[0].confirmed > Threshold {
      var x :| x in data && Survives(x) && y == Trimmed(x);
      KeptPointsShape(x.data, Threshold);
    }
  }

  lemma {:induction false} FilterLowSpecLength(data: seq<Series>)
    ensures |FilterLowSpec(data)| <= |data|
  {
    if |data| > 0 {
      FilterLowSpecLength(data[..|data| - 1]);
    }
  }

  /** Series are processed one at a time and in order: the result for a
      concatenation is the concatenation of the results. */
  lemma {:induction false} FilterLowSpecAppend(a: seq<Series>, b: seq<Series>)
    ensures FilterLowSpec(a + b) == FilterLowSpec(a) + FilterLowSpec(b)
  {
    if |b| > 0 {
      var init := b[..|b| - 1];
      FilterLowSpecAppend(a, init);
      assert (a + b)[..|a + b| - 1] == a + init;
    } else {
      assert a + b == a;
    }
  }

  /** Filtering the returned list again returns it unchanged. */
  lemma {:induction false} FilterLowSpecIdempotent(data: seq<Series>)
    ensures FilterLowSpec(FilterLowSpec(data)) == FilterLowSpec(data)
  {
    if |data| > 0 {
      var init := data[..|data| - 1];
      var last := data[|data| - 1];
      FilterLowSpecIdempotent(init);
      var tail := if Survives(last) then [Trimmed(last)] else [];
      FilterLowSpecAppend(FilterLowSpec(init), tail);
      if Survives(last) {
        KeptPointsIdempotent(last.data, Threshold);
        assert Trimmed(Trimmed(last)) == Trimmed(last);
        assert FilterLowSpec(tail) == FilterLowSpec([] + tail);
        assert [Trimmed(last)][..0] == [];
      } else {
        assert FilterLowSpec(tail) == [];
      }
    }
  }
}
