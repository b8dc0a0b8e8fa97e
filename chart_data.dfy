/** The `Data` object a chart draws: its series and the location list beside
    it, sorted by the latest count, largest first, and the visibility
    switches that change which series are shown. */
module ChartData {
  import opened Records
  import Seqs

  /** One entry of the location list: `{location, maxConfirmed, start, show}`. */
  datatype LocationSummary = LocationSummary(location: string, maxConfirmed: int, start: int, show: bool)

  /** Every series has at least one point (what `filterLow` leaves behind). */
  predicate AllNonEmpty(data: seq<Series>) {
    forall i :: 0 <= i < |data| ==> data[i].data != []
  }

  /** The entry for one series: its last count, its first date, and shown
      unless a set of visible locations is given that leaves it out. */
  function Summary(item: Series, visible: Option<set<string>>): LocationSummary
    requires item.data != []
  {
    LocationSummary(item.location, item.data[|item.data| - 1].confirmed, item.data[0].date,
                    visible.None? || item.location in visible.value)
  }

  function Summaries(data: seq<Series>, visible: Option<set<string>>): seq<LocationSummary>
    requires AllNonEmpty(data)
  {
    seq(|data|, i requires 0 <= i < |data| => Summary(data[i], visible))
  }

  function MaxConfirmed(e: LocationSummary): int { e.maxConfirmed }

  /** `getLocationList`: the entries sorted by `maxConfirmed` ascending, then
      reversed. */
  function LocationList(data: seq<Series>, visible: Option<set<string>>): seq<LocationSummary>
    requires AllNonEmpty(data)
  {
    Seqs.Reverse(Seqs.SortBy(Summaries(data, visible), MaxConfirmed))
  }

  /** The location list holds one entry per series, a permutation of the
      per-series entries, ordered by latest count from largest to smallest. */
  lemma LocationListOrdered(data: seq<Series>, visible: Option<set<string>>)
    requires AllNonEmpty(data)
    ensures var r := LocationList(data, visible);
      && |r| == |data|
      && multiset(r) == multiset(Summaries(data, visible))
      && forall i, j :: 0 <= i < j < |r| ==> r[i].maxConfirmed >= r[j].maxConfirmed
  {
    var sorted := Seqs.SortBy(Summaries(data, visible), MaxConfirmed);
    Seqs.ReverseMultiset(sorted);
    var r := Seqs.Reverse(sorted);
    forall i, j | 0 <= i < j < |r| ensures r[i].maxConfirmed >= r[j].maxConfirmed {
      assert MaxConfirmed(sorted[|sorted| - 1 - j]) <= MaxConfirmed(sorted[|sorted| - 1 - i]);
    }
  }

  /** Every entry belongs to a series and every series has its entry: same
      location, its last count as `maxConfirmed`, its first date as `start`,
      and shown unless a set of visible locations leaves it out. */
  lemma LocationListEntries(data: seq<Series>, visible: Option<set<string>>)
    requires AllNonEmpty(data)
    ensures forall e :: e in LocationList(data, visible) <==>
      exists i :: && 0 <= i < |data|
        && e.location == data[i].location
        && e.maxConfirmed == data[i].data[|data[i].data| - 1].confirmed
        && e.start == data[i].data[0].date
        && (e.show <==> visible.None? || data[i].location in visible.value)
  {
    var sums := Summaries(data, visible);
    var sorted := Seqs.SortBy(sums, MaxConfirmed);
    var r := Seqs.Reverse(sorted);
    Seqs.ReverseMultiset(sorted);
    forall e ensures e in r <==> e in sums {
      assert e in r <==> e in multiset(r);
      assert e in sums <==> e in multiset(sums);
    }
    forall e | e in sums ensures exists i :: 0 <= i < |data| && e == Summary(data[i], visible) {
      var i :| 0 <= i < |sums| && sums[i] == e;
    }
    forall i | 0 <= i < |data| ensures Summary(data[i], visible) in sums {
      assert sums[i] == Summary(data[i], visible);
    }
  }

  /** The predicate `d.show = locationSet !== undefined && locationSet.has(d.location)`. */
  predicate Listed(locations: Option<seq<string>>, location: string) {
    locations.Some? && location in locations.value
  }

  class Data {
    var data: seq<Series>
    var locationList: seq<LocationSummary>

    /** Entries and series agree on visibility: whatever holds a location
        has the same `show` in both lists. */
    ghost predicate InSync()
      reads this
    {
      && (forall i, j :: 0 <= i < |locationList| && 0 <= j < |data| && locationList[i].location == data[j].location ==>
            locationList[i].show == data[j].show)
      && (forall i, j :: 0 <= i < j < |data| && data[i].location == data[j].location ==> data[i].show == data[j].show)
    }

    /** `new Data(rawData)`: keeps the series and builds the location list,
        every entry shown. */
    constructor (rawData: seq<Series>)
      requires AllNonEmpty(rawData)
      ensures data == rawData
      ensures locationList == LocationList(rawData, None)
      ensures forall e :: e in locationList ==> e.show
      ensures (forall i :: 0 <= i < |rawData| ==> rawData[i].show) ==> InSync()
    {
      data := rawData;
      locationList := LocationList(rawData, None);
      LocationListEntries(rawData, None);
    }

    /** `this._locationList.forEach(setShow)` for a `setShow` that sets the
        entry's `show` from its location and its current `show`. */
    method ShowEntries(setShow: (string, bool) -> bool)
      modifies this
      ensures data == old(data)
      ensures |locationList| == |old(locationList)|
      ensures forall i :: 0 <= i < |locationList| ==>
        locationList[i] == old(locationList[i]).(show := setShow(old(locationList[i]).location, old(locationList[i]).show))
    {
      for n := 0 to |locationList|
        invariant data == old(data)
        invariant |locationList| == |old(locationList)|
        invariant forall i :: 0 <= i < n ==>
          locationList[i] == old(locationList[i]).(show := setShow(old(locationList[i]).location, old(locationList[i]).show))
        invariant forall i :: n <= i < |locationList| ==> locationList[i] == old(locationList[i])
      {
        var d := locationList[n];
        locationList := locationList[n := d.(show := setShow(d.location, d.show))];
      }
    }

    /** `this._data.forEach(setShow)`, the same update on the series. */
    method ShowSeries(setShow: (string, bool) -> bool)
      modifies this
      ensures locationList == old(locationList)
      ensures |data| == |old(data)|
      ensures forall i :: 0 <= i < |data| ==>
        data[i] == old(data[i]).(show := setShow(old(data[i]).location, old(data[i]).show))
    {
      for n := 0 to |data|
        invariant locationList == old(locationList)
        invariant |data| == |old(data)|
        invariant forall i :: 0 <= i < n ==>
          data[i] == old(data[i]).(show := setShow(old(data[i]).location, old(data[i]).show))
        invariant forall i :: n <= i < |data| ==> data[i] == old(data[i])
      {
        var d := data[n];
        data := data[n := d.(show := setShow(d.location, d.show))];
      }
    }

    /** Shows exactly the listed locations; with no list, hides everything. */
    method SetVisibleLocations(locations: Option<seq<string>>)
      modifies this
      ensures |locationList| == |old(locationList)| && |data| == |old(data)|
      ensures forall i :: 0 <= i < |locationList| ==>
        locationList[i] == old(locationList[i]).(show := Listed(locations, old(locationList[i]).location))
      ensures forall i :: 0 <= i < |data| ==>
        data[i] == old(data[i]).(show := Listed(locations, old(data[i]).location))
      ensures InSync()
    {
      var setShow := (location: string, show: bool) => Listed(locations, location);
      ShowEntries(setShow);
      ShowSeries(setShow);
    }

    /** Shows or hides every location. */
    method SetVisibilityForAll(show: bool)
      modifies this
      ensures |locationList| == |old(locationList)| && |data| == |old(data)|
      ensures forall i :: 0 <= i < |locationList| ==> locationList[i] == old(locationList[i]).(show := show)
      ensures forall i :: 0 <= i < |data| ==> data[i] == old(data[i]).(show := show)
      ensures InSync()
    {
      var setShow := (location: string, s: bool) => show;
      ShowEntries(setShow);
      ShowSeries(setShow);
    }

    /** Shows or hides one location; every other entry and series keeps its
        visibility. */
    method SetVisibilityForLocation(location: string, show: bool)
      modifies this
      ensures |locationList| == |old(locationList)| && |data| == |old(data)|
      ensures forall i :: 0 <= i < |locationList| ==>
        locationList[i] == if old(locationList[i]).location == location
                           then old(locationList[i]).(show := show) else old(locationList[i])
      ensures forall i :: 0 <= i < |data| ==>
        data[i] == if old(data[i]).location == location then old(data[i]).(show := show) else old(data[i])
      ensures old(InSync()) ==> InSync()
    {
      var setShow := (loc: string, s: bool) => if loc == location then show else s;
      ShowEntries(setShow);
      ShowSeries(setShow);
    }
  }
}
