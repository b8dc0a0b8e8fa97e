/** The `dataSet` object: it keeps the parsed CSV rows, and builds from them
    the per-region series of one country or the per-country series, each
    cut at the threshold and wrapped in a chart `Data` object. */
module Pipeline {
  import opened Records
  import Seqs
  import opened ThresholdFilter
  import States
  import Countries
  import ChartData

  /** The filter of `init`: the row's last count is not zero. */
  predicate HasCases(r: RawRow) {
    |r.data| > 0 && r.data[|r.data| - 1].confirmed != 0
  }

  /** Every series that the filter returns has points, and keeps the
      visibility of the series it came from. */
  lemma {:induction false} FilterLowReady(data: seq<Series>)
    requires forall i :: 0 <= i < |data| ==> data[i].show
    ensures ChartData.AllNonEmpty(FilterLowSpec(data))
    ensures forall i :: 0 <= i < |FilterLowSpec(data)| ==> FilterLowSpec(data)[i].show
  {
    var r := FilterLowSpec(data);
    FilterLowSpecMembers(data);
    forall i | 0 <= i < |r| ensures r[i].data != [] && r[i].show {
      assert r[i] in r;
      var x :| x in data && Survives(x) && r[i] == Trimmed(x);
      var j :| 0 <= j < |data| && data[j] == x;
    }
  }

  class DataSet {
    /** `this._rawData`; before `init` it holds no rows. */
    var rawData: seq<RawRow>

    constructor ()
      ensures rawData == []
    {
      rawData := [];
    }

    /** `init`: keeps the rows whose last count is not zero, in order. A row
        without date columns makes the filter read past the end of its
        points, which throws; the rows held before are then kept. */
    method Init(data: seq<RawRow>) returns (ok: bool)
      modifies this
      ensures ok <==> forall i :: 0 <= i < |data| ==> data[i].data != []
      ensures ok ==> rawData == Seqs.Filter(data, HasCases)
      ensures !ok ==> rawData == old(rawData)
    {
      if exists i :: 0 <= i < |data| && data[i].data == [] {
        ok := false;
      } else {
        rawData := Seqs.Filter(data, HasCases);
        ok := true;
      }
    }

    /** `filterLow`: each series is cut in place at its first point above the
        threshold and renumbered; the series left with points are returned
        in order, and the others are left untouched. */
    static method FilterLow(data: array<Series>) returns (result: seq<Series>)
      modifies data
      ensures result == FilterLowSpec(old(data[..]))
      ensures forall i :: 0 <= i < data.Length ==> data[i] == Slot(old(data[i]))
    {
      ghost var s := data[..];
      result := [];
      for n := 0 to data.Length
        invariant result == FilterLowSpec(s[..n])
        invariant data[..n] == Slots(s[..n])
        invariant forall i :: n <= i < data.Length ==> data[i] == s[i]
      {
        var item := data[n];
        assert item == s[n];
        var newTs := KeepFromCrossing(item.data);
        FilterLowSpecSnoc(s, n);
        SlotStep(item, newTs);
        if |newTs| > 0 {
          data[n] := item.(data := newTs);
          result := result + [data[n]];
        }
        assert data[..n + 1] == data[..n] + [data[n]];
      }
      assert s[..data.Length] == s;
      forall i | 0 <= i < data.Length ensures data[i] == Slot(s[i]) {
        SlotsIndex(s, i);
      }
    }

    /** The loops of `aggregateStates` that build one series per row of
        `country` into a new array. */
    static method CollectStates(rows: seq<RawRow>, country: string) returns (result: array<Series>)
      ensures fresh(result)
      ensures result[..] == States.StatesOf(rows, country)
    {
      var sel := Seqs.Filter(rows, InCountry(country));
      ghost var all := States.StatesOf(rows, country);
      assert |all| == |sel|;
      result := new Series[|sel|];
      for n := 0 to |sel|
        invariant result[..n] == all[..n]
      {
        var s := States.BuildStateSeries(sel[n]);
        assert s == all[n];
        result[n] := s;
        assert result[..n + 1] == result[..n] + [s];
        assert all[..n + 1] == all[..n] + [all[n]];
      }
      assert result[..] == result[..|sel|];
    }

    /** `aggregateStates`: one series per row of `country`, its points sorted
        by date and numbered, cut at the threshold, as a new `Data` whose
        every location is shown. */
    method AggregateStates(country: string) returns (d: ChartData.Data)
      ensures fresh(d)
      ensures d.data == FilterLowSpec(States.StatesOf(rawData, country))
      ensures ChartData.AllNonEmpty(d.data)
      ensures d.locationList == ChartData.LocationList(d.data, None)
      ensures d.InSync()
    {
      ghost var all := States.StatesOf(rawData, country);
      var result := CollectStates(rawData, country);
      var filtered := FilterLow(result);
      States.StatesShown(rawData, country);
      FilterLowReady(all);
      d := new ChartData.Data(filtered);
    }

    /** The loop of `aggregateCountries` that builds one series per country
        into a new array. */
    static method CollectCountries(rows: seq<RawRow>) returns (result: array<Series>)
      ensures fresh(result)
      ensures result[..] == Countries.CountriesAll(rows)
    {
      var locationList := Seqs.Distinct(Countries.CountriesOf(rows));
      ghost var all := Countries.CountriesAll(rows);
      assert |all| == |locationList|;
      result := new Series[|locationList|];
      for n := 0 to |locationList|
        invariant result[..n] == all[..n]
      {
        var s := Countries.BuildCountrySeries(rows, locationList[n]);
        assert s == all[n];
        result[n] := s;
        assert result[..n + 1] == result[..n] + [s];
        assert all[..n + 1] == all[..n] + [all[n]];
      }
      assert result[..] == result[..|locationList|];
    }

    /** `aggregateCountries`: one series per country, in the order countries
        first appear, each point the sum over the country's rows at one
        date, cut at the threshold, as a new `Data` whose every location is
        shown. */
    method AggregateCountries() returns (d: ChartData.Data)
      ensures fresh(d)
      ensures d.data == FilterLowSpec(Countries.CountriesAll(rawData))
      ensures ChartData.AllNonEmpty(d.data)
      ensures d.locationList == ChartData.LocationList(d.data, None)
      ensures d.InSync()
    {
      ghost var all := Countries.CountriesAll(rawData);
      var result := CollectCountries(rawData);
      assert forall i :: 0 <= i < |all| ==> all[i].show;
      var filtered := FilterLow(result);
      FilterLowReady(all);
      d := new ChartData.Data(filtered);
    }
  }
}
