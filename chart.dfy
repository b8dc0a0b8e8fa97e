/** `chart.getExtent`: the overall least and greatest value of a key over
    several arrays of points, as the chart's axes use it. */
module Chart {

  /** What `getExtent` returns: `undefined` when it is given no arrays
      (NoArrays), the pair `[undefined, undefined]` when the arrays hold no
      values (NoValues), otherwise the pair `[lo, hi]`. */
  datatype Extent = NoArrays | NoValues | Range(lo: int, hi: int)

  function Min(a: int, b: int): int { if a <= b then a else b }
  function Max(a: int, b: int): int { if a <= b then b else a }

  /** `d3.extent` of two pairs put into one array: undefined entries are
      skipped, so a pair of undefined leaves the other pair as it is. */
  function Join(a: Extent, b: Extent): (e: Extent)
    requires !a.NoArrays? && !b.NoArrays?
    ensures !e.NoArrays?
    ensures e.NoValues? <==> a.NoValues? && b.NoValues?
    ensures e.Range? && a.Range? ==> e.lo <= a.lo && a.hi <= e.hi
    ensures e.Range? && b.Range? ==> e.lo <= b.lo && b.hi <= e.hi
    ensures e.Range? ==> (a.Range? && e.lo == a.lo) || (b.Range? && e.lo == b.lo)
    ensures e.Range? ==> (a.Range? && e.hi == a.hi) || (b.Range? && e.hi == b.hi)
  {
    match a
    case NoValues => b
    case Range(lo, hi) =>
      match b
      case NoValues => a
      case Range(lo2, hi2) => Range(Min(lo, lo2), Max(hi, hi2))
  }

  /** `d3.extent(values)`: the least and the greatest value, or a pair of
      undefined when there is no value. */
  function ExtentOf(values: seq<int>): (e: Extent)
    ensures !e.NoArrays?
    ensures e.NoValues? <==> |values| == 0
    ensures e.Range? ==> forall v :: v in values ==> e.lo <= v <= e.hi
    ensures e.Range? ==> e.lo in values && e.hi in values
  {
    if |values| == 0 then NoValues
    else
      assert values == [values[0]] + values[1..];
      Join(Range(values[0], values[0]), ExtentOf(values[1..]))
  }

  /** The loop of `getExtent`: each array's own extent is joined with the
      extent of the arrays before it. */
  method GetExtent<T>(arr: seq<seq<T>>, fn: T -> int) returns (result: Extent)
    ensures result.NoArrays? <==> |arr| == 0
    ensures result.NoValues? <==> |arr| > 0 && forall i :: 0 <= i < |arr| ==> |arr[i]| == 0
    ensures result.Range? ==>
      forall i, j :: 0 <= i < |arr| && 0 <= j < |arr[i]| ==> result.lo <= fn(arr[i][j]) <= result.hi
    ensures result.Range? ==>
      (exists i, j :: 0 <= i < |arr| && 0 <= j < |arr[i]| && fn(arr[i][j]) == result.lo) &&
      (exists i, j :: 0 <= i < |arr| && 0 <= j < |arr[i]| && fn(arr[i][j]) == result.hi)
  {
    result := NoArrays;
    for n := 0 to |arr|
      invariant result.NoArrays? <==> n == 0
      invariant result.NoValues? <==> n > 0 && forall i :: 0 <= i < n ==> |arr[i]| == 0
      invariant result.Range? ==>
        forall i, j :: 0 <= i < n && 0 <= j < |arr[i]| ==> result.lo <= fn(arr[i][j]) <= result.hi
      invariant result.Range? ==>
        (exists i, j :: 0 <= i < n && 0 <= j < |arr[i]| && fn(arr[i][j]) == result.lo) &&
        (exists i, j :: 0 <= i < n && 0 <= j < |arr[i]| && fn(arr[i][j]) == result.hi)
    {
      var item := arr[n];
      var values := seq(|item|, k requires 0 <= k < |item| => fn(item[k]));
      var tmp := ExtentOf(values);
      if tmp.Range? {
        var a :| 0 <= a < |item| && values[a] == tmp.lo;
        var b :| 0 <= b < |item| && values[b] == tmp.hi;
        assert fn(arr[n][a]) == tmp.lo && fn(arr[n][b]) == tmp.hi;
        forall j | 0 <= j < |item| ensures tmp.lo <= fn(arr[n][j]) <= tmp.hi {
          assert values[j] in values;
        }
      }
      if !result.NoArrays? {
        result := Join(tmp, result);
      } else {
        result := tmp;
      }
    }
  }
}
