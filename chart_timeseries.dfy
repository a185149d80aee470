/**
 * The conversion of a dashboard timeseries into the points the chart draws.
 * A missing value (a `values` array shorter than `timestamps`) is `undefined`
 * in JavaScript and `None` here.
 */
module ChartTimeseries {
  import opened Wrappers

  /** `ITimeseries`: timestamps are the ISO strings the API returns. */
  datatype ChartTimeseries = ChartTimeseries(displayName: string, unitSymbol: Option<string>, timestamps: seq<string>, values: seq<real>)

  /** `ITimeseriesSample`. */
  datatype Sample = Sample(x: string, y: Option<real>)

  /** `toChartJsData`: one point per timestamp, in order, with the value of the same index. */
  function ToChartJsData(ts: ChartTimeseries): (r: seq<Sample>)
    ensures |r| == |ts.timestamps|
    ensures forall i :: 0 <= i < |r| ==> r[i].x == ts.timestamps[i]
    ensures forall i :: 0 <= i < |r| ==> (r[i].y.Some? <==> i < |ts.values|)
    ensures forall i :: 0 <= i < |r| && i < |ts.values| ==> r[i].y == Some(ts.values[i])
  {
    seq(|ts.timestamps|, i requires 0 <= i < |ts.timestamps| =>
      Sample(ts.timestamps[i], if i < |ts.values| then Some(ts.values[i]) else None))
  }

  function Xs(points: seq<Sample>): (xs: seq<string>)
    ensures |xs| == |points| && forall i :: 0 <= i < |points| ==> xs[i] == points[i].x
  {
    if points == [] then [] else [points[0].x] + Xs(points[1..])
  }

  /** The values of the points up to the first one without a value. */
  function Ys(points: seq<Sample>): seq<real>
  {
    if points == [] || points[0].y.None? then [] else [points[0].y.value] + Ys(points[1..])
  }

  /** When every timestamp has a value, the points give back both arrays. */
  lemma {:induction false} ToChartJsDataRoundTrip(ts: ChartTimeseries)
    requires |ts.values| == |ts.timestamps|
    ensures Xs(ToChartJsData(ts)) == ts.timestamps
    ensures Ys(ToChartJsData(ts)) == ts.values
  {
    YsAll(ToChartJsData(ts), ts.values);
  }

  lemma {:induction false} YsAll(points: seq<Sample>, values: seq<real>)
    requires |points| == |values| && forall i :: 0 <= i < |points| ==> points[i].y == Some(values[i])
    ensures Ys(points) == values
  {
    if points != [] {
      YsAll(points[1..], values[1..]);
      assert [values[0]] + values[1..] == values;
    }
  }

  /** With fewer values than timestamps, the points past the values have no value. */
  lemma ShortValuesExample()
    ensures ToChartJsData(ChartTimeseries("t", None, ["a", "b"], [1.0])) == [Sample("a", Some(1.0)), Sample("b", None)]
  {
  }
}
