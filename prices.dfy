/** Hourly price series as the tracker receives them: one closing price per timestamp. */
module Prices {

  /** One row of a series: the kline's open time (milliseconds since the epoch) and its close price. */
  datatype PricePoint = PricePoint(time: int, price: real)

  /** A series in index order, as a pandas frame indexed by timestamp. */
  type Series = seq<PricePoint>

  /** The timestamp index of a series. */
  function Times(s: Series): (ts: seq<int>)
    ensures |ts| == |s|
    ensures forall i :: 0 <= i < |s| ==> ts[i] == s[i].time
  {
    seq(|s|, i requires 0 <= i < |s| => s[i].time)
  }

  /** The closing prices of a series, in index order. */
  function PriceColumn(s: Series): (ps: seq<real>)
    ensures |ps| == |s|
    ensures forall i :: 0 <= i < |s| ==> ps[i] == s[i].price
  {
    seq(|s|, i requires 0 <= i < |s| => s[i].price)
  }

  /** Strictly increasing, so free of duplicates: the shape of a kline index. */
  predicate Increasing(ts: seq<int>)
  {
    forall i, j :: 0 <= i < j < |ts| ==> ts[i] < ts[j]
  }

  /** Every price in the list is strictly positive, as exchange close prices are. */
  predicate AllPositive(xs: seq<real>)
  {
    forall i :: 0 <= i < |xs| ==> xs[i] > 0.0
  }
}
