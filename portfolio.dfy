/**
  The normalised portfolios drawn on the main chart: each asset's price over
  its first price, the equal-weight mix of the two, and the chart's y-range.
*/
module Portfolio {
  import opened Prices

  /** Every price of a column multiplied by one constant, as if quoted in another unit. */
  function Scale(xs: seq<real>, c: real): (ys: seq<real>)
    ensures |ys| == |xs|
    ensures forall i :: 0 <= i < |xs| ==> ys[i] == c * xs[i]
  {
    seq(|xs|, i requires 0 <= i < |xs| => c * xs[i])
  }

  /**
    `col / col.iloc[0]`: each price relative to the first. The result starts
    at exactly 1 and each entry times the first price gives back the price.
  */
  function Normalise(prices: seq<real>): (r: seq<real>)
    requires |prices| > 0 && prices[0] != 0.0
    ensures |r| == |prices| && r[0] == 1.0
    ensures forall i :: 0 <= i < |r| ==> r[i] * prices[0] == prices[i]
  {
    seq(|prices|, i requires 0 <= i < |prices| => prices[i] / prices[0])
  }

  /** Normalised values do not depend on the unit of the prices: scaling by c > 0 changes nothing. */
  lemma NormaliseIgnoresScale(prices: seq<real>, c: real)
    requires |prices| > 0 && prices[0] != 0.0 && c > 0.0
    ensures Scale(prices, c)[0] != 0.0
    ensures Normalise(Scale(prices, c)) == Normalise(prices)
  {
    var scaled := Scale(prices, c);
    var a, b := Normalise(scaled), Normalise(prices);
    forall i | 0 <= i < |prices|
      ensures a[i] == b[i]
    {
      assert a[i] * (c * prices[0]) == c * prices[i];
      assert c * (a[i] * prices[0]) == c * (b[i] * prices[0]);
      assert a[i] * prices[0] == b[i] * prices[0];
    }
  }

  /** Positive prices give positive normalised values. */
  lemma NormalisePositive(prices: seq<real>)
    requires |prices| > 0 && AllPositive(prices)
    ensures AllPositive(Normalise(prices))
  {
    var r := Normalise(prices);
    forall i | 0 <= i < |r|
      ensures r[i] > 0.0
    {
      assert r[i] * prices[0] == prices[i] > 0.0;
    }
  }

  /**
    `0.5 * btc + 0.5 * eth`: the equal-weight portfolio, at each timestamp
    the average of the two normalised values, lying between them.
  */
  function Mix(btc: seq<real>, eth: seq<real>): (r: seq<real>)
    requires |btc| == |eth|
    ensures |r| == |btc|
    ensures forall i :: 0 <= i < |r| ==> r[i] == (btc[i] + eth[i]) / 2.0
    ensures forall i :: 0 <= i < |r| ==> (btc[i] <= r[i] <= eth[i]) || (eth[i] <= r[i] <= btc[i])
  {
    seq(|btc|, i requires 0 <= i < |btc| => 0.5 * btc[i] + 0.5 * eth[i])
  }

  /** The mix of two normalised columns also starts at exactly 1. */
  lemma MixStartsAtOne(btc: seq<real>, eth: seq<real>)
    requires |btc| == |eth| && |btc| > 0 && btc[0] != 0.0 && eth[0] != 0.0
    ensures Mix(Normalise(btc), Normalise(eth))[0] == 1.0
  {
  }

  /** `col.min()`: the smallest value, which occurs in the column. */
  function MinOf(xs: seq<real>): (m: real)
    requires |xs| > 0
    ensures m in xs
    ensures forall i :: 0 <= i < |xs| ==> m <= xs[i]
  {
    if |xs| == 1 then xs[0]
    else
      var m := MinOf(xs[1..]);
      assert forall i :: 1 <= i < |xs| ==> xs[i] == xs[1..][i - 1];
      if xs[0] <= m then xs[0] else m
  }

  /** `col.max()`: the largest value, which occurs in the column. */
  function MaxOf(xs: seq<real>): (m: real)
    requires |xs| > 0
    ensures m in xs
    ensures forall i :: 0 <= i < |xs| ==> xs[i] <= m
  {
    if |xs| == 1 then xs[0]
    else
      var m := MaxOf(xs[1..]);
      assert forall i :: 1 <= i < |xs| ==> xs[i] == xs[1..][i - 1];
      if xs[0] >= m then xs[0] else m
  }

  function Min3(a: real, b: real, c: real): real
  {
    if a <= b && a <= c then a else if b <= c then b else c
  }

  function Max3(a: real, b: real, c: real): real
  {
    if a >= b && a >= c then a else if b >= c then b else c
  }

  /** The y-axis range of the portfolio chart. */
  datatype Bounds = Bounds(lo: real, hi: real)

  /**
    `portfolios.min().min() * 0.995` and `portfolios.max().max() * 1.005`: the
    extremes over all three curves, padded by 0.5 %. The padding is taken
    from an actual plotted value, and when every plotted value is positive
    each of them lies strictly inside the range.
  */
  function YRange(btc: seq<real>, eth: seq<real>, mix: seq<real>): (b: Bounds)
    requires |btc| > 0 && |eth| > 0 && |mix| > 0
    ensures exists x :: x in btc + eth + mix && b.lo == 0.995 * x
    ensures exists x :: x in btc + eth + mix && b.hi == 1.005 * x
    ensures forall x :: x in btc + eth + mix ==> b.lo <= 0.995 * x && 1.005 * x <= b.hi
    ensures AllPositive(btc + eth + mix) ==> forall x :: x in btc + eth + mix ==> b.lo < x < b.hi
  {
    var lo := Min3(MinOf(btc), MinOf(eth), MinOf(mix));
    var hi := Max3(MaxOf(btc), MaxOf(eth), MaxOf(mix));
    var all := btc + eth + mix;
    assert forall x :: x in all ==> x in btc || x in eth || x in mix;
    assert lo in all && hi in all;
    assert forall x :: x in all ==> lo <= x <= hi by {
      forall x | x in all
        ensures lo <= x <= hi
      {
        if x in btc {
          var k :| 0 <= k < |btc| && btc[k] == x;
        } else if x in eth {
          var k :| 0 <= k < |eth| && eth[k] == x;
        } else {
          var k :| 0 <= k < |mix| && mix[k] == x;
        }
      }
    }
    assert AllPositive(all) ==> lo > 0.0 by {
      if AllPositive(all) {
        var k :| 0 <= k < |all| && all[k] == lo;
      }
    }
    Bounds(lo * 0.995, hi * 1.005)
  }

  /** The mix of two positive columns is positive. */
  lemma MixPositive(btc: seq<real>, eth: seq<real>)
    requires |btc| == |eth| && AllPositive(btc) && AllPositive(eth)
    ensures AllPositive(Mix(btc, eth))
  {
  }

  lemma ConcatPositive(a: seq<real>, b: seq<real>, c: seq<real>)
    requires AllPositive(a) && AllPositive(b) && AllPositive(c)
    ensures AllPositive(a + b + c)
  {
    var all := a + b + c;
    forall k | 0 <= k < |all|
      ensures all[k] > 0.0
    {
      if k < |a| {
        assert all[k] == a[k];
      } else if k < |a| + |b| {
        assert all[k] == b[k - |a|];
      } else {
        assert all[k] == c[k - |a| - |b|];
      }
    }
  }

  /**
    For positive prices, the three portfolio curves are positive and every
    point of them lies strictly inside the chart's y-range.
  */
  lemma CurvesInsideRange(btcPrices: seq<real>, ethPrices: seq<real>)
    requires |btcPrices| == |ethPrices| > 0 && AllPositive(btcPrices) && AllPositive(ethPrices)
    ensures var btc, eth := Normalise(btcPrices), Normalise(ethPrices);
      var mix := Mix(btc, eth);
      AllPositive(btc + eth + mix) &&
      forall x :: x in btc + eth + mix ==> YRange(btc, eth, mix).lo < x < YRange(btc, eth, mix).hi
  {
    var btc, eth := Normalise(btcPrices), Normalise(ethPrices);
    NormalisePositive(btcPrices);
    NormalisePositive(ethPrices);
    MixPositive(btc, eth);
    ConcatPositive(btc, eth, Mix(btc, eth));
  }
}
