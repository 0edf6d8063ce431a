/**
  The trend line drawn over each asset's price: pandas'
  `ewm(span=7, adjust=False).mean()`, the exponentially weighted mean with
  smoothing factor alpha = 2 / (span + 1), first output equal to the first
  price, and each later output alpha * price + (1 - alpha) * previous output.
*/
module Trend {
  import opened Portfolio

  /** The span of the dashboard's trend line (`ema_period`). */
  const EmaSpan: nat := 7

  /** The smoothing factor pandas derives from a span. */
  function Alpha(span: nat): (a: real)
    requires span >= 1
    ensures 0.0 < a <= 1.0
  {
    2.0 / (span as real + 1.0)
  }

  lemma AlphaOfEmaSpan()
    ensures Alpha(EmaSpan) == 0.25
  {
  }

  /** One step of the mean: the new price weighted by alpha, the previous output by 1 - alpha. */
  function Blend(alpha: real, price: real, previous: real): real
  {
    alpha * price + (1.0 - alpha) * previous
  }

  /** The weighted mean of a series, defined on its prefixes. */
  function Ewm(xs: seq<real>, alpha: real): (ys: seq<real>)
    ensures |ys| == |xs|
    ensures |xs| > 0 ==> ys[0] == xs[0]
    decreases |xs|
  {
    if |xs| <= 1 then xs
    else
      var prev := Ewm(xs[..|xs| - 1], alpha);
      prev + [Blend(alpha, xs[|xs| - 1], prev[|prev| - 1])]
  }

  /** Appending a price appends one output, computed from the previous output. */
  lemma EwmSnoc(xs: seq<real>, x: real, alpha: real)
    requires |xs| > 0
    ensures Ewm(xs + [x], alpha) == Ewm(xs, alpha) + [Blend(alpha, x, Ewm(xs, alpha)[|xs| - 1])]
  {
    var s := xs + [x];
    assert s[..|s| - 1] == xs && s[|s| - 1] == x;
  }

  /** The mean of a prefix is the prefix of the mean: later prices never change earlier outputs. */
  lemma {:induction false} EwmPrefix(xs: seq<real>, alpha: real, n: nat)
    requires n <= |xs|
    ensures Ewm(xs[..n], alpha) == Ewm(xs, alpha)[..n]
    decreases |xs|
  {
    if n < |xs| {
      var init := xs[..|xs| - 1];
      assert xs[..n] == init[..n];
      EwmPrefix(init, alpha, n);
      if |xs| > 1 {
        assert Ewm(xs, alpha)[..n] == Ewm(init, alpha)[..n];
      }
    } else {
      assert xs[..n] == xs;
    }
  }

  /** The recurrence `adjust=False` stands for, at every position after the first. */
  lemma EwmStep(xs: seq<real>, alpha: real, i: nat)
    requires 0 < i < |xs|
    ensures Ewm(xs, alpha)[i] == Blend(alpha, xs[i], Ewm(xs, alpha)[i - 1])
  {
    EwmPrefix(xs, alpha, i + 1);
    var p := xs[..i + 1];
    assert p[..|p| - 1] == xs[..i];
    EwmPrefix(xs, alpha, i);
  }

  /**
    The trend line as the dashboard computes it: one pass carrying the running
    mean. It has one value per price, starts at the first price, and follows
    the recurrence at every later position.
  */
  method ExponentialMean(prices: seq<real>, span: nat) returns (ema: seq<real>)
    requires span >= 1
    ensures ema == Ewm(prices, Alpha(span))
    ensures |ema| == |prices|
    ensures |prices| > 0 ==> ema[0] == prices[0]
    ensures forall i :: 0 < i < |prices| ==> ema[i] == Alpha(span) * prices[i] + (1.0 - Alpha(span)) * ema[i - 1]
  {
    var alpha := Alpha(span);
    if |prices| == 0 {
      return [];
    }
    var running := prices[0];
    ema := [running];
    for i := 1 to |prices|
      invariant ema == Ewm(prices[..i], alpha)
      invariant running == ema[i - 1]
    {
      assert prices[..i + 1] == prices[..i] + [prices[i]];
      EwmSnoc(prices[..i], prices[i], alpha);
      running := Blend(alpha, prices[i], running);
      ema := ema + [running];
    }
    assert prices[..|prices|] == prices;
    forall i | 0 < i < |prices|
      ensures ema[i] == alpha * prices[i] + (1.0 - alpha) * ema[i - 1]
    {
      EwmStep(prices, alpha, i);
    }
  }

  /**
    With a smoothing factor in [0, 1] every output is a weighted average of
    prices seen so far, so it stays within any bounds the prices stay within.
  */
  lemma {:induction false} EwmWithinBounds(xs: seq<real>, alpha: real, lo: real, hi: real)
    requires 0.0 <= alpha <= 1.0
    requires forall i :: 0 <= i < |xs| ==> lo <= xs[i] <= hi
    ensures forall i :: 0 <= i < |xs| ==> lo <= Ewm(xs, alpha)[i] <= hi
    decreases |xs|
  {
    if |xs| > 1 {
      var init := xs[..|xs| - 1];
      EwmWithinBounds(init, alpha, lo, hi);
      var prev := Ewm(init, alpha);
      var x, y := xs[|xs| - 1], prev[|prev| - 1];
      assert lo <= y <= hi && lo <= x <= hi;
      BlendBetween(alpha, x, y, lo, hi);
      assert xs == init + [x];
      EwmSnoc(init, x, alpha);
    }
  }

  /** A step of the mean lands between any bounds of the price and the previous output. */
  lemma BlendBetween(alpha: real, x: real, y: real, lo: real, hi: real)
    requires 0.0 <= alpha <= 1.0 && lo <= x <= hi && lo <= y <= hi
    ensures lo <= Blend(alpha, x, y) <= hi
  {
    MulNonNegative(alpha, x - lo);
    MulNonNegative(alpha, hi - x);
    MulNonNegative(1.0 - alpha, y - lo);
    MulNonNegative(1.0 - alpha, hi - y);
    assert Blend(alpha, x, y) - lo == alpha * (x - lo) + (1.0 - alpha) * (y - lo);
    assert hi - Blend(alpha, x, y) == alpha * (hi - x) + (1.0 - alpha) * (hi - y);
  }

  lemma MulNonNegative(a: real, b: real)
    requires a >= 0.0 && b >= 0.0
    ensures a * b >= 0.0
  {
  }

  /** A flat price gives a flat trend line at the same level. */
  lemma EwmOfConstant(xs: seq<real>, alpha: real, c: real)
    requires 0.0 <= alpha <= 1.0
    requires forall i :: 0 <= i < |xs| ==> xs[i] == c
    ensures forall i :: 0 <= i < |xs| ==> Ewm(xs, alpha)[i] == c
  {
    EwmWithinBounds(xs, alpha, c, c);
  }

  /** The dashboard's span on the input [100, 200] gives [100, 125]. */
  lemma EwmExample()
    ensures Ewm([100.0, 200.0], Alpha(EmaSpan)) == [100.0, 125.0]
  {
    assert [100.0, 200.0][..1] == [100.0];
  }

  lemma ScaleSnoc(xs: seq<real>, x: real, c: real)
    ensures Scale(xs + [x], c) == Scale(xs, c) + [c * x]
  {
    assert forall k :: 0 <= k < |xs| + 1 ==> Scale(xs + [x], c)[k] == (Scale(xs, c) + [c * x])[k];
  }

  lemma ScaleLast(xs: seq<real>, c: real)
    requires |xs| > 0
    ensures Scale(xs, c)[|xs| - 1] == c * xs[|xs| - 1]
  {
  }

  lemma ScaledStep(prev: seq<real>, alpha: real, x: real, y: real, c: real)
    ensures Scale(prev + [Blend(alpha, x, y)], c) == Scale(prev, c) + [Blend(alpha, c * x, c * y)]
  {
    ScaleSnoc(prev, Blend(alpha, x, y), c);
    assert Blend(alpha, c * x, c * y) == c * Blend(alpha, x, y);
  }

  /** The trend line does not depend on the price unit: the mean of scaled prices is the scaled mean. */
  lemma {:induction false} EwmScales(xs: seq<real>, alpha: real, c: real)
    ensures Ewm(Scale(xs, c), alpha) == Scale(Ewm(xs, alpha), c)
    decreases |xs|
  {
    if |xs| > 1 {
      var init, x := xs[..|xs| - 1], xs[|xs| - 1];
      assert xs == init + [x];
      var prev := Ewm(init, alpha);
      var y := prev[|prev| - 1];
      calc {
        Ewm(Scale(xs, c), alpha);
        { ScaleSnoc(init, x, c); }
        Ewm(Scale(init, c) + [c * x], alpha);
        { EwmSnoc(Scale(init, c), c * x, alpha); }
        Ewm(Scale(init, c), alpha) + [Blend(alpha, c * x, Ewm(Scale(init, c), alpha)[|init| - 1])];
        { EwmScales(init, alpha, c); }
        Scale(prev, c) + [Blend(alpha, c * x, Scale(prev, c)[|init| - 1])];
        { assert |prev| == |init|; ScaleLast(prev, c); assert Scale(prev, c)[|init| - 1] == c * y; }
        Scale(prev, c) + [Blend(alpha, c * x, c * y)];
        { ScaledStep(prev, alpha, x, y, c); }
        Scale(prev + [Blend(alpha, x, y)], c);
        { EwmSnoc(init, x, alpha); }
        Scale(Ewm(xs, alpha), c);
      }
    } else {
      assert Scale(xs, c) == Scale(Ewm(xs, alpha), c);
    }
  }
}
