/**
  The summary under the charts: from the last row of the normalised
  portfolios, each asset's normalised value and return, the ETH/BTC ratio,
  the difference of the returns, and the banner saying which asset leads.
*/
module Metrics {

  /** The banner: ETH is reported leading only when strictly ahead. */
  datatype Leader = EthLeading | BtcLeading

  /** The numbers of the three summary tiles. */
  datatype Summary = Summary(
    btcLast: real,
    ethLast: real,
    ethBtcRatio: real,
    btcReturnPct: real,
    ethReturnPct: real,
    diffPct: real)

  /**
    `(last - 1) * 100`: the percentage gained since the start of the window.
    It is positive exactly when the normalised value is above 1, zero exactly
    at 1, and turning it back into a growth factor gives the value again.
  */
  function ReturnPct(normalised: real): (pct: real)
    ensures pct > 0.0 <==> normalised > 1.0
    ensures pct == 0.0 <==> normalised == 1.0
    ensures 1.0 + pct / 100.0 == normalised
  {
    (normalised - 1.0) * 100.0
  }

  /**
    The tiles for the normalised BTC and ETH columns: the last values, their
    ratio (which times the BTC value gives the ETH value), each return, and
    the difference of the returns, which is the gap between the last values
    in percentage points.
  */
  function Summarise(btc: seq<real>, eth: seq<real>): (s: Summary)
    requires |btc| > 0 && |eth| > 0 && btc[|btc| - 1] != 0.0
    ensures s.btcLast == btc[|btc| - 1] && s.ethLast == eth[|eth| - 1]
    ensures s.ethBtcRatio * s.btcLast == s.ethLast
    ensures s.btcReturnPct == ReturnPct(s.btcLast) && s.ethReturnPct == ReturnPct(s.ethLast)
    ensures s.diffPct == (s.ethLast - s.btcLast) * 100.0
  {
    var b, e := btc[|btc| - 1], eth[|eth| - 1];
    var br, er := ReturnPct(b), ReturnPct(e);
    Summary(b, e, e / b, br, er, er - br)
  }

  /** The banner: ETH leading exactly when its last value is strictly greater, BTC otherwise. */
  function Signal(btcLast: real, ethLast: real): (l: Leader)
    ensures l == EthLeading <==> ethLast > btcLast
    ensures l == BtcLeading <==> btcLast >= ethLast
  {
    if ethLast > btcLast then EthLeading else BtcLeading
  }

  /**
    The banner agrees with the tiles: ETH is reported leading exactly when
    the return difference is positive and, with a positive BTC value,
    exactly when the ETH/BTC ratio is above 1.
  */
  lemma SignalAgreesWithSummary(btc: seq<real>, eth: seq<real>)
    requires |btc| > 0 && |eth| > 0 && btc[|btc| - 1] > 0.0
    ensures var s := Summarise(btc, eth);
      (Signal(s.btcLast, s.ethLast) == EthLeading <==> s.diffPct > 0.0) &&
      (Signal(s.btcLast, s.ethLast) == EthLeading <==> s.ethBtcRatio > 1.0)
  {
    var s := Summarise(btc, eth);
    var b, r := s.btcLast, s.ethBtcRatio;
    assert s.ethLast - b == (r - 1.0) * b;
    if r > 1.0 {
      ProductPositive(r - 1.0, b);
    } else {
      ProductPositive(1.0 - r, b);
    }
  }

  lemma ProductPositive(a: real, b: real)
    requires a >= 0.0 && b > 0.0
    ensures a * b >= 0.0 && (a > 0.0 ==> a * b > 0.0)
  {
  }

  /** A tie is reported as BTC leading. */
  lemma TieReportsBtc(value: real)
    ensures Signal(value, value) == BtcLeading
  {
  }

  /** BTC at 1.10 and ETH at 1.15: ETH leads, the ratio is 1.15 / 1.10 (1.0455 to four places). */
  lemma EthLeadsExample()
    ensures Signal(1.10, 1.15) == EthLeading
    ensures Summarise([1.10], [1.15]).ethBtcRatio == 1.15 / 1.10
    ensures 1.04545 < Summarise([1.10], [1.15]).ethBtcRatio < 1.04546
    ensures Summarise([1.10], [1.15]).diffPct == 5.0
  {
  }
}
